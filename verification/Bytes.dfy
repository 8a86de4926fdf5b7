/** Bytes and the little-endian integers of the wire format. */
module Bytes {
  type Byte = x: int | 0 <= x < 0x100
  type Uint16 = x: int | 0 <= x < 0x1_0000
  type Uint32 = x: int | 0 <= x < 0x1_0000_0000
  type Int32 = x: int | -0x8000_0000 <= x < 0x8000_0000

  function Le16(x: Uint16): seq<Byte> {
    [x % 0x100, x / 0x100]
  }

  function Le32(x: Uint32): seq<Byte> {
    [x % 0x100, x / 0x100 % 0x100, x / 0x1_0000 % 0x100, x / 0x100_0000]
  }

  function FromLe16(b: seq<Byte>): Uint16
    requires |b| == 2
  {
    b[0] as int + 0x100 * (b[1] as int)
  }

  function FromLe32(b: seq<Byte>): Uint32
    requires |b| == 4
  {
    b[0] as int + 0x100 * (b[1] as int) + 0x1_0000 * (b[2] as int) + 0x100_0000 * (b[3] as int)
  }

  /** Two's complement. */
  function AsUnsigned(x: Int32): Uint32 { if x < 0 then x + 0x1_0000_0000 else x }

  function AsSigned(x: Uint32): Int32 { if x < 0x8000_0000 then x else x - 0x1_0000_0000 }

  lemma Le16Inverse(x: Uint16)
    ensures FromLe16(Le16(x)) == x
  {
  }

  lemma Le32Inverse(x: Uint32)
    ensures FromLe32(Le32(x)) == x
  {
    assert x / 0x100 / 0x100 == x / 0x1_0000;
    assert x / 0x1_0000 / 0x100 == x / 0x100_0000;
  }
}
