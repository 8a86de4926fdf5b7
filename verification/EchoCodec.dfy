/** The echo package on the wire (examples/echo/tcp-echo/server/app/echo.go). */
module EchoCodec {
  import opened Bytes
  import opened TcpFraming

  const MAGIC: Uint32 := 0x20160905
  const MAX_STRING := 0xff
  const HEADER_LEN := 32

  datatype Header = Header(
    magic: Uint32, logId: Uint32, sequence: Uint32, serviceId: Uint32,
    command: Uint32, code: Int32, len: Uint16)

  datatype Package = Package(h: Header, b: seq<Byte>)

  datatype Decoded =
    | NotEnoughStream
    | IllegalMagic
    | TooLargePackage
    | Ok(pkg: Package, n: nat)

  /** binary.Write of the header: little endian, blank fields as zeros. */
  function EncodeHeader(h: Header): (r: seq<Byte>)
    ensures |r| == HEADER_LEN
  {
    Le32(h.magic) + Le32(h.logId) + Le32(h.sequence) + Le32(h.serviceId)
    + Le32(h.command) + Le32(AsUnsigned(h.code)) + Le16(h.len) + [0, 0] + [0, 0, 0, 0]
  }

  /** binary.Read of the header: blank fields are skipped. */
  function DecodeHeader(d: seq<Byte>): Header
    requires |d| >= HEADER_LEN
  {
    Header(FromLe32(d[0..4]), FromLe32(d[4..8]), FromLe32(d[8..12]), FromLe32(d[12..16]),
           FromLe32(d[16..20]), AsSigned(FromLe32(d[20..24])), FromLe16(d[24..26]))
  }

  /** The length byte is the body length modulo 256. */
  function Encode(p: Package): seq<Byte> {
    EncodeHeader(p.h) + [|p.b| % 0x100] + p.b
  }

  function Min(a: nat, b: nat): nat { if a < b then a else b }

  /** uint16 subtraction wraps. */
  function Minus1(x: Uint16): Uint16 { if x == 0 then 0xffff else x - 1 }

  /** The body is cut off what is buffered, not off what the header announced. */
  function Decode(d: seq<Byte>): Decoded {
    if |d| < HEADER_LEN then NotEnoughStream
    else
      var h := DecodeHeader(d);
      if h.magic != MAGIC then IllegalMagic
      else if |d| - HEADER_LEN < h.len then NotEnoughStream
      else if MAX_STRING < Minus1(h.len) then TooLargePackage
      else Ok(Package(h, d[33..33 + Min(d[HEADER_LEN], |d| - 33)]), h.len + HEADER_LEN)
  }

  /** EchoPackage.Marshal. */
  method Marshal(p: Package) returns (buf: seq<Byte>)
    ensures buf == Encode(p)
  {
    buf := EncodeHeader(p.h);
    buf := buf + [|p.b| % 0x100];
    buf := buf + p.b;
  }

  /** EchoPackage.Unmarshal: consumes the buffer it is given. */
  method Unmarshal(data: seq<Byte>) returns (r: Decoded)
    ensures r == Decode(data)
  {
    var buf := data;
    if |buf| < HEADER_LEN {
      return NotEnoughStream;
    }
    var h := DecodeHeader(buf);
    buf := buf[HEADER_LEN..];
    if h.magic != MAGIC {
      return IllegalMagic;
    }
    if |buf| < h.len {
      return NotEnoughStream;
    }
    if MAX_STRING < Minus1(h.len) {
      return TooLargePackage;
    }
    var len := buf[0];
    buf := buf[1..];
    var body := buf[..Min(len, |buf|)];
    buf := buf[Min(len, |buf|)..];
    return Ok(Package(h, body), h.len + HEADER_LEN);
  }

  /** EchoPackageHandler.Read: too little data is no error. */
  function Read(d: seq<Byte>): Reply<Package> {
    match Decode(d)
    case NotEnoughStream => Partial(0)
    case Ok(p, n) => Complete(p, n)
    case _ => Failed
  }

  /** Whatever the header says, a successful read consumes at least a header and a length byte. */
  lemma ReadProgresses(d: seq<Byte>)
    requires Read(d).Complete?
    ensures 33 <= Read(d).len <= |d| && Read(d).len <= HEADER_LEN + 1 + MAX_STRING
  {
  }

  lemma HeaderRoundTrip(h: Header, rest: seq<Byte>)
    ensures DecodeHeader(EncodeHeader(h) + rest) == h
  {
    var d := EncodeHeader(h) + rest;
    assert d[0..4] == Le32(h.magic);
    assert d[4..8] == Le32(h.logId);
    assert d[8..12] == Le32(h.sequence);
    assert d[12..16] == Le32(h.serviceId);
    assert d[16..20] == Le32(h.command);
    assert d[20..24] == Le32(AsUnsigned(h.code));
    assert d[24..26] == Le16(h.len);
    Le32Inverse(h.magic);
    Le32Inverse(h.logId);
    Le32Inverse(h.sequence);
    Le32Inverse(h.serviceId);
    Le32Inverse(h.command);
    Le32Inverse(AsUnsigned(h.code));
    Le16Inverse(h.len);
  }

  predicate WellFormed(p: Package) {
    p.h.magic == MAGIC && |p.b| <= MAX_STRING && p.h.len == |p.b| + 1
  }

  /** A well-formed package is read back from the front of any stream, consuming its own bytes. */
  lemma FrontRoundTrip(p: Package, rest: seq<Byte>)
    requires WellFormed(p)
    ensures |Encode(p)| == p.h.len + HEADER_LEN
    ensures Read(Encode(p) + rest) == Complete(p, |Encode(p)|)
  {
    hide EncodeHeader, DecodeHeader;
    Layout(p, rest);
    HeaderRoundTrip(p.h, [|p.b| % 0x100] + p.b + rest);
    assert |p.b| % 0x100 == |p.b|;
  }

  lemma Layout(p: Package, rest: seq<Byte>)
    ensures var d := Encode(p) + rest;
            && |Encode(p)| == 33 + |p.b|
            && d == EncodeHeader(p.h) + ([|p.b| % 0x100] + p.b + rest)
            && d[HEADER_LEN] == |p.b| % 0x100
            && d[33..33 + |p.b|] == p.b
  {
    hide EncodeHeader;
  }

  /** Marshal then Unmarshal gives the package back exactly for the well-formed packages. */
  lemma RoundTripExactly(p: Package)
    ensures Decode(Encode(p)) == Ok(p, |Encode(p)|) <==> WellFormed(p)
  {
    var tail := [|p.b| % 0x100] + p.b;
    assert Encode(p) == EncodeHeader(p.h) + tail;
    HeaderRoundTrip(p.h, tail);
    if WellFormed(p) {
      FrontRoundTrip(p, []);
      assert Encode(p) + [] == Encode(p);
    }
  }

  // ---- The format, byte by byte ----

  /** The four bytes at offset i as a little-endian number. */
  function Word(d: seq<Byte>, i: nat): int
    requires i + 4 <= |d|
  {
    d[i] as int + 0x100 * (d[i + 1] as int) + 0x1_0000 * (d[i + 2] as int) + 0x100_0000 * (d[i + 3] as int)
  }

  function Half(d: seq<Byte>, i: nat): int
    requires i + 2 <= |d|
  {
    d[i] as int + 0x100 * (d[i + 1] as int)
  }

  lemma WordOf(x: Uint32, before: seq<Byte>, after: seq<Byte>)
    ensures Word(before + Le32(x) + after, |before|) == x
  {
    Le32Inverse(x);
    var d, i := before + Le32(x) + after, |before|;
    assert d[i] == Le32(x)[0] && d[i + 1] == Le32(x)[1] && d[i + 2] == Le32(x)[2] && d[i + 3] == Le32(x)[3];
  }

  lemma HeaderWords(h: Header)
    ensures var e := EncodeHeader(h);
            && Word(e, 0) == h.magic && Word(e, 4) == h.logId && Word(e, 8) == h.sequence && Word(e, 12) == h.serviceId
            && Word(e, 16) == h.command && Word(e, 20) == AsUnsigned(h.code)
            && Half(e, 24) == h.len && forall i | 26 <= i < 32 :: e[i] == 0
  {
    var e := EncodeHeader(h);
    var w := [h.magic, h.logId, h.sequence, h.serviceId, h.command, AsUnsigned(h.code)];
    forall k | 0 <= k < 6 ensures Word(e, 4 * k) == w[k] {
      assert e == e[..4 * k] + Le32(w[k]) + e[4 * k + 4..];
      WordOf(w[k], e[..4 * k], e[4 * k + 4..]);
    }
    assert Word(e, 4 * 0) == w[0] && Word(e, 4 * 1) == w[1] && Word(e, 4 * 2) == w[2];
    assert Word(e, 4 * 3) == w[3] && Word(e, 4 * 4) == w[4] && Word(e, 4 * 5) == w[5];
    Le16Inverse(h.len);
  }

  /**
   Where everything stands in a marshalled package: six little-endian words, the
   error code in two's complement, the length, six zero bytes, the length byte, the
   body.
   */
  lemma WireFormat(p: Package)
    ensures var e := Encode(p);
            && |e| == 33 + |p.b|
            && Word(e, 0) == p.h.magic && Word(e, 4) == p.h.logId && Word(e, 8) == p.h.sequence
            && Word(e, 12) == p.h.serviceId && Word(e, 16) == p.h.command
            && Word(e, 20) == p.h.code + (if p.h.code < 0 then 0x1_0000_0000 else 0)
            && Half(e, 24) == p.h.len && (forall i | 26 <= i < 32 :: e[i] == 0)
            && e[32] == |p.b| % 256 && e[33..] == p.b
  {
    HeaderWords(p.h);
    var e, h := Encode(p), EncodeHeader(p.h);
    hide EncodeHeader;
    assert e[..32] == h;
    forall i | 0 <= i < 32 ensures e[i] == h[i] {
      assert e[..32][i] == h[i];
    }
  }

  /** The length announced by a buffer that holds a header. */
  function Announced(d: seq<Byte>): int
    requires |d| >= 32
  {
    Half(d, 24)
  }

  predicate RightMagic(d: seq<Byte>)
    requires |d| >= 32
  {
    Word(d, 0) == 0x20160905
  }

  lemma DecodedWords(d: seq<Byte>)
    requires |d| >= 32
    ensures var h := DecodeHeader(d);
            && h.magic == Word(d, 0) && h.logId == Word(d, 4) && h.sequence == Word(d, 8) && h.serviceId == Word(d, 12)
            && h.command == Word(d, 16) && h.len == Announced(d)
            && h.code == Word(d, 20) - if Word(d, 20) < 0x8000_0000 then 0 else 0x1_0000_0000
  {
    assert forall k | 0 <= k < 4 :: d[0..4][k] == d[k] && d[4..8][k] == d[4 + k] && d[8..12][k] == d[8 + k];
    assert forall k | 0 <= k < 4 :: d[12..16][k] == d[12 + k] && d[16..20][k] == d[16 + k] && d[20..24][k] == d[20 + k];
    assert d[24..26][0] == d[24] && d[24..26][1] == d[25];
  }

  /**
   What Unmarshal answers, read off the bytes: too little data, a wrong magic, an
   announced length of zero or above 256, or the package.
   */
  lemma UnmarshalExactly(d: seq<Byte>)
    ensures Decode(d) == NotEnoughStream <==> |d| < 32 || (RightMagic(d) && |d| - 32 < Announced(d))
    ensures Decode(d) == IllegalMagic <==> |d| >= 32 && !RightMagic(d)
    ensures Decode(d) == TooLargePackage <==>
              |d| >= 32 && RightMagic(d) && |d| - 32 >= Announced(d) && !(1 <= Announced(d) <= 256)
    ensures Decode(d).Ok? ==>
              && |d| >= 33 && Decode(d).n == Announced(d) + 32 && Decode(d).pkg.h == DecodeHeader(d)
              && Decode(d).pkg.b == d[33..33 + Min(d[32], |d| - 33)]
  {
    if |d| >= 32 {
      DecodedWords(d);
    }
  }

  /** Too little data is no error to the receive loop, everything else that fails is. */
  lemma ReadExactly(d: seq<Byte>)
    ensures Read(d).Partial? <==> Decode(d) == NotEnoughStream
    ensures Read(d).Partial? ==> Read(d).declared == 0
    ensures Read(d).Failed? <==> Decode(d) == IllegalMagic || Decode(d) == TooLargePackage
    ensures Read(d).Complete? <==> Decode(d).Ok?
    ensures Read(d).Complete? ==> Read(d).pkg == Decode(d).pkg && Read(d).len == Decode(d).n
  {
  }
}
