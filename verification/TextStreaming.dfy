/** Streaming decode equals one-shot decode, and whole texts survive encode and decode. */
module TextStreaming {
  import opened Sequences
  import opened Bytes
  import opened Utf8
  import opened Utf16
  import opened TextCoding

  /** A series of decode calls with {stream: true}: the fields at the end, all code points. */
  ghost function Calls(t: Text, ignoreBom: bool, chunks: seq<seq<Byte>>): (Text, seq<CodePoint>)
    requires t.streaming ==> Sound(t.dec)
    decreases |chunks|
  {
    if chunks == [] then (t, [])
    else
      CallSound(t, ignoreBom, chunks[0], true);
      var (t1, out1) := Call(t, ignoreBom, chunks[0], true);
      var (t2, out2) := Calls(t1, ignoreBom, chunks[1..]);
      (t2, out1 + out2)
  }

  lemma {:induction false} CallsSound(t: Text, ignoreBom: bool, chunks: seq<seq<Byte>>)
    requires t.streaming ==> Sound(t.dec)
    ensures Calls(t, ignoreBom, chunks).0.streaming ==> Sound(Calls(t, ignoreBom, chunks).0.dec)
    decreases |chunks|
  {
    if chunks != [] {
      CallSound(t, ignoreBom, chunks[0], true);
      CallsSound(Call(t, ignoreBom, chunks[0], true).0, ignoreBom, chunks[1..]);
    }
  }

  /** Only the first code point of the whole stream can be dropped as a byte order mark. */
  lemma StripSplits(ignoreBom: bool, seen: bool, a: seq<CodePoint>, b: seq<CodePoint>)
    ensures var (seen1, a') := Strip(ignoreBom, seen, a);
            var (seen2, b') := Strip(ignoreBom, seen1, b);
            Strip(ignoreBom, seen, a + b) == (seen2, a' + b')
  {
    if a == [] {
      assert a + b == b && [] + Strip(ignoreBom, seen, b).1 == Strip(ignoreBom, seen, b).1;
    } else if !ignoreBom && !seen && a[0] == 0xFEFF {
      assert (a + b)[1..] == a[1..] + b;
    }
  }

  /** Two consecutive calls, the first one streaming, are one call on the joined bytes. */
  lemma CallsJoin(t: Text, ignoreBom: bool, a: seq<Byte>, b: seq<Byte>, stream: bool)
    requires t.streaming ==> Sound(t.dec)
    ensures var (t1, out1) := Call(t, ignoreBom, a, true);
            && (t1.streaming ==> Sound(t1.dec))
            && var (t2, out2) := Call(t1, ignoreBom, b, stream);
               Call(t, ignoreBom, a + b, stream) == (t2, out1 + out2)
  {
    CallSound(t, ignoreBom, a, true);
    var t1 := Call(t, ignoreBom, a, true).0;
    TokensJoin(t, t1, a, b, stream);
    CallTokensGood(t, a, true);
    CallTokensGood(t1, b, stream);
    var x, y := CallTokens(t, a, true), CallTokens(t1, b, stream);
    JoinTokens(x, y);
    StripSplits(ignoreBom, t.streaming && t.bomSeen, Values(x), Values(y));
    hide Run, CallTokens, Strip, Sound, GoodTokens;
  }

  lemma TokensJoin(t: Text, t1: Text, a: seq<Byte>, b: seq<Byte>, stream: bool)
    requires t1.streaming && t1.dec == Run(StartDec(t), a).0
    ensures CallTokens(t, a + b, stream) == CallTokens(t, a, true) + CallTokens(t1, b, stream)
    ensures Run(StartDec(t), a + b).0 == Run(StartDec(t1), b).0
  {
    RunAppend(StartDec(t), a, b);
    if !stream {
      Assoc(Run(StartDec(t), a).1, Run(t1.dec, b).1, Flush(Run(t1.dec, b).0));
    }
  }

  /**
   Cutting the input into any chunks, decoding them with {stream: true} and the
   last part without it, gives the code points and the state of one call.
   */
  lemma {:induction false} StreamingIsOneShot(t: Text, ignoreBom: bool, chunks: seq<seq<Byte>>, last: seq<Byte>)
    requires t.streaming ==> Sound(t.dec)
    ensures var (t1, out1) := Calls(t, ignoreBom, chunks);
            && (t1.streaming ==> Sound(t1.dec))
            && var (t2, out2) := Call(t1, ignoreBom, last, false);
               Call(t, ignoreBom, Concat(chunks) + last, false) == (t2, out1 + out2)
    decreases |chunks|
  {
    CallsSound(t, ignoreBom, chunks);
    if chunks == [] {
      assert Concat(chunks) + last == last;
      assert [] + Call(t, ignoreBom, last, false).1 == Call(t, ignoreBom, last, false).1;
    } else {
      var rest := Concat(chunks[1..]) + last;
      CallSound(t, ignoreBom, chunks[0], true);
      var (t1, out1) := Call(t, ignoreBom, chunks[0], true);
      StreamingIsOneShot(t1, ignoreBom, chunks[1..], last);
      CallsJoin(t, ignoreBom, chunks[0], rest, false);
      hide Call, Sound;
      Assoc(chunks[0], Concat(chunks[1..]), last);
      var (t2, out2) := Calls(t1, ignoreBom, chunks[1..]);
      Assoc(out1, out2, Call(t2, ignoreBom, last, false).1);
    }
  }

  /** The strings returned by the calls of a stream concatenate to the one-shot string. */
  lemma StreamedString(t: Text, ignoreBom: bool, chunks: seq<seq<Byte>>, last: seq<Byte>)
    requires t.streaming ==> Sound(t.dec)
    ensures var (t1, out1) := Calls(t, ignoreBom, chunks);
            && (t1.streaming ==> Sound(t1.dec))
            && ToUtf16(out1) + ToUtf16(Call(t1, ignoreBom, last, false).1)
               == ToUtf16(Call(t, ignoreBom, Concat(chunks) + last, false).1)
  {
    StreamingIsOneShot(t, ignoreBom, chunks, last);
    hide Call, Calls, Sound;
    var (t1, out1) := Calls(t, ignoreBom, chunks);
    ToUtf16Append(out1, Call(t1, ignoreBom, last, false).1);
  }

  // ---- TextEncoder ----

  /** c >> (6 * n) for n <= 3. */
  function Shr6(c: int, n: nat): int {
    if n == 0 then c else if n == 1 then c / 0x40 else if n == 2 then c / 0x1000 else c / 0x4_0000
  }

  /** UTF8Encoder.handler: the lead byte, then `count` continuation bytes in a loop. */
  method EncodeHandler(c: CodePoint) returns (bytes: seq<Byte>)
    ensures bytes == Encode1(c)
  {
    if c <= 0x7F {
      return [c];
    }
    var count, offset := 3, 0xF0;
    if c <= 0x7FF {
      count, offset := 1, 0xC0;
    } else if c <= 0xFFFF {
      count, offset := 2, 0xE0;
    }
    ghost var n := count;
    bytes := [Shr6(c, count) + offset];
    while count > 0
      invariant 0 <= count <= n && n == |Encode1(c)| - 1
      invariant bytes == Encode1(c)[..n + 1 - count]
    {
      var temp := Shr6(c, count - 1);
      assert Encode1(c)[n + 1 - count] == 0x80 + temp % 0x40;
      bytes := bytes + [0x80 + temp % 0x40];
      count := count - 1;
    }
  }

  /** TextEncoder.encode. */
  method EncodeText(s: seq<Uint16>) returns (bytes: seq<Byte>)
    ensures bytes == Encode(FromUtf16(s))
  {
    var cs := StringToCodePoints(s);
    bytes := [];
    for i := 0 to |cs|
      invariant bytes == Encode(cs[..i])
    {
      var b := EncodeHandler(cs[i]);
      assert cs[..i + 1] == cs[..i] + [cs[i]];
      EncodeAppend(cs[..i], [cs[i]]);
      EncodeOne(cs[i]);
      bytes := bytes + b;
    }
    assert cs[..|cs|] == cs;
  }

  /** The text that a one-shot decode makes of the encoding of s. */
  ghost function Echoed(ignoreBom: bool, s: seq<Uint16>): seq<Uint16> {
    ToUtf16(Call(Text(false, false, INITIAL), ignoreBom, Encode(FromUtf16(s)), false).1)
  }

  lemma EchoedPoints(ignoreBom: bool, s: seq<Uint16>)
    ensures Echoed(ignoreBom, s) == ToUtf16(Strip(ignoreBom, false, FromUtf16(s)).1)
  {
    var cs := FromUtf16(s);
    var t := Text(false, false, INITIAL);
    FromUtf16Scalars(s);
    RoundTrip(cs);
    CallTokensGood(t, Encode(cs), false);
    assert CallTokens(t, Encode(cs), false) == Points(cs);
    assert Values(Points(cs)) == cs;
  }

  /**
   encode followed by decode returns the string itself exactly if it has no lone
   surrogate and does not start with a byte order mark that decode would drop.
   */
  lemma TextRoundTripExactly(ignoreBom: bool, s: seq<Uint16>)
    ensures Echoed(ignoreBom, s) == s <==> Paired(s) && (ignoreBom || s == [] || s[0] != 0xFEFF)
  {
    EchoedPoints(ignoreBom, s);
    StringPreservedExactly(s);
    var cs := FromUtf16(s);
    if s != [] {
      assert cs[0] == 0xFEFF <==> s[0] == 0xFEFF;
      assert |ToUtf16(cs)| == |Units(cs[0])| + |ToUtf16(cs[1..])|;
    }
  }

  /** A decode that continues no stream yields the decoding of its bytes, errors as U+FFFD, without a leading byte order mark. */
  lemma OneShotDecodes(t: Text, ignoreBom: bool, bytes: seq<Byte>)
    requires !t.streaming
    ensures GoodTokens(Reference(bytes))
    ensures var cs := Values(Reference(bytes));
            Call(t, ignoreBom, bytes, false).1 == if !ignoreBom && cs != [] && cs[0] == 0xFEFF then cs[1..] else cs
  {
    DecodesAsReference(bytes);
    ScalarsOnly(bytes);
    assert CallTokens(t, bytes, false) == Decode(bytes);
  }
}
