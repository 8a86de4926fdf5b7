/**
 UTF-8 as the JavaScript client codes it
 (examples/echo/ws-echo/js-client/encoding.js), after RFC 3629, sections 3 and 4.

 The decoder's five closure variables are the fields of `Dec`. A byte that does
 not continue a sequence is an error and is then read again as a first byte.
 */
module Utf8 {
  import opened Sequences
  import opened Bytes

  type CodePoint = x: int | 0 <= x <= 0x10FFFF

  /** Unicode scalar values: code points that are not surrogates. */
  predicate Scalar(c: int) {
    0 <= c < 0xD800 || 0xE000 <= c <= 0x10FFFF
  }

  const REPLACEMENT: CodePoint := 0xFFFD

  /** UTF8Encoder.handler for one code point. */
  function Encode1(c: CodePoint): seq<Byte> {
    if c <= 0x7F then [c]
    else if c <= 0x7FF then [0xC0 + c / 0x40, 0x80 + c % 0x40]
    else if c <= 0xFFFF then [0xE0 + c / 0x1000, 0x80 + c / 0x40 % 0x40, 0x80 + c % 0x40]
    else [0xF0 + c / 0x4_0000, 0x80 + c / 0x1000 % 0x40, 0x80 + c / 0x40 % 0x40, 0x80 + c % 0x40]
  }

  function Encode(cs: seq<CodePoint>): seq<Byte> {
    if cs == [] then [] else Encode1(cs[0]) + Encode(cs[1..])
  }

  lemma {:induction false} EncodeAppend(a: seq<CodePoint>, b: seq<CodePoint>)
    ensures Encode(a + b) == Encode(a) + Encode(b)
  {
    if a == [] {
      assert a + b == b;
    } else {
      assert (a + b)[1..] == a[1..] + b;
      EncodeAppend(a[1..], b);
      Assoc(Encode1(a[0]), Encode(a[1..]), Encode(b));
    }
  }

  /** utf8_code_point, utf8_bytes_seen, utf8_bytes_needed and the two boundaries. */
  datatype Dec = Dec(point: int, seen: int, needed: int, lower: int, upper: int)

  const INITIAL := Dec(0, 0, 0, 0x80, 0xBF)

  /** What the decoder produces: a code point, or decoderError. */
  datatype Token = Point(c: int) | Bad

  /** x << (6 * n) for n <= 3. */
  function Shl6(x: int, n: int): int {
    if n == 0 then x else if n == 1 then x * 0x40 else if n == 2 then x * 0x1000 else x * 0x4_0000
  }

  /** First byte of a sequence (utf8_bytes_needed == 0). */
  function Lead(d: Dec, b: Byte): (Dec, seq<Token>) {
    if b <= 0x7F then (d, [Point(b)])
    else if 0xC2 <= b <= 0xDF then (d.(needed := 1, point := Shl6(b - 0xC0, 1)), [])
    else if 0xE0 <= b <= 0xEF then
      (d.(needed := 2, point := Shl6(b - 0xE0, 2),
          lower := if b == 0xE0 then 0xA0 else d.lower,
          upper := if b == 0xED then 0x9F else d.upper), [])
    else if 0xF0 <= b <= 0xF4 then
      (d.(needed := 3, point := Shl6(b - 0xF0, 3),
          lower := if b == 0xF0 then 0x90 else d.lower,
          upper := if b == 0xF4 then 0x8F else d.upper), [])
    else (d, [Bad])
  }

  predicate Continues(d: Dec, b: Byte) { d.lower <= b <= d.upper }

  /** A continuation byte within the boundaries. */
  function Trail(d: Dec, b: Byte): (Dec, seq<Token>) {
    var point := d.point + Shl6(b - 0x80, d.needed - d.seen - 1);
    if d.seen + 1 == d.needed then (INITIAL, [Point(point)])
    else (Dec(point, d.seen + 1, d.needed, 0x80, 0xBF), [])
  }

  /** All that happens to one byte, including its second reading after an error. */
  function Feed(d: Dec, b: Byte): (Dec, seq<Token>) {
    if d.needed == 0 then Lead(d, b)
    else if Continues(d, b) then Trail(d, b)
    else (Lead(INITIAL, b).0, [Bad] + Lead(INITIAL, b).1)
  }

  function Run(d: Dec, bytes: seq<Byte>): (Dec, seq<Token>)
    decreases |bytes|
  {
    if bytes == [] then (d, [])
    else
      var (d1, out1) := Feed(d, bytes[0]);
      var (d2, out2) := Run(d1, bytes[1..]);
      (d2, out1 + out2)
  }

  /** End of stream: an unfinished sequence is one more error. */
  function Flush(d: Dec): seq<Token> {
    if d.needed != 0 then [Bad] else []
  }

  function Decode(bytes: seq<Byte>): seq<Token> {
    Run(INITIAL, bytes).1 + Flush(Run(INITIAL, bytes).0)
  }

  lemma {:induction false} RunAppend(d: Dec, a: seq<Byte>, b: seq<Byte>)
    ensures Run(d, a + b) == (Run(Run(d, a).0, b).0, Run(d, a).1 + Run(Run(d, a).0, b).1)
    decreases |a|
  {
    if a == [] {
      assert a + b == b;
      assert Run(d, a).1 + Run(d, b).1 == Run(d, b).1;
    } else {
      var f := Feed(d, a[0]);
      assert (a + b)[1..] == a[1..] + b;
      RunAppend(f.0, a[1..], b);
      Assoc(f.1, Run(f.0, a[1..]).1, Run(Run(f.0, a[1..]).0, b).1);
    }
  }

  // ---- The states the decoder can reach ----

  /** The second byte's range after first byte b (RFC 3629, section 4). */
  function Low(b: Byte): int { if b == 0xE0 then 0xA0 else if b == 0xF0 then 0x90 else 0x80 }

  function High(b: Byte): int { if b == 0xED then 0x9F else if b == 0xF4 then 0x8F else 0xBF }

  predicate Tail(b: Byte) { 0x80 <= b <= 0xBF }

  /** A proper prefix of the UTF-8 form of some scalar value. */
  predicate Prefix(p: seq<Byte>) {
    || p == []
    || (|p| == 1 && 0xC2 <= p[0] <= 0xF4)
    || (|p| == 2 && 0xE0 <= p[0] <= 0xF4 && Low(p[0]) <= p[1] <= High(p[0]))
    || (|p| == 3 && 0xF0 <= p[0] <= 0xF4 && Low(p[0]) <= p[1] <= High(p[0]) && Tail(p[2]))
  }

  function Needed(b: Byte): int { if b <= 0xDF then 1 else if b <= 0xEF then 2 else 3 }

  /** The decoder's variables after it has read the prefix p. */
  function After(p: seq<Byte>): Dec
    requires Prefix(p)
  {
    if p == [] then INITIAL
    else
      var n := Needed(p[0]);
      var base := if n == 1 then 0xC0 else if n == 2 then 0xE0 else 0xF0;
      Dec(Shl6(p[0] - base, n) + (if |p| > 1 then Shl6(p[1] - 0x80, n - 1) else 0)
          + (if |p| > 2 then Shl6(p[2] - 0x80, n - 2) else 0),
          |p| - 1, n,
          if |p| == 1 then Low(p[0]) else 0x80,
          if |p| == 1 then High(p[0]) else 0xBF)
  }

  /** A byte that continues a prefix makes it longer, or completes a scalar value. */
  lemma TrailStep(p: seq<Byte>, b: Byte)
    requires Prefix(p) && p != [] && Continues(After(p), b)
    ensures |p| < Needed(p[0]) ==> Prefix(p + [b]) && Feed(After(p), b) == (After(p + [b]), [])
    ensures |p| == Needed(p[0]) ==>
              exists c :: Scalar(c) && Encode1(c) == p + [b] && Feed(After(p), b) == (INITIAL, [Point(c)])
  {
    if |p| == Needed(p[0]) {
      var c := Trail(After(p), b).1[0].c;
      Completes(p, b, c);
    }
  }

  lemma Completes(p: seq<Byte>, b: Byte, c: int)
    requires Prefix(p) && p != [] && Continues(After(p), b) && |p| == Needed(p[0])
    requires c == After(p).point + (b - 0x80)
    ensures Scalar(c) && Encode1(c) == p + [b]
  {
    if |p| == 1 { Two(p[0] - 0xC0, b - 0x80); }
    else if |p| == 2 { Three(p[0] - 0xE0, p[1] - 0x80, b - 0x80); }
    else { Four(p[0] - 0xF0, p[1] - 0x80, p[2] - 0x80, b - 0x80); }
  }

  lemma Two(x: int, y: int)
    requires 0 <= x && 0 <= y < 0x40
    ensures var c := x * 0x40 + y; c / 0x40 == x && c % 0x40 == y
  {
  }

  lemma Three(x: int, y: int, z: int)
    requires 0 <= x && 0 <= y < 0x40 && 0 <= z < 0x40
    ensures var c := x * 0x1000 + y * 0x40 + z;
            c / 0x1000 == x && c / 0x40 == x * 0x40 + y && c / 0x40 % 0x40 == y && c % 0x40 == z
  {
    Two(x * 0x40 + y, z);
    Two(x, y);
  }

  lemma Four(w: int, x: int, y: int, z: int)
    requires 0 <= w && 0 <= x < 0x40 && 0 <= y < 0x40 && 0 <= z < 0x40
    ensures var c := w * 0x4_0000 + x * 0x1000 + y * 0x40 + z;
            && c / 0x4_0000 == w && c / 0x1000 % 0x40 == x
            && c / 0x40 % 0x40 == y && c % 0x40 == z
  {
    var c := w * 0x4_0000 + x * 0x1000 + y * 0x40 + z;
    Three(w * 0x40 + x, y, z);
    assert c / 0x1000 == w * 0x40 + x;
    Two(w, x);
  }

  // ---- Round trip, canonicity ----

  predicate Clean(out: seq<Token>) {
    forall i | 0 <= i < |out| :: out[i].Point?
  }

  /** Only scalar values are emitted. */
  predicate GoodTokens(out: seq<Token>) {
    forall i | 0 <= i < |out| :: out[i].Point? ==> Scalar(out[i].c)
  }

  function Value(t: Token): CodePoint
    requires t.Point? ==> Scalar(t.c)
  {
    if t.Point? then t.c else REPLACEMENT
  }

  /** The code points pushed by a decoder that is not fatal. */
  function Values(out: seq<Token>): (cs: seq<CodePoint>)
    requires GoodTokens(out)
    ensures |cs| == |out| && forall i | 0 <= i < |out| :: cs[i] == Value(out[i])
  {
    seq(|out|, i requires 0 <= i < |out| => Value(out[i]))
  }

  predicate Scalars(cs: seq<CodePoint>) {
    forall i | 0 <= i < |cs| :: Scalar(cs[i])
  }

  function Points(cs: seq<CodePoint>): (out: seq<Token>)
    ensures |out| == |cs| && forall i | 0 <= i < |cs| :: out[i] == Point(cs[i])
  {
    seq(|cs|, i requires 0 <= i < |cs| => Point(cs[i]))
  }

  /** The run from prefix p over bytes ended in prefix q, with nothing lost or invented. */
  ghost predicate Accounts(p: seq<Byte>, bytes: seq<Byte>, out: seq<Token>, q: seq<Byte>) {
    && GoodTokens(out)
    && Prefix(q)
    && (Clean(out) ==> p + bytes == Encode(Values(out)) + q)
  }

  lemma FeedAccounts(p: seq<Byte>, b: Byte) returns (q: seq<Byte>)
    requires Prefix(p)
    ensures Accounts(p, [b], Feed(After(p), b).1, q) && Feed(After(p), b).0 == After(q)
  {
    if p != [] && Continues(After(p), b) {
      TrailStep(p, b);
      if |p| < Needed(p[0]) {
        q := p + [b];
        assert Encode(Values([])) + q == q;
      } else {
        var c :| Scalar(c) && Encode1(c) == p + [b] && Feed(After(p), b) == (INITIAL, [Point(c)]);
        q := [];
        assert Values([Point(c)]) == [c];
        EncodeOne(c);
      }
    } else {
      q := LeadAccounts(b);
    }
  }

  lemma EncodeOne(c: CodePoint)
    ensures Encode([c]) == Encode1(c)
  {
    assert [c][1..] == [];
    assert Encode1(c) + [] == Encode1(c);
  }

  lemma LeadAccounts(b: Byte) returns (q: seq<Byte>)
    ensures Accounts([], [b], Lead(INITIAL, b).1, q) && Lead(INITIAL, b).0 == After(q)
  {
    if b <= 0x7F {
      q := [];
      assert Values([Point(b)]) == [b];
      EncodeOne(b);
    } else if 0xC2 <= b <= 0xF4 {
      q := [b];
      assert Encode(Values([])) + q == q;
    } else {
      q := [];
    }
  }

  lemma Regroup(p: seq<Byte>, b: seq<Byte>, rest: seq<Byte>, x: seq<Byte>, q: seq<Byte>, y: seq<Byte>, r: seq<Byte>)
    requires p + b == x + q && q + rest == y + r
    ensures p + (b + rest) == (x + y) + r
  {
    Assoc(p, b, rest);
    Assoc(x, q, rest);
    Assoc(x, y, r);
  }

  lemma JoinTokens(a: seq<Token>, b: seq<Token>)
    requires GoodTokens(a) && GoodTokens(b)
    ensures GoodTokens(a + b) && Values(a + b) == Values(a) + Values(b)
    ensures Clean(a + b) ==> Clean(a) && Clean(b)
  {
    forall i | 0 <= i < |a| ensures a[i] == (a + b)[i] {}
    forall i | 0 <= i < |b| ensures b[i] == (a + b)[|a| + i] {}
    var whole, parts := Values(a + b), Values(a) + Values(b);
    hide Value;
    forall i | 0 <= i < |whole| ensures whole[i] == parts[i] {
      assert (a + b)[i] == if i < |a| then a[i] else b[i - |a|];
    }
  }

  lemma AccountsJoin(p: seq<Byte>, b: Byte, out1: seq<Token>, q: seq<Byte>, rest: seq<Byte>, out2: seq<Token>, r: seq<Byte>)
    requires Accounts(p, [b], out1, q) && Accounts(q, rest, out2, r)
    ensures Accounts(p, [b] + rest, out1 + out2, r)
  {
    hide Prefix;
    JoinTokens(out1, out2);
    hide Clean, GoodTokens;
    if Clean(out1 + out2) {
      EncodeAppend(Values(out1), Values(out2));
      Regroup(p, [b], rest, Encode(Values(out1)), q, Encode(Values(out2)), r);
    }
  }

  lemma {:induction false} RunAccounts(p: seq<Byte>, bytes: seq<Byte>) returns (q: seq<Byte>)
    requires Prefix(p)
    ensures Accounts(p, bytes, Run(After(p), bytes).1, q) && Run(After(p), bytes).0 == After(q)
    decreases |bytes|
  {
    if bytes == [] {
      q := p;
      assert p + bytes == Encode(Values([])) + q;
    } else {
      var q1 := FeedAccounts(p, bytes[0]);
      q := RunAccounts(q1, bytes[1..]);
      hide Accounts, After, Prefix, Feed;
      AccountsJoin(p, bytes[0], Feed(After(p), bytes[0]).1, q1, bytes[1..], Run(After(q1), bytes[1..]).1, q);
      assert bytes == [bytes[0]] + bytes[1..];
    }
  }

  /** Whatever the bytes, only scalar values come out. */
  lemma ScalarsOnly(bytes: seq<Byte>)
    ensures GoodTokens(Decode(bytes))
  {
    var q := RunAccounts([], bytes);
  }

  lemma FlushClean(q: seq<Byte>)
    requires Prefix(q)
    ensures Clean(Flush(After(q))) <==> q == []
  {
    if q != [] { assert Flush(After(q))[0] == Bad; }
  }

  /** No error means the bytes are the one encoding of the output: no overlong forms, no surrogates. */
  lemma Canonical(bytes: seq<Byte>)
    requires Clean(Decode(bytes))
    ensures GoodTokens(Decode(bytes)) && Encode(Values(Decode(bytes))) == bytes
  {
    ScalarsOnly(bytes);
    var q := RunAccounts([], bytes);
    var out := Run(INITIAL, bytes).1;
    JoinTokens(out, Flush(After(q)));
    FlushClean(q);
    assert out + [] == out;
    assert [] + bytes == bytes && Encode(Values(out)) + [] == Encode(Values(out));
  }

  lemma RunOne(d: Dec, b: Byte)
    ensures Run(d, [b]) == Feed(d, b)
  {
    assert [b][1..] == [];
    assert Feed(d, b).1 + [] == Feed(d, b).1;
  }

  lemma Digits(c: int)
    requires c >= 0
    ensures c == c / 0x40 * 0x40 + c % 0x40
    ensures c == c / 0x1000 * 0x1000 + c / 0x40 % 0x40 * 0x40 + c % 0x40
    ensures c == c / 0x4_0000 * 0x4_0000 + c / 0x1000 % 0x40 * 0x1000 + c / 0x40 % 0x40 * 0x40 + c % 0x40
  {
    assert c / 0x40 / 0x40 == c / 0x1000;
    assert c / 0x1000 / 0x40 == c / 0x4_0000;
  }

  lemma ThreeBytes(c: int, x: int, y: int, z: int)
    requires 0x800 <= c <= 0xFFFF && Scalar(c) && c == x * 0x1000 + y * 0x40 + z && 0 <= y < 0x40 && 0 <= z < 0x40
    ensures 0 <= x <= 0xF && (x == 0 ==> y >= 0x20) && (x == 0xD ==> y < 0x20)
  {
  }

  lemma FourBytes(c: int, w: int, x: int, y: int, z: int)
    requires 0x1_0000 <= c <= 0x10FFFF && c == w * 0x4_0000 + x * 0x1000 + y * 0x40 + z
    requires 0 <= x < 0x40 && 0 <= y < 0x40 && 0 <= z < 0x40
    ensures 0 <= w <= 4 && (w == 0 ==> x >= 0x10) && (w == 4 ==> x < 0x10)
  {
  }

  /** The bytes of a scalar value's encoding lie in the ranges of the grammar. */
  lemma EncodingShape(c: CodePoint)
    requires Scalar(c) && c > 0x7F
    ensures var e := Encode1(c);
            && Needed(e[0]) == |e| - 1 && 0xC2 <= e[0] <= 0xF4 && Low(e[0]) <= e[1] <= High(e[0])
            && (|e| > 2 ==> Tail(e[2])) && (|e| > 3 ==> Tail(e[3]))
  {
    Digits(c);
    if 0x800 <= c <= 0xFFFF {
      ThreeBytes(c, c / 0x1000, c / 0x40 % 0x40, c % 0x40);
    } else if c > 0xFFFF {
      FourBytes(c, c / 0x4_0000, c / 0x1000 % 0x40, c / 0x40 % 0x40, c % 0x40);
    }
  }

  /** The code point whose encoding has these bytes, if any. */
  function Weigh(e: seq<Byte>): int {
    var at := (i: nat) requires i < |e| => e[i] as int;
    if |e| == 1 then at(0)
    else if |e| == 2 then (at(0) - 0xC0) * 0x40 + (at(1) - 0x80)
    else if |e| == 3 then (at(0) - 0xE0) * 0x1000 + (at(1) - 0x80) * 0x40 + (at(2) - 0x80)
    else if |e| == 4 then (at(0) - 0xF0) * 0x4_0000 + (at(1) - 0x80) * 0x1000 + (at(2) - 0x80) * 0x40 + (at(3) - 0x80)
    else 0
  }

  lemma EncodingInverts(c: CodePoint)
    ensures Weigh(Encode1(c)) == c
  {
    Digits(c);
  }

  /** A prefix is read without output. */
  lemma {:induction false} PrefixRuns(p: seq<Byte>)
    requires Prefix(p)
    ensures Run(INITIAL, p) == (After(p), [])
  {
    if p != [] {
      var n := |p| - 1;
      var q := p[..n];
      assert p == q + [p[n]];
      PrefixRuns(q);
      RunAppend(INITIAL, q, [p[n]]);
      RunOne(After(q), p[n]);
      if q != [] { TrailStep(q, p[n]); }
    }
  }

  /** The encoding of a scalar value runs through the decoder from rest to rest. */
  lemma ScalarRuns(c: CodePoint)
    requires Scalar(c)
    ensures Run(INITIAL, Encode1(c)) == (INITIAL, [Point(c)])
  {
    var e := Encode1(c);
    if c <= 0x7F {
      RunOne(INITIAL, c);
    } else {
      LongScalarRuns(c);
    }
  }

  lemma CompleteRuns(p: seq<Byte>, b: Byte)
    requires Prefix(p) && p != [] && |p| == Needed(p[0]) && Continues(After(p), b)
    ensures exists c :: Scalar(c) && Encode1(c) == p + [b] && Run(INITIAL, p + [b]) == (INITIAL, [Point(c)])
  {
    hide Encode1, Prefix, After, Feed;
    PrefixRuns(p);
    RunAppend(INITIAL, p, [b]);
    RunOne(After(p), b);
    TrailStep(p, b);
    var c :| Scalar(c) && Encode1(c) == p + [b] && Feed(After(p), b) == (INITIAL, [Point(c)]);
    assert [] + [Point(c)] == [Point(c)];
    assert Run(INITIAL, p + [b]) == (INITIAL, [Point(c)]);
  }

  lemma AllButLast(e: seq<Byte>)
    requires 2 <= |e| <= 4 && Needed(e[0]) == |e| - 1 && 0xC2 <= e[0] <= 0xF4 && Low(e[0]) <= e[1] <= High(e[0])
    requires (|e| > 2 ==> Tail(e[2])) && (|e| > 3 ==> Tail(e[3]))
    ensures var p := e[..|e| - 1];
            e == p + [e[|e| - 1]] && Prefix(p) && p != [] && |p| == Needed(p[0]) && Continues(After(p), e[|e| - 1])
  {
  }

  lemma LongScalarRuns(c: CodePoint)
    requires Scalar(c) && c > 0x7F
    ensures Run(INITIAL, Encode1(c)) == (INITIAL, [Point(c)])
  {
    var e := Encode1(c);
    EncodingShape(c);
    AllButLast(e);
    EncodingInverts(c);
    hide Encode1, Prefix, After, Run;
    CompleteRuns(e[..|e| - 1], e[|e| - 1]);
    var c': CodePoint :| Scalar(c') && Encode1(c') == e && Run(INITIAL, e) == (INITIAL, [Point(c')]);
    EncodingInverts(c');
  }

  lemma {:induction false} ScalarsRun(cs: seq<CodePoint>)
    requires Scalars(cs)
    ensures Run(INITIAL, Encode(cs)) == (INITIAL, Points(cs))
  {
    if cs != [] {
      ScalarRuns(cs[0]);
      ScalarsRun(cs[1..]);
      RunAppend(INITIAL, Encode1(cs[0]), Encode(cs[1..]));
      assert Points(cs) == [Point(cs[0])] + Points(cs[1..]);
    }
  }

  /** Decoding the encoding of any scalar values gives them back. */
  lemma RoundTrip(cs: seq<CodePoint>)
    requires Scalars(cs)
    ensures Decode(Encode(cs)) == Points(cs)
  {
    ScalarsRun(cs);
  }

  /** The byte strings decoded without an error are exactly the encodings of scalar values. */
  lemma CleanExactlyIfEncoded(bytes: seq<Byte>)
    ensures Clean(Decode(bytes)) <==> exists cs :: Scalars(cs) && bytes == Encode(cs)
  {
    if Clean(Decode(bytes)) {
      Canonical(bytes);
      assert Scalars(Values(Decode(bytes)));
    }
    forall cs | Scalars(cs) && bytes == Encode(cs) ensures Clean(Decode(bytes)) {
      RoundTrip(cs);
    }
  }

  // ---- What malformed input yields ----

  /** Byte b may follow the proper prefix p (RFC 3629, section 4). */
  predicate MayFollow(p: seq<Byte>, b: Byte)
    requires p != []
  {
    if |p| == 1 then Low(p[0]) <= b <= High(p[0]) else Tail(b)
  }

  lemma FrontDecodes(a: seq<Byte>, out: seq<Token>, rest: seq<Byte>)
    requires Run(INITIAL, a) == (INITIAL, out)
    ensures Decode(a + rest) == out + Decode(rest)
  {
    RunAppend(INITIAL, a, rest);
    Assoc(out, Run(INITIAL, rest).1, Flush(Run(INITIAL, rest).0));
  }

  /** A scalar value in front is decoded, whatever follows. */
  lemma ScalarInFront(c: CodePoint, rest: seq<Byte>)
    requires Scalar(c)
    ensures Decode(Encode1(c) + rest) == [Point(c)] + Decode(rest)
  {
    ScalarRuns(c);
    FrontDecodes(Encode1(c), [Point(c)], rest);
  }

  /** A byte that begins nothing is one error of its own. */
  lemma StrayByte(b: Byte, rest: seq<Byte>)
    requires 0x80 <= b < 0xC2 || b > 0xF4
    ensures Decode([b] + rest) == [Bad] + Decode(rest)
  {
    RunOne(INITIAL, b);
    FrontDecodes([b], [Bad], rest);
  }

  /** A sequence broken off by a byte that may not follow is one error, and that byte is read again as a first byte. */
  lemma BrokenSequence(p: seq<Byte>, b: Byte, rest: seq<Byte>)
    requires Prefix(p) && p != [] && !MayFollow(p, b)
    ensures Decode(p + ([b] + rest)) == [Bad] + Decode([b] + rest)
  {
    PrefixRuns(p);
    RunAppend(INITIAL, p, [b] + rest);
    var again := Run(INITIAL, [b] + rest);
    assert ([b] + rest)[1..] == rest;
    var f, l := Feed(After(p), b), Lead(INITIAL, b);
    assert f == (l.0, [Bad] + l.1);
    Assoc([Bad], l.1, Run(l.0, rest).1);
    assert Run(After(p), [b] + rest) == (again.0, [Bad] + again.1);
    assert [] + ([Bad] + again.1) == [Bad] + again.1;
    Assoc([Bad], again.1, Flush(again.0));
  }

  /** A sequence cut off by the end of the stream is one error. */
  lemma CutOffSequence(p: seq<Byte>)
    requires Prefix(p) && p != []
    ensures Decode(p) == [Bad]
  {
    PrefixRuns(p);
  }

  /** How many bytes in front are a proper prefix of some encoding. */
  function FrontLength(d: seq<Byte>): (k: nat)
    ensures k <= |d| && k <= 3 && Prefix(d[..k])
  {
    if d == [] || !(0xC2 <= d[0] <= 0xF4) then 0
    else if |d| == 1 || d[0] < 0xE0 || !(Low(d[0]) <= d[1] <= High(d[0])) then 1
    else if |d| == 2 || d[0] < 0xF0 || !Tail(d[2]) then 2
    else 3
  }

  /**
   The reference: take a scalar value off the front if one stands there, else the
   longest beginning of one, or a single byte, as one error.
   */
  function Reference(d: seq<Byte>): seq<Token>
    decreases |d|
  {
    var k := FrontLength(d);
    if d == [] then []
    else if d[0] <= 0x7F then [Point(d[0])] + Reference(d[1..])
    else if k == 0 then [Bad] + Reference(d[1..])
    else if k == |d| then [Bad]
    else if k == Needed(d[0]) && MayFollow(d[..k], d[k]) then [Point(Weigh(d[..k + 1]))] + Reference(d[k + 1..])
    else [Bad] + Reference(d[k..])
  }

  lemma FrontScalar(d: seq<Byte>) returns (c: CodePoint)
    requires var k := FrontLength(d); 0 < k < |d| && k == Needed(d[0]) && MayFollow(d[..k], d[k])
    ensures Scalar(c) && Encode1(c) == d[..FrontLength(d) + 1] && Weigh(d[..FrontLength(d) + 1]) == c
  {
    var k := FrontLength(d);
    var p := d[..k];
    assert p[0] == d[0] && d[..k + 1] == p + [d[k]];
    TrailStep(p, d[k]);
    c :| Scalar(c) && Encode1(c) == p + [d[k]];
    EncodingInverts(c);
  }

  lemma FrontBroken(d: seq<Byte>)
    requires var k := FrontLength(d); 0 < k < |d| && !(k == Needed(d[0]) && MayFollow(d[..k], d[k]))
    ensures !MayFollow(d[..FrontLength(d)], d[FrontLength(d)])
  {
    assert d[..FrontLength(d)][0] == d[0];
  }

  /** For every byte sequence the decoder yields what the reference yields. */
  lemma {:induction false} DecodesAsReference(d: seq<Byte>)
    ensures Decode(d) == Reference(d)
    decreases |d|
  {
    var k := FrontLength(d);
    if d == [] {
    } else if d[0] <= 0x7F {
      assert d == Encode1(d[0]) + d[1..];
      ScalarInFront(d[0], d[1..]);
      DecodesAsReference(d[1..]);
    } else if k == 0 {
      assert d == [d[0]] + d[1..];
      StrayByte(d[0], d[1..]);
      DecodesAsReference(d[1..]);
    } else if k == |d| {
      assert d[..k] == d;
      CutOffSequence(d);
    } else if k == Needed(d[0]) && MayFollow(d[..k], d[k]) {
      var c := FrontScalar(d);
      assert d == d[..k + 1] + d[k + 1..];
      ScalarInFront(c, d[k + 1..]);
      DecodesAsReference(d[k + 1..]);
    } else {
      FrontBroken(d);
      assert d == d[..k] + ([d[k]] + d[k + 1..]) && d[k..] == [d[k]] + d[k + 1..];
      BrokenSequence(d[..k], d[k], d[k + 1..]);
      DecodesAsReference(d[k..]);
    }
  }

  /** Outside the fatal mode every error is the replacement character. */
  lemma ErrorsAreReplaced(d: seq<Byte>)
    ensures GoodTokens(Decode(d))
    ensures forall i | 0 <= i < |Decode(d)| :: Values(Decode(d))[i] == match Decode(d)[i] case Point(c) => c case Bad => 0xFFFD
  {
    ScalarsOnly(d);
  }
}
