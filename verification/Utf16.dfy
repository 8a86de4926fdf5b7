/** JavaScript strings as UTF-16 code units (encoding.js, stringToCodePoints and codePointsToString). */
module Utf16 {
  import opened Sequences
  import opened Bytes
  import opened Utf8

  predicate HighSurrogate(u: Uint16) { 0xD800 <= u <= 0xDBFF }

  predicate LowSurrogate(u: Uint16) { 0xDC00 <= u <= 0xDFFF }

  predicate StartsPair(s: seq<Uint16>) {
    |s| >= 2 && HighSurrogate(s[0]) && LowSurrogate(s[1])
  }

  /** 2^16 + 2^10 * (a & 0x3FF) + (b & 0x3FF). */
  function PairPoint(a: Uint16, b: Uint16): CodePoint {
    0x1_0000 + (a as int % 0x400) * 0x400 + b as int % 0x400
  }

  /** A lone surrogate becomes U+FFFD. */
  function FromUtf16(s: seq<Uint16>): seq<CodePoint> {
    if s == [] then []
    else if StartsPair(s) then [PairPoint(s[0], s[1])] + FromUtf16(s[2..])
    else if HighSurrogate(s[0]) || LowSurrogate(s[0]) then [REPLACEMENT] + FromUtf16(s[1..])
    else [s[0] as int] + FromUtf16(s[1..])
  }

  function Units(c: CodePoint): seq<Uint16> {
    if c <= 0xFFFF then [c]
    else [(c - 0x1_0000) / 0x400 + 0xD800, (c - 0x1_0000) % 0x400 + 0xDC00]
  }

  function ToUtf16(cs: seq<CodePoint>): seq<Uint16> {
    if cs == [] then [] else Units(cs[0]) + ToUtf16(cs[1..])
  }

  lemma {:induction false} ToUtf16Append(a: seq<CodePoint>, b: seq<CodePoint>)
    ensures ToUtf16(a + b) == ToUtf16(a) + ToUtf16(b)
  {
    if a == [] {
      assert a + b == b;
    } else {
      assert (a + b)[1..] == a[1..] + b;
      ToUtf16Append(a[1..], b);
      Assoc(Units(a[0]), ToUtf16(a[1..]), ToUtf16(b));
    }
  }

  /** stringToCodePoints. */
  method StringToCodePoints(s: seq<Uint16>) returns (u: seq<CodePoint>)
    ensures u == FromUtf16(s)
  {
    u := [];
    var n, i := |s|, 0;
    while i < n
      invariant 0 <= i <= n
      invariant u + FromUtf16(s[i..]) == FromUtf16(s)
    {
      var c := s[i];
      ghost var rest := s[i..];
      assert rest[1..] == s[i + 1..];
      if c < 0xD800 || c > 0xDFFF {
        Assoc(u, [c as int], FromUtf16(rest[1..]));
        u := u + [c];
      } else if 0xDC00 <= c {
        Assoc(u, [REPLACEMENT], FromUtf16(rest[1..]));
        u := u + [REPLACEMENT];
      } else if i == n - 1 {
        Assoc(u, [REPLACEMENT], FromUtf16(rest[1..]));
        u := u + [REPLACEMENT];
      } else {
        var d := s[i + 1];
        if 0xDC00 <= d <= 0xDFFF {
          assert rest[2..] == s[i + 2..];
          Assoc(u, [PairPoint(c, d)], FromUtf16(rest[2..]));
          u := u + [PairPoint(c, d)];
          i := i + 1;
        } else {
          Assoc(u, [REPLACEMENT], FromUtf16(rest[1..]));
          u := u + [REPLACEMENT];
        }
      }
      i := i + 1;
    }
    assert s[n..] == [];
  }

  /** codePointsToString. */
  method CodePointsToString(cs: seq<CodePoint>) returns (s: seq<Uint16>)
    ensures s == ToUtf16(cs)
  {
    s := [];
    for i := 0 to |cs|
      invariant s == ToUtf16(cs[..i])
    {
      var c := cs[i];
      assert cs[..i + 1] == cs[..i] + [c];
      ToUtf16Append(cs[..i], [c]);
      assert [c][1..] == [];
      if c <= 0xFFFF {
        s := s + [c];
      } else {
        s := s + [(c - 0x1_0000) / 0x400 + 0xD800, (c - 0x1_0000) % 0x400 + 0xDC00];
      }
    }
    assert cs[..|cs|] == cs;
  }

  lemma {:induction false} FromUtf16Scalars(s: seq<Uint16>)
    ensures Scalars(FromUtf16(s))
  {
    if s != [] {
      FromUtf16Scalars(s[1..]);
      if StartsPair(s) { FromUtf16Scalars(s[2..]); }
    }
  }

  lemma PairRoundTrip(c: CodePoint)
    requires c > 0xFFFF
    ensures var u := Units(c);
            StartsPair(u) && PairPoint(u[0], u[1]) == c
  {
    var x := c - 0x1_0000;
    assert x == x / 0x400 * 0x400 + x % 0x400;
    assert (x / 0x400 + 0xD800) % 0x400 == x / 0x400;
    assert (x % 0x400 + 0xDC00) % 0x400 == x % 0x400;
  }

  /** Scalar values survive the way through a JavaScript string. */
  lemma {:induction false} Utf16RoundTrip(cs: seq<CodePoint>)
    requires Scalars(cs)
    ensures FromUtf16(ToUtf16(cs)) == cs
  {
    if cs != [] {
      Utf16RoundTrip(cs[1..]);
      var u, rest := Units(cs[0]), ToUtf16(cs[1..]);
      assert ToUtf16(cs) == u + rest;
      assert (u + rest)[|u|..] == rest;
      if cs[0] > 0xFFFF { PairRoundTrip(cs[0]); }
      assert cs == [cs[0]] + cs[1..];
    }
  }

  /** Every surrogate stands in a pair. */
  predicate Paired(s: seq<Uint16>) {
    if s == [] then true
    else if StartsPair(s) then Paired(s[2..])
    else !HighSurrogate(s[0]) && !LowSurrogate(s[0]) && Paired(s[1..])
  }

  lemma PairUnits(a: Uint16, b: Uint16)
    requires HighSurrogate(a) && LowSurrogate(b)
    ensures Units(PairPoint(a, b)) == [a, b]
  {
    assert a % 0x400 == a - 0xD800;
    assert b % 0x400 == b - 0xDC00;
  }

  /** The first one or two units of a string, and the rest. */
  lemma UnitsFront(s: seq<Uint16>)
    requires s != []
    ensures var front := if StartsPair(s) then 2 else 1;
            ToUtf16(FromUtf16(s)) ==
              (if StartsPair(s) then s[..2] else if HighSurrogate(s[0]) || LowSurrogate(s[0]) then [0xFFFD] else s[..1])
              + ToUtf16(FromUtf16(s[front..]))
  {
    if StartsPair(s) {
      PairUnits(s[0], s[1]);
      assert ([PairPoint(s[0], s[1])] + FromUtf16(s[2..]))[1..] == FromUtf16(s[2..]);
    } else {
      assert FromUtf16(s)[1..] == FromUtf16(s[1..]);
    }
  }

  lemma SameHalves(a: seq<Uint16>, b: seq<Uint16>, s: seq<Uint16>, k: nat)
    requires k <= |s| && |a| == k
    ensures a + b == s <==> a == s[..k] && b == s[k..]
  {
    assert s == s[..k] + s[k..];
    assert (a + b)[..k] == a && (a + b)[k..] == b;
  }

  /** A string is preserved exactly if it has no lone surrogate; its length always is. */
  lemma {:induction false} StringPreservedExactly(s: seq<Uint16>)
    ensures |ToUtf16(FromUtf16(s))| == |s|
    ensures ToUtf16(FromUtf16(s)) == s <==> Paired(s)
  {
    if s != [] {
      var k := if StartsPair(s) then 2 else 1;
      StringPreservedExactly(s[k..]);
      UnitsFront(s);
      var a := if k == 2 then s[..2] else if HighSurrogate(s[0]) || LowSurrogate(s[0]) then [0xFFFD] else s[..1];
      hide ToUtf16, FromUtf16;
      SameHalves(a, ToUtf16(FromUtf16(s[k..])), s, k);
    }
  }

  /** A surrogate without its partner. */
  predicate Lone(s: seq<Uint16>, i: nat)
    requires i < |s|
  {
    || (HighSurrogate(s[i]) && !(i + 1 < |s| && LowSurrogate(s[i + 1])))
    || (LowSurrogate(s[i]) && !(i > 0 && HighSurrogate(s[i - 1])))
  }

  lemma {:induction false} UnitsSurvive(s: seq<Uint16>, i: nat)
    requires i < |s| && !(LowSurrogate(s[0]) && i == 0)
    ensures |ToUtf16(FromUtf16(s))| == |s|
    ensures ToUtf16(FromUtf16(s))[i] == if Lone(s, i) then 0xFFFD else s[i]
    decreases |s|
  {
    StringPreservedExactly(s);
    var front := if StartsPair(s) then 2 else 1;
    UnitsFront(s);
    if i >= front {
      var rest := s[front..];
      StringPreservedExactly(rest);
      assert s[i] == rest[i - front] && (i + 1 < |s| ==> s[i + 1] == rest[i + 1 - front]);
      if i == front && LowSurrogate(rest[0]) {
        LoneInFront(rest);
      } else {
        UnitsSurvive(rest, i - front);
      }
    }
  }

  lemma LoneInFront(s: seq<Uint16>)
    requires s != [] && LowSurrogate(s[0])
    ensures ToUtf16(FromUtf16(s)) != [] && ToUtf16(FromUtf16(s))[0] == 0xFFFD
  {
    UnitsFront(s);
  }

  /** Through code points and back every unit stays, except that a surrogate without its partner becomes U+FFFD. */
  lemma UnitsExactly(s: seq<Uint16>, i: nat)
    requires i < |s|
    ensures |ToUtf16(FromUtf16(s))| == |s|
    ensures ToUtf16(FromUtf16(s))[i] == if Lone(s, i) then 0xFFFD else s[i]
  {
    StringPreservedExactly(s);
    if i == 0 && LowSurrogate(s[0]) {
      LoneInFront(s);
    } else {
      UnitsSurvive(s, i);
    }
  }
}
