/**
 The echo reader under the TCP receive loop.

 A package whose length byte exceeds what its header announced takes body bytes
 of the packages behind it, as far as they have arrived. So the echo reader is
 not a stream reader in general; `Tight` says for which streams it behaves like
 one, and well-formed packages always do.
 */
module EchoStream {
  import opened Sequences
  import opened Bytes
  import opened TcpFraming
  import opened TcpChunking
  import opened EchoCodec

  lemma EchoReaderProgresses()
    ensures Progresses(Read)
  {
    forall d | Read(d).Complete? ensures 1 <= Read(d).len <= |d| {
      ReadProgresses(d);
    }
  }

  /** The echo server's receive loop on one buffer, and on a whole flow of reads. */
  ghost function EchoDrain(max: nat, d: seq<Byte>): Loop<Package> {
    EchoReaderProgresses();
    Drain(Read, max, d)
  }

  ghost function EchoServe(max: nat, events: seq<Event>): Loop<Package> {
    EchoReaderProgresses();
    Serve(Read, max, Start(), events)
  }

  lemma EchoStep(max: nat, d: seq<Byte>)
    requires Read(d).Complete? && !Above(max, Read(d).len)
    ensures 33 <= Read(d).len <= |d|
    ensures var rest := EchoDrain(max, d[Read(d).len..]);
            EchoDrain(max, d) == Loop([Read(d).pkg] + rest.dispatched, rest.buf, rest.verdict)
  {
    ReadProgresses(d);
    EchoReaderProgresses();
    DrainStep(Read, max, d);
  }

  lemma EchoEmpty(max: nat)
    ensures EchoDrain(max, []) == Start()
  {
  }

  /** The reader that never looks behind the announced frame. */
  function Strict(d: seq<Byte>): Reply<Package> {
    match Read(d)
    case Complete(p, n) => Complete(Package(p.h, d[33..33 + Min(d[HEADER_LEN], n - 33)]), n)
    case r => r
  }

  lemma SameHeader(d: seq<Byte>, x: seq<Byte>)
    requires |d| >= HEADER_LEN
    ensures DecodeHeader(d + x) == DecodeHeader(d)
  {
    var w := d + x;
    assert w[0..4] == d[0..4] && w[4..8] == d[4..8] && w[8..12] == d[8..12] && w[12..16] == d[12..16];
    assert w[16..20] == d[16..20] && w[20..24] == d[20..24] && w[24..26] == d[24..26];
  }

  lemma StrictExtends(d: seq<Byte>, x: seq<Byte>)
    ensures Strict(d).Complete? ==> 1 <= Strict(d).len <= |d| && Strict(d + x) == Strict(d)
    ensures Strict(d).Failed? ==> Strict(d + x).Failed?
    ensures Strict(d).Partial? ==> Strict(d).declared == 0
    ensures Strict(d).Partial? && Strict(d + x).Complete? ==> Strict(d + x).len > |d|
  {
    if |d| >= HEADER_LEN {
      SameHeader(d, x);
      if Strict(d).Complete? {
        var n, l := Strict(d).len, Min(d[HEADER_LEN], Strict(d).len - 33);
        assert (d + x)[33..33 + l] == d[33..33 + l];
      }
    }
  }

  lemma StrictIsStreamReader()
    ensures StreamReader(Strict)
  {
    forall d, x
      ensures Strict(d).Complete? ==> 1 <= Strict(d).len <= |d| && Strict(d + x) == Strict(d)
      ensures Strict(d).Failed? ==> Strict(d + x).Failed?
      ensures Strict(d).Partial? ==> Strict(d).declared == 0
      ensures Strict(d).Partial? && Strict(d + x).Complete? ==> Strict(d + x).len > |d|
    {
      StrictExtends(d, x);
    }
    assert Progresses(Strict) by {
      forall d | Strict(d).Complete? ensures 1 <= Strict(d).len <= |d| { StrictExtends(d, []); }
    }
  }

  /** No frame that the loop accepts reaches into bytes that follow it. */
  predicate Tight(max: nat, d: seq<Byte>)
    decreases |d|
  {
    Read(d).Complete? && !Above(max, Read(d).len) ==>
      var n := Read(d).len;
      && (|d| == n || d[HEADER_LEN] <= n - 33)
      && (ReadProgresses(d); Tight(max, d[n..]))
  }

  /** On a tight stream the two readers cut the same packages off every prefix. */
  lemma {:induction false} FramesAgree(max: nat, d: seq<Byte>, x: seq<Byte>)
    requires Progresses(Read) && Progresses(Strict) && Tight(max, d + x)
    ensures Drain(Read, max, d) == Drain(Strict, max, d)
    ensures Drain(Read, max, d).verdict == Serving ==> Tight(max, Drain(Read, max, d).buf + x)
    decreases |d|
  {
    if d != [] && Read(d).Complete? {
      var n := Read(d).len;
      FrameAgrees(d, x);
      if !Above(max, n) {
        DropPrefix(d, x, n);
        FramesAgree(max, d[n..], x);
      }
    }
  }

  lemma FrameAgrees(d: seq<Byte>, x: seq<Byte>)
    requires Read(d).Complete?
    ensures Read(d + x).Complete? && 33 <= Read(d + x).len == Read(d).len <= |d|
    ensures (d + x)[HEADER_LEN] == d[HEADER_LEN]
    ensures |d + x| == Read(d).len || d[HEADER_LEN] <= Read(d).len - 33 ==> Read(d) == Strict(d)
  {
    SameHeader(d, x);
  }

  lemma {:induction false} ServeAgrees(max: nat, l: Loop<Package>, events: seq<Event>)
    requires Progresses(Read) && Progresses(Strict) && Flowing(events)
    requires l.verdict == Serving ==> Tight(max, l.buf + Received(events))
    ensures Serve(Read, max, l, events) == Serve(Strict, max, l, events)
    decreases |events|
  {
    if events != [] {
      var e, rest := events[0], events[1..];
      if l.verdict == Serving {
        Assoc(l.buf, e.bytes, Received(rest));
        FramesAgree(max, l.buf + e.bytes, Received(rest));
        if e.bytes == [] { assert l.buf + e.bytes == l.buf; }
      }
      assert Receive(Read, max, l, e) == Receive(Strict, max, l, e);
      ServeAgrees(max, Receive(Read, max, l, e), rest);
    }
  }

  lemma TightStreamsAreChunkable(max: nat, es: seq<Event>)
    requires Flowing(es) && Tight(max, Received(es))
    ensures Seen(EchoServe(max, es)) == Seen(EchoDrain(max, Received(es)))
  {
    EchoReaderProgresses();
    StrictIsStreamReader();
    var data := Received(es);
    assert Start<Package>().buf + data == data;
    ServeAgrees(max, Start(), es);
    FlowIsOneShot(Strict, max, es);
    assert data + [] == data;
    FramesAgree(max, data, []);
  }

  /** The cut part was served completely, but its j-th package is a different one. */
  predicate Differ(cut: Loop<Package>, all: Loop<Package>, j: nat) {
    && cut.verdict == Serving && cut.buf == []
    && j < |cut.dispatched| && j < |all.dispatched| && cut.dispatched[j] != all.dispatched[j]
  }

  ghost predicate CutShows(max: nat, d: seq<Byte>, k: nat, j: nat) {
    0 < k < |d| && Differ(EchoDrain(max, d[..k]), EchoDrain(max, d), j)
  }

  lemma CutAtLooseFrame(max: nat, d: seq<Byte>)
    requires Read(d).Complete? && !Above(max, Read(d).len)
    requires |d| != Read(d).len && d[HEADER_LEN] > Read(d).len - 33
    ensures CutShows(max, d, Read(d).len, 0)
  {
    var n := Read(d).len;
    EchoStep(max, d);
    ReadPrefix(d, n);
    EchoStep(max, d[..n]);
    DropOfTake(d, n, 0);
    EchoEmpty(max);
    hide Read, EchoDrain;
  }

  lemma CutLater(max: nat, d: seq<Byte>, k: nat, j: nat)
    requires Read(d).Complete? && !Above(max, Read(d).len)
    requires Read(d).len <= |d| && CutShows(max, d[Read(d).len..], k, j)
    requires d[HEADER_LEN] <= Read(d).len - 33
    ensures CutShows(max, d, Read(d).len + k, j + 1)
  {
    var n := Read(d).len;
    hide EchoDrain, Differ;
    EchoStep(max, d);
    ReadPrefix(d, n + k);
    EchoStep(max, d[..n + k]);
    DropOfTake(d, n, k);
    hide Read;
    StillDiffers(Read(d).pkg, EchoDrain(max, d[n..][..k]), EchoDrain(max, d[n..]), j);
  }

  lemma StillDiffers(p: Package, cut: Loop<Package>, all: Loop<Package>, j: nat)
    requires Differ(cut, all, j)
    ensures Differ(Loop([p] + cut.dispatched, cut.buf, cut.verdict), Loop([p] + all.dispatched, all.buf, all.verdict), j + 1)
  {
  }

  lemma LooseSplits(max: nat, d: seq<Byte>)
    requires !Tight(max, d)
    ensures Read(d).Complete? && !Above(max, Read(d).len) && 33 <= Read(d).len <= |d|
    ensures || (|d| != Read(d).len && d[HEADER_LEN] > Read(d).len - 33)
            || (d[HEADER_LEN] <= Read(d).len - 33 && !Tight(max, d[Read(d).len..]))
  {
    ReadProgresses(d);
    EmptyIsTight(max, d, Read(d).len);
  }

  lemma EmptyIsTight(max: nat, d: seq<Byte>, n: nat)
    requires n <= |d|
    ensures n == |d| ==> d[n..] == [] && Tight(max, d[n..])
  {
  }

  /**
   Where an accepted frame reaches into bytes behind it, cutting the stream
   right after that frame changes a package.
   */
  lemma {:induction false} LooseFrame(max: nat, d: seq<Byte>)
    requires !Tight(max, d)
    ensures exists k: nat, j: nat :: CutShows(max, d, k, j)
    decreases |d|
  {
    hide Read, Tight, CutShows;
    LooseSplits(max, d);
    var n := Read(d).len;
    if |d| != n && d[HEADER_LEN] > n - 33 {
      CutAtLooseFrame(max, d);
    } else {
      LooseFrame(max, d[n..]);
      var k: nat, j: nat :| CutShows(max, d[n..], k, j);
      CutLater(max, d, k, j);
    }
  }

  lemma ReadPrefix(d: seq<Byte>, k: nat)
    requires Read(d).Complete? && Read(d).len <= k <= |d|
    ensures Read(d[..k]).Complete? && Read(d[..k]).len == Read(d).len
    ensures |Read(d[..k]).pkg.b| == Min(d[HEADER_LEN], k - 33) && |Read(d).pkg.b| == Min(d[HEADER_LEN], |d| - 33)
    ensures d[HEADER_LEN] <= k - 33 ==> Read(d[..k]) == Read(d)
  {
    ReadProgresses(d);
    assert d == d[..k] + d[k..];
    SameHeader(d[..k], d[k..]);
    if d[HEADER_LEN] <= k - 33 {
      assert d[..k][33..33 + d[HEADER_LEN]] == d[33..33 + d[HEADER_LEN]];
    }
  }

  lemma LooseStreamsAreNot(max: nat, d: seq<Byte>) returns (es: seq<Event>)
    requires !Tight(max, d)
    ensures Flowing(es) && Received(es) == d
    ensures Seen(EchoServe(max, es)) != Seen(EchoDrain(max, d))
  {
    LooseFrame(max, d);
    var k: nat, j: nat :| CutShows(max, d, k, j);
    var a, b := d[..k], d[k..];
    es := [Data(a), Data(b)];
    assert d == a + b;
    EchoReaderProgresses();
    TwoChunks(Read, max, a, b);
    hide Read, Drain, Serve, Received, Tight;
  }

  /**
   The echo server answers independently of the network's chunking on exactly
   the tight streams.
   */
  lemma ChunkableExactlyIfTight(max: nat, data: seq<Byte>)
    ensures (forall es | Flowing(es) && Received(es) == data :: Seen(EchoServe(max, es)) == Seen(EchoDrain(max, data)))
            <==> Tight(max, data)
  {
    hide EchoServe, EchoDrain, Tight, Received, Flowing;
    if Tight(max, data) {
      forall es | Flowing(es) && Received(es) == data
        ensures Seen(EchoServe(max, es)) == Seen(EchoDrain(max, data))
      {
        TightStreamsAreChunkable(max, es);
      }
    } else {
      var es := LooseStreamsAreNot(max, data);
    }
  }

  /** A concrete loose stream: announced length 1, length byte 5, one more byte on the wire. */
  lemma LooseExample()
    ensures var d := EncodeHeader(Header(MAGIC, 0, 0, 0, 1, 0, 1)) + [5, 7];
            !Tight(0, d) && Read(d).Complete? && Read(d[..33]).Complete? && Read(d).pkg.b == [7] && Read(d[..33]).pkg.b == []
  {
    var h := Header(MAGIC, 0, 0, 0, 1, 0, 1);
    var d := EncodeHeader(h) + [5, 7];
    HeaderRoundTrip(h, [5, 7]);
    HeaderRoundTrip(h, [5]);
    assert d[..33] == EncodeHeader(h) + [5];
  }

  // ---- End to end ----

  function EncodeAll(ps: seq<Package>): seq<Byte> {
    if ps == [] then [] else Encode(ps[0]) + EncodeAll(ps[1..])
  }

  predicate Sendable(max: nat, ps: seq<Package>) {
    forall i | 0 <= i < |ps| :: WellFormed(ps[i]) && !Above(max, |Encode(ps[i])|)
  }

  lemma {:induction false} SentPackages(max: nat, ps: seq<Package>)
    requires Sendable(max, ps)
    ensures EchoDrain(max, EncodeAll(ps)) == Loop(ps, [], Serving)
    ensures Tight(max, EncodeAll(ps))
  {
    hide EchoDrain, Tight, Encode;
    if ps == [] {
      EchoEmpty(max);
      EmptyIsTight(max, [], 0);
    } else {
      SentPackages(max, ps[1..]);
      assert ps == [ps[0]] + ps[1..];
      FirstSent(max, ps[0], ps[1..], EncodeAll(ps[1..]));
    }
  }

  lemma FirstSent(max: nat, p: Package, ps: seq<Package>, rest: seq<Byte>)
    requires WellFormed(p) && !Above(max, |Encode(p)|)
    requires EchoDrain(max, rest) == Loop(ps, [], Serving) && Tight(max, rest)
    ensures EchoDrain(max, Encode(p) + rest) == Loop([p] + ps, [], Serving)
    ensures Tight(max, Encode(p) + rest)
  {
    FirstFrame(p, rest);
    hide Read, EchoDrain, Encode;
    EchoStep(max, Encode(p) + rest);
  }

  lemma FirstFrame(p: Package, rest: seq<Byte>)
    requires WellFormed(p)
    ensures var d := Encode(p) + rest;
            && d[|Encode(p)|..] == rest && |Encode(p)| == 33 + |p.b|
            && d[HEADER_LEN] == |p.b| && Read(d) == Complete(p, |Encode(p)|)
  {
    FrontRoundTrip(p, rest);
    Layout(p, rest);
    hide Encode, Read;
  }

  /**
   Marshal any list of well-formed packages within the limit, let the network cut
   the bytes anywhere and interrupt with timeouts: the loop dispatches that list.
   */
  lemma EchoEndToEnd(max: nat, ps: seq<Package>, es: seq<Event>)
    requires Sendable(max, ps) && Flowing(es) && Received(es) == EncodeAll(ps)
    ensures Seen(EchoServe(max, es)) == Outcome(ps, false)
  {
    SentPackages(max, ps);
    TightStreamsAreChunkable(max, es);
  }

  lemma OneFault(max: nat, bytes: seq<Byte>)
    requires bytes != [] && EchoDrain(max, bytes).verdict == Serving
    ensures EchoServe(max, [Fault(bytes)]) == EchoDrain(max, bytes).(verdict := Stopped)
  {
    EchoReaderProgresses();
    var e := Fault(bytes);
    assert [e][1..] == [] && Start<Package>().buf + bytes == bytes;
    assert Serve(Read, max, Start(), [e]) == Receive(Read, max, Start(), e);
    hide Drain, Read;
    assert [] + EchoDrain(max, bytes).dispatched == EchoDrain(max, bytes).dispatched;
  }

  lemma OnePackage(max: nat, p: Package)
    requires Sendable(max, [p])
    ensures EncodeAll([p]) == Encode(p) && Encode(p) != []
    ensures EchoDrain(max, Encode(p)) == Loop([p], [], Serving)
  {
    Layout(p, []);
    assert Encode(p) + [] == Encode(p) && [p][1..] == [];
    hide Encode, EchoDrain;
    SentPackages(max, [p]);
  }

  /** The connection fails together with a last whole package: it is dispatched, and the error is lost. */
  lemma FaultLostWith(max: nat, p: Package)
    requires Sendable(max, [p])
    ensures EchoServe(max, [Fault(Encode(p))]) == Loop([p], [], Stopped)
  {
    hide EchoServe, EchoDrain, Encode;
    OnePackage(max, p);
    OneFault(max, Encode(p));
  }

  /** A lost read error, at one input. */
  lemma FaultLost()
    ensures var p := Package(Header(MAGIC, 0, 0, 0, 1, 0, 2), [7]);
            EchoServe(0, [Fault(Encode(p))]) == Loop([p], [], Stopped)
  {
    hide EchoServe, Encode;
    FaultLostWith(0, Package(Header(MAGIC, 0, 0, 0, 1, 0, 2), [7]));
  }
}
