/** What the TCP receive loop delivers does not depend on how the stream was cut. */
module TcpChunking {
  import opened Sequences
  import opened Bytes
  import opened TcpFraming

  /**
   A stream reader: its answer for a buffer already settles its answer for every
   longer one, and it delivers a package as soon as the package is complete.
   */
  ghost predicate StreamReader<P>(reader: Reader<P>) {
    && Progresses(reader)
    && (forall d, x :: reader(d).Failed? ==> reader(d + x).Failed?)
    && (forall d, x :: reader(d).Complete? ==> reader(d + x) == reader(d))
    && (forall d, x :: reader(d).Partial? && reader(d + x).Complete? ==> reader(d + x).len > |d|)
    && (forall d, x :: reader(d).Partial? && reader(d).declared > 0 && reader(d + x).Partial? ==>
          reader(d + x).declared == reader(d).declared)
    && (forall d, x :: reader(d).Partial? && reader(d).declared > 0 && reader(d + x).Complete? ==>
          reader(d + x).len == reader(d).declared)
  }

  /** Data and timeouts only: the session stays open and the peer has not hung up. */
  predicate Flowing(events: seq<Event>) {
    forall i | 0 <= i < |events| :: events[i].Data? || events[i].Timeout?
  }

  function Received(events: seq<Event>): seq<Byte> {
    if events == [] then [] else BytesOf(events[0]) + Received(events[1..])
  }

  /** What the application sees: the packages, and whether the loop gave up on the stream. */
  datatype Outcome<P> = Outcome(dispatched: seq<P>, failed: bool)

  function Seen<P>(l: Loop<P>): Outcome<P> {
    Outcome(l.dispatched, l.verdict != Serving)
  }

  /** The stream conditions for one buffer and one continuation. */
  lemma Extends<P>(reader: Reader<P>, d: seq<Byte>, x: seq<Byte>)
    requires StreamReader(reader)
    ensures Progresses(reader)
    ensures reader(d).Complete? ==> 1 <= reader(d).len <= |d| && reader(d + x) == reader(d)
    ensures reader(d).Failed? ==> reader(d + x).Failed?
    ensures reader(d).Partial? && reader(d + x).Complete? ==>
              reader(d + x).len > |d| && (reader(d).declared > 0 ==> reader(d + x).len == reader(d).declared)
    ensures reader(d).Partial? && reader(d).declared > 0 && reader(d + x).Partial? ==>
              reader(d + x).declared == reader(d).declared
  {
  }

  /** A refused buffer is refused again, with the same packages, however it is continued. */
  lemma {:induction false} RefusalIsFinal<P>(reader: Reader<P>, max: nat, d: seq<Byte>, x: seq<Byte>)
    requires StreamReader(reader) && Drain(reader, max, d).verdict != Serving
    ensures Seen(Drain(reader, max, d + x)) == Seen(Drain(reader, max, d))
    decreases |d|
  {
    Extends(reader, d, x);
    hide StreamReader, Progresses;
    if reader(d).Complete? && !Above(max, reader(d).len) {
      var n := reader(d).len;
      DropPrefix(d, x, n);
      RefusalIsFinal(reader, max, d[n..], x);
    }
  }

  lemma DrainStep<P>(reader: Reader<P>, max: nat, d: seq<Byte>)
    requires Progresses(reader) && d != [] && reader(d).Complete? && !Above(max, reader(d).len)
    ensures var rest := Drain(reader, max, d[reader(d).len..]);
            Drain(reader, max, d) == Loop([reader(d).pkg] + rest.dispatched, rest.buf, rest.verdict)
  {
  }

  lemma DrainRests<P>(reader: Reader<P>, max: nat, d: seq<Byte>)
    requires Progresses(reader) && Drain(reader, max, d).verdict == Serving
    ensures d == [] ==> Drain(reader, max, d) == Start()
    ensures d != [] && reader(d).Complete? ==> !Above(max, reader(d).len)
    ensures d != [] && !reader(d).Complete? ==> Drain(reader, max, d) == Loop([], d, Serving)
  {
  }

  /** Draining a prefix first and the rest later is draining everything at once. */
  lemma {:induction false} DrainResumes<P>(reader: Reader<P>, max: nat, d: seq<Byte>, x: seq<Byte>)
    requires StreamReader(reader) && Drain(reader, max, d).verdict == Serving
    ensures var first := Drain(reader, max, d);
            var later := Drain(reader, max, first.buf + x);
            Drain(reader, max, d + x) == Loop(first.dispatched + later.dispatched, later.buf, later.verdict)
    decreases |d|
  {
    Extends(reader, d, x);
    hide StreamReader, Progresses, Drain;
    DrainRests(reader, max, d);
    if d == [] {
      assert d + x == x && [] + x == x;
    } else if reader(d).Complete? {
      var n := reader(d).len;
      DrainStep(reader, max, d);
      DrainStep(reader, max, d + x);
      DropPrefix(d, x, n);
      DrainResumes(reader, max, d[n..], x);
      var rest := Drain(reader, max, d[n..]);
      Assoc([reader(d).pkg], rest.dispatched, Drain(reader, max, rest.buf + x).dispatched);
    }
  }

  /** The loop is where draining everything received so far would have brought it. */
  ghost predicate Matches<P>(reader: Reader<P>, max: nat, l: Loop<P>, bytes: seq<Byte>)
    requires Progresses(reader)
  {
    var all := Drain(reader, max, bytes);
    Seen(l) == Seen(all) && (all.verdict == Serving ==> l == all)
  }

  lemma ReceiveMatches<P>(reader: Reader<P>, max: nat, l: Loop<P>, sofar: seq<Byte>, e: Event)
    requires StreamReader(reader) && Matches(reader, max, l, sofar) && (e.Data? || e.Timeout?)
    ensures Matches(reader, max, Receive(reader, max, l, e), sofar + e.bytes)
  {
    hide StreamReader, Progresses, Drain;
    if e.bytes == [] {
      assert sofar + e.bytes == sofar;
    } else if l.verdict == Serving {
      DrainResumes(reader, max, sofar, e.bytes);
    } else {
      RefusalIsFinal(reader, max, sofar, e.bytes);
    }
  }

  /** The loop after any flow of chunks, against the whole stream drained at once. */
  lemma {:induction false} FlowIsOneShot<P>(reader: Reader<P>, max: nat, events: seq<Event>)
    requires StreamReader(reader) && Flowing(events)
    ensures Matches(reader, max, Serve(reader, max, Start(), events), Received(events))
  {
    assert Progresses(reader);
    hide StreamReader, Progresses;
    if events != [] {
      var n := |events| - 1;
      var es, e := events[..n], events[n];
      assert events == es + [e];
      FlowIsOneShot(reader, max, es);
      ReceiveMatches(reader, max, Serve(reader, max, Start(), es), Received(es), e);
      ServeAppend(reader, max, Start(), es, e);
      ReceivedAppend(es, e);
    }
  }

  lemma {:induction false} ReceivedAppend(es: seq<Event>, e: Event)
    ensures Received(es + [e]) == Received(es) + BytesOf(e)
  {
    if es == [] {
      assert es + [e] == [e];
    } else {
      assert (es + [e])[1..] == es[1..] + [e];
      ReceivedAppend(es[1..], e);
    }
  }

  lemma TwoChunks<P>(reader: Reader<P>, max: nat, a: seq<Byte>, b: seq<Byte>)
    requires Progresses(reader) && a != [] && b != [] && Drain(reader, max, a).verdict == Serving
    ensures Flowing([Data(a), Data(b)]) && Received([Data(a), Data(b)]) == a + b
    ensures var first := Drain(reader, max, a);
            Serve(reader, max, Start(), [Data(a), Data(b)]).dispatched
            == first.dispatched + Drain(reader, max, first.buf + b).dispatched
  {
    var es := [Data(a), Data(b)];
    assert es[1..] == [Data(b)] && [Data(b)][1..] == [];
    assert Start<P>().buf + a == a && b + [] == b;
    assert Received([Data(b)]) == b;
    var first := Drain(reader, max, a);
    assert [] + first.dispatched == first.dispatched;
    var l := Receive(reader, max, Start(), Data(a));
    assert l == first;
    assert Serve(reader, max, Start(), es) == Serve(reader, max, l, [Data(b)]);
    assert Serve(reader, max, l, [Data(b)]) == Serve(reader, max, Receive(reader, max, l, Data(b)), []);
  }

  /** Two ways of cutting the same stream give the same packages and the same verdict. */
  lemma ChunkingIndependence<P>(reader: Reader<P>, max: nat, a: seq<Event>, b: seq<Event>)
    requires StreamReader(reader) && Flowing(a) && Flowing(b) && Received(a) == Received(b)
    ensures Seen(Serve(reader, max, Start(), a)) == Seen(Serve(reader, max, Start(), b))
  {
    FlowIsOneShot(reader, max, a);
    FlowIsOneShot(reader, max, b);
  }
}
