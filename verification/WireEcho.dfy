/** Concurrent writers of a session and the receive loop of its peer, for echo packages. */
module WireEcho {
  import opened Sequences
  import opened TcpFraming
  import opened TcpChunking
  import opened EchoCodec
  import opened EchoStream
  import W = WireOrder

  lemma {:induction false} EncodeAllJoin(a: seq<Package>, b: seq<Package>)
    ensures EncodeAll(a + b) == EncodeAll(a) + EncodeAll(b)
  {
    if a == [] {
      assert a + b == b;
    } else {
      assert (a + b)[1..] == a[1..] + b;
      EncodeAllJoin(a[1..], b);
      Assoc(Encode(a[0]), EncodeAll(a[1..]), EncodeAll(b));
    }
  }

  predicate Within(order: seq<nat>, n: nat) { forall i | 0 <= i < |order| :: order[i] < n }

  /** The packages of the calls, in the given order of calls. */
  function InOrder(pkgs: seq<seq<Package>>, order: seq<nat>): seq<Package>
    requires Within(order, |pkgs|)
  {
    if order == [] then []
    else InOrder(pkgs, order[..|order| - 1]) + pkgs[order[|order| - 1]]
  }

  /** Every call has returned without an error, and call t wrote the packages pkgs[t]. */
  predicate AllWritten(s: W.State, pkgs: seq<seq<Package>>) {
    && |pkgs| == |s.threads|
    && forall t | 0 <= t < |s.threads| ::
         s.threads[t].pc.Returned? && s.threads[t].pc.ok && W.Payload(s.threads[t].call) == EncodeAll(pkgs[t])
  }

  lemma OwnIsPayload(s: W.State, pkgs: seq<seq<Package>>, t: nat)
    requires W.Inv(s) && AllWritten(s, pkgs) && t < |s.threads|
    ensures W.Own(s.wire, t) == EncodeAll(pkgs[t])
  {
    assert W.SentOK(s, t);
  }

  lemma SameCount(s: W.State, pkgs: seq<seq<Package>>)
    requires AllWritten(s, pkgs)
    ensures |pkgs| == |s.threads|
  {
  }

  lemma NothingOrdered(s: W.State, pkgs: seq<seq<Package>>)
    ensures Concat(W.Owns(s.wire, [])) == EncodeAll(InOrder(pkgs, []))
  {
  }

  lemma {:induction false} OrderedPayloads(s: W.State, pkgs: seq<seq<Package>>, order: seq<nat>)
    requires W.Inv(s) && AllWritten(s, pkgs) && Within(order, |pkgs|)
    ensures Concat(W.Owns(s.wire, order)) == EncodeAll(InOrder(pkgs, order))
    decreases |order|
  {
    if order == [] {
      NothingOrdered(s, pkgs);
    } else {
      var before, t := order[..|order| - 1], order[|order| - 1];
      hide W.Inv, AllWritten, W.Own, EncodeAll, Concat;
      OrderedPayloads(s, pkgs, before);
      assert |pkgs| == |s.threads| by { SameCount(s, pkgs); }
      OwnIsPayload(s, pkgs, t);
      EncodeAllJoin(InOrder(pkgs, before), pkgs[t]);
      W.ConcatLast(W.Owns(s.wire, before), W.Own(s.wire, t));
    }
  }

  lemma {:induction false} OrderedSendable(max: nat, pkgs: seq<seq<Package>>, order: seq<nat>)
    requires Within(order, |pkgs|) && forall t | 0 <= t < |pkgs| :: Sendable(max, pkgs[t])
    ensures Sendable(max, InOrder(pkgs, order))
    decreases |order|
  {
    if order != [] {
      OrderedSendable(max, pkgs, order[..|order| - 1]);
    }
  }

  /** A call with packages has put something on the wire. */
  lemma WritersAreOrdered(s: W.State, pkgs: seq<seq<Package>>, t: nat)
    requires W.Inv(s) && AllWritten(s, pkgs) && t < |s.threads| && pkgs[t] != []
    ensures W.Touches(s.wire, t)
  {
    OwnIsPayload(s, pkgs, t);
    Layout(pkgs[t][0], []);
    assert Encode(pkgs[t][0]) + [] == Encode(pkgs[t][0]);
    if !W.Touches(s.wire, t) {
      assert forall i | 0 <= i < |s.wire| :: s.wire[i].t != t;
      W.NoneOf(s.wire, t);
    }
  }

  /**
   Any number of goroutines write well-formed packages at once, through any of the
   write entry points, and succeed; the network cuts the stream anywhere. The
   peer dispatches every call's packages exactly once, those of one call together
   and in order, the calls in the order of their blocks on the wire.
   */
  lemma ConcurrentWritesArrive(tr: seq<W.State>, steps: seq<W.Step>, i: nat, pkgs: seq<seq<Package>>, max: nat, es: seq<Event>)
    requires W.Behaviour(tr, steps) && i < |tr| && AllWritten(tr[i], pkgs)
    requires forall t | 0 <= t < |pkgs| :: Sendable(max, pkgs[t])
    requires Flowing(es) && Received(es) == W.Stream(tr[i].wire)
    ensures var order := W.Order(tr[i].wire);
            && W.OrderOK(tr[i].wire, order)
            && Within(order, |pkgs|)
            && (forall t | 0 <= t < |pkgs| && pkgs[t] != [] :: t in order)
            && Seen(EchoServe(max, es)) == Outcome(InOrder(pkgs, order), false)
  {
    var s, order := tr[i], W.Order(tr[i].wire);
    W.Reachable(tr, steps, i);
    W.StreamIsCalls(tr, steps, i);
    SameCount(s, pkgs);
    WithinOrder(order, |pkgs|);
    hide *;
    OrderedPayloads(s, pkgs, order);
    OrderedSendable(max, pkgs, order);
    EchoEndToEnd(max, InOrder(pkgs, order), es);
    forall t | 0 <= t < |pkgs| && pkgs[t] != [] ensures t in order {
      WritersAreOrdered(s, pkgs, t);
      TouchersAreOrdered(s.wire, order, t);
    }
  }

  lemma WithinOrder(order: seq<nat>, n: nat)
    requires forall t | t in order :: t < n
    ensures Within(order, n)
  {
    forall i | 0 <= i < |order| ensures order[i] < n {
      assert order[i] in order;
    }
  }

  lemma TouchersAreOrdered(wire: seq<W.Piece>, order: seq<nat>, t: nat)
    requires W.OrderOK(wire, order) && W.Touches(wire, t)
    ensures t in order
  {
  }
}
