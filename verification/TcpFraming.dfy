/**
 The TCP receive loop, handleTCPPackage (transport/session.go): bytes arrive in
 arbitrary chunks, the application's Reader cuts packages off the front of the
 buffer, and two limits guard the declared and the unconsumed length.
 */
module TcpFraming {
  import opened Bytes

  /** What Reader.Read answers for a buffer: cases 1, 2/3 and 4 of its contract. */
  datatype Reply<P> =
    | Failed
    | Partial(declared: nat)       // no package yet; 0 when the length is unknown
    | Complete(pkg: P, len: nat)

  type Reader<!P> = seq<Byte> -> Reply<P>

  /** One result of conn.recv; an error may come together with bytes. */
  datatype Event =
    | Data(bytes: seq<Byte>)
    | Timeout(bytes: seq<Byte>)
    | Eof(bytes: seq<Byte>)
    | Fault(bytes: seq<Byte>)
    | Closed                       // IsClosed() at the top of the loop

  datatype Error = DecodeError | TooLong | IoError

  datatype Verdict = Serving | Stopped | StoppedWith(err: Error)

  /** What the loop has done so far: packages given to addTask, buffer, verdict. */
  datatype Loop<P> = Loop(dispatched: seq<P>, buf: seq<Byte>, verdict: Verdict)

  /** Readers that make progress, as case 4 of the Reader contract says. */
  ghost predicate Progresses<P>(reader: Reader<P>) {
    forall d :: reader(d).Complete? ==> 1 <= reader(d).len <= |d|
  }

  /** maxMsgLen == 0 means unlimited. */
  predicate Above(max: nat, n: nat) { max > 0 && n > max }

  /** The inner loop: cut packages until the buffer is empty, too short or refused. */
  ghost function Drain<P>(reader: Reader<P>, max: nat, buf: seq<Byte>): Loop<P>
    requires Progresses(reader)
    decreases |buf|
  {
    if buf == [] then Loop([], [], Serving)
    else
      match reader(buf)
      case Failed => Loop([], buf, StoppedWith(DecodeError))
      case Partial(k) => Loop([], buf, if Above(max, k) || Above(max, |buf|) then StoppedWith(TooLong) else Serving)
      case Complete(p, n) =>
        if Above(max, n) then Loop([], buf, StoppedWith(TooLong))
        else
          var rest := Drain(reader, max, buf[n..]);
          rest.(dispatched := [p] + rest.dispatched)
  }

  function BytesOf(e: Event): seq<Byte> {
    if e.Closed? then [] else e.bytes
  }

  /**
   One iteration of the outer loop. An error that arrives with bytes is replaced
   by the outcome of decoding those bytes.
   */
  ghost function Receive<P>(reader: Reader<P>, max: nat, l: Loop<P>, e: Event): Loop<P>
    requires Progresses(reader)
  {
    if l.verdict != Serving then l
    else if e.Closed? then l.(verdict := Stopped)
    else if e.bytes == [] then
      l.(verdict := if e.Eof? then Stopped else if e.Fault? then StoppedWith(IoError) else Serving)
    else
      var d := Drain(reader, max, l.buf + e.bytes);
      Loop(l.dispatched + d.dispatched, d.buf,
           if d.verdict == Serving && (e.Eof? || e.Fault?) then Stopped else d.verdict)
  }

  ghost function Serve<P>(reader: Reader<P>, max: nat, l: Loop<P>, events: seq<Event>): Loop<P>
    requires Progresses(reader)
    decreases |events|
  {
    if events == [] then l else Serve(reader, max, Receive(reader, max, l, events[0]), events[1..])
  }

  function Start<P>(): Loop<P> { Loop([], [], Serving) }

  lemma {:induction false} ServeAppend<P>(reader: Reader<P>, max: nat, l: Loop<P>, es: seq<Event>, e: Event)
    requires Progresses(reader)
    ensures Serve(reader, max, l, es + [e]) == Receive(reader, max, Serve(reader, max, l, es), e)
    decreases |es|
  {
    if es == [] {
      assert es + [e] == [e];
    } else {
      assert (es + [e])[1..] == es[1..] + [e];
      ServeAppend(reader, max, Receive(reader, max, l, es[0]), es[1..], e);
    }
  }

  lemma {:induction false} StoppedStays<P>(reader: Reader<P>, max: nat, l: Loop<P>, es: seq<Event>)
    requires Progresses(reader) && l.verdict != Serving
    ensures Serve(reader, max, l, es) == l
  {
    if es != [] { StoppedStays(reader, max, l, es[1..]); }
  }

  lemma PutBack<P>(d: Loop<P>, done: seq<P>, p: P)
    ensures done + ([p] + d.dispatched) == (done + [p]) + d.dispatched
  {
  }

  /**
   handleTCPPackage over the results of its reads. `exit` and `err` are the
   variables of the Go function; the loop is still serving if it did not exit.
   */
  method HandleTcpPackage<P>(reader: Reader<P>, max: nat, events: seq<Event>)
    returns (dispatched: seq<P>, exit: bool, err: Verdict, pktBuf: seq<Byte>)
    requires Progresses(reader)
    ensures Loop(dispatched, pktBuf, if exit then err else Serving) == Serve(reader, max, Start(), events)
    ensures exit <==> Serve(reader, max, Start(), events).verdict != Serving
  {
    dispatched, exit, err, pktBuf := [], false, Serving, [];
    var i := 0;
    while i < |events| && !exit
      invariant 0 <= i <= |events|
      invariant Loop(dispatched, pktBuf, if exit then err else Serving) == Serve(reader, max, Start(), events[..i])
      invariant exit ==> err != Serving
    {
      var e := events[i];
      ghost var before := Serve(reader, max, Start(), events[..i]);
      ServeAppend(reader, max, Start(), events[..i], e);
      assert events[..i + 1] == events[..i] + [e];
      i := i + 1;
      if e.Closed? {
        exit, err := true, Stopped;
      } else {
        if e.Eof? { exit, err := true, Stopped; }
        if e.Fault? { exit, err := true, StoppedWith(IoError); }
        if e.bytes != [] {
          ghost var whole := pktBuf + e.bytes;
          pktBuf := pktBuf + e.bytes;
          if exit { err := Stopped; }
          var going := true;
          while |pktBuf| > 0 && going
            invariant var d, r := Drain(reader, max, whole), Drain(reader, max, pktBuf);
                      going ==>
                        && before.dispatched + d.dispatched == dispatched + r.dispatched
                        && d.buf == r.buf && d.verdict == r.verdict
                        && (exit ==> err == Stopped) && exit == (e.Eof? || e.Fault?)
            invariant var d := Drain(reader, max, whole);
                      !going ==>
                        && dispatched == before.dispatched + d.dispatched && pktBuf == d.buf
                        && exit == (e.Eof? || e.Fault? || d.verdict != Serving)
                        && (exit ==> err == if d.verdict == Serving then Stopped else d.verdict)
            decreases |pktBuf| + if going then 1 else 0
          {
            var reply := reader(pktBuf);
            match reply {
              case Failed =>
                exit, err, going := true, StoppedWith(DecodeError), false;
              case Partial(k) =>
                if Above(max, k) || Above(max, |pktBuf|) { exit, err := true, StoppedWith(TooLong); }
                going := false;
              case Complete(p, n) =>
                if Above(max, n) {
                  exit, err, going := true, StoppedWith(TooLong), false;
                } else {
                  PutBack(Drain(reader, max, pktBuf[n..]), dispatched, p);
                  dispatched := dispatched + [p];
                  pktBuf := pktBuf[n..];
                }
            }
          }
        }
      }
    }
    assert events == events[..i] + events[i..];
    if exit {
      ServeSplit(reader, max, Start(), events[..i], events[i..]);
      StoppedStays(reader, max, Serve(reader, max, Start(), events[..i]), events[i..]);
    } else {
      assert events[..i] == events;
    }
  }

  lemma {:induction false} ServeSplit<P>(reader: Reader<P>, max: nat, l: Loop<P>, a: seq<Event>, b: seq<Event>)
    requires Progresses(reader)
    ensures Serve(reader, max, l, a + b) == Serve(reader, max, Serve(reader, max, l, a), b)
    decreases |a|
  {
    if a == [] {
      assert a + b == b;
    } else {
      assert (a + b)[1..] == a[1..] + b;
      ServeSplit(reader, max, Receive(reader, max, l, a[0]), a[1..], b);
    }
  }

  // ---- Which read errors are reported ----

  lemma {:induction false} DrainIsNoIo<P>(reader: Reader<P>, max: nat, buf: seq<Byte>)
    requires Progresses(reader)
    ensures Drain(reader, max, buf).verdict in {Serving, StoppedWith(DecodeError), StoppedWith(TooLong)}
    decreases |buf|
  {
    if buf != [] && reader(buf).Complete? {
      DrainIsNoIo(reader, max, buf[reader(buf).len..]);
    }
  }

  /** Event k is a read error without bytes that meets the loop while it serves. */
  ghost predicate BareFaultAt<P>(reader: Reader<P>, max: nat, events: seq<Event>, k: nat)
    requires Progresses(reader)
  {
    k < |events| && events[k] == Fault([]) && Serve(reader, max, Start(), events[..k]).verdict == Serving
  }

  /** The loop returns a read error exactly if one arrived without bytes while it was serving. */
  lemma {:induction false} FaultReportedExactly<P>(reader: Reader<P>, max: nat, events: seq<Event>)
    requires Progresses(reader)
    ensures Serve(reader, max, Start(), events).verdict == StoppedWith(IoError)
       <==> exists k: nat :: BareFaultAt(reader, max, events, k)
    decreases |events|
  {
    if events != [] {
      var n := |events| - 1;
      var before, e := events[..n], events[n];
      assert events == before + [e];
      FaultReportedExactly(reader, max, before);
      ServeAppend(reader, max, Start(), before, e);
      var l := Serve(reader, max, Start(), before);
      if l.verdict == Serving && BytesOf(e) != [] {
        DrainIsNoIo(reader, max, l.buf + e.bytes);
      }
      hide Serve, Drain;
      assert BareFaultAt(reader, max, events, n) <==> e == Fault([]) && l.verdict == Serving;
      forall k: nat | k < n ensures BareFaultAt(reader, max, events, k) <==> BareFaultAt(reader, max, before, k) {
        assert events[..k] == before[..k];
      }
    }
  }

  /**
   A read error that arrives with bytes on a serving loop is never the error the
   loop returns: it is lost altogether exactly if those bytes decode.
   */
  lemma FaultWithBytes<P>(reader: Reader<P>, max: nat, l: Loop<P>, bytes: seq<Byte>)
    requires Progresses(reader) && l.verdict == Serving && bytes != []
    ensures var after := Receive(reader, max, l, Fault(bytes)).verdict;
            && after != StoppedWith(IoError) && after != Serving
            && (after == Stopped <==> Drain(reader, max, l.buf + bytes).verdict == Serving)
            && after == Receive(reader, max, l, Eof(bytes)).verdict
  {
    DrainIsNoIo(reader, max, l.buf + bytes);
  }

  // ---- Which lengths are refused ----

  /** What the loop does with the buffer d that its Reader just looked at, for a limit max > 0. */
  lemma LengthsRefusedExactly<P>(reader: Reader<P>, max: nat, d: seq<Byte>)
    requires Progresses(reader) && d != [] && max > 0
    ensures var l, r := Drain(reader, max, d), reader(d);
            && (r.Failed? ==> l == Loop([], d, StoppedWith(DecodeError)))
            && (r.Partial? ==> l == Loop([], d, if r.declared > max || |d| > max then StoppedWith(TooLong) else Serving))
            && (r.Complete? && r.len > max ==> l == Loop([], d, StoppedWith(TooLong)))
            && (r.Complete? && r.len <= max ==>
                  var rest := Drain(reader, max, d[r.len..]);
                  l == Loop([r.pkg] + rest.dispatched, rest.buf, rest.verdict))
  {
  }

  /** Without a limit no length is refused. */
  lemma {:induction false} NoLimitNoRefusal<P>(reader: Reader<P>, d: seq<Byte>)
    requires Progresses(reader)
    ensures Drain(reader, 0, d).verdict != StoppedWith(TooLong)
    decreases |d|
  {
    if d != [] && reader(d).Complete? {
      NoLimitNoRefusal(reader, d[reader(d).len..]);
    }
  }

  /** A remainder at which a limit of max stops the loop. */
  ghost predicate TooLongAt<P>(reader: Reader<P>, max: nat, rest: seq<Byte>) {
    && rest != []
    && (var r := reader(rest);
        (r.Partial? && (r.declared > max || |rest| > max)) || (r.Complete? && r.len > max))
  }

  /**
   Under a limit the loop never keeps more than the limit, dispatches nothing
   longer than it, and gives up on a length exactly if the remainder it stopped at
   is too long.
   */
  lemma {:induction false} LimitKept<P>(reader: Reader<P>, max: nat, d: seq<Byte>)
    requires Progresses(reader) && max > 0
    ensures var l := Drain(reader, max, d);
            && (l.verdict == Serving ==> |l.buf| <= max)
            && (l.verdict == StoppedWith(TooLong) <==> TooLongAt(reader, max, l.buf))
            && (l.verdict == StoppedWith(DecodeError) <==> l.buf != [] && reader(l.buf).Failed?)
            && |l.buf| <= |d| && l.buf == d[|d| - |l.buf|..]
    decreases |d|
  {
    if d != [] && reader(d).Complete? && reader(d).len <= max {
      LimitKept(reader, max, d[reader(d).len..]);
      var n, b := reader(d).len, |Drain(reader, max, d).buf|;
      assert d[n..][|d| - n - b..] == d[|d| - b..];
    }
  }

  lemma ReceiveKeepsLimit<P>(reader: Reader<P>, max: nat, l: Loop<P>, e: Event)
    requires Progresses(reader) && max > 0 && (l.verdict == Serving ==> |l.buf| <= max)
    ensures var l' := Receive(reader, max, l, e); l'.verdict == Serving ==> |l'.buf| <= max
  {
    if l.verdict == Serving && BytesOf(e) != [] {
      LimitKept(reader, max, l.buf + e.bytes);
    }
  }

  /** However the bytes arrive, a session that goes on serving holds at most max unconsumed bytes. */
  lemma {:induction false} BufferBounded<P>(reader: Reader<P>, max: nat, events: seq<Event>)
    requires Progresses(reader) && max > 0
    ensures var l := Serve(reader, max, Start(), events); l.verdict == Serving ==> |l.buf| <= max
    decreases |events|
  {
    if events != [] {
      var n := |events| - 1;
      assert events == events[..n] + [events[n]];
      BufferBounded(reader, max, events[..n]);
      ServeAppend(reader, max, Start(), events[..n], events[n]);
      ReceiveKeepsLimit(reader, max, Serve(reader, max, Start(), events[..n]), events[n]);
    }
  }

  /** A serving loop that sees the session closed, the end of the stream or a read error does not read again. */
  lemma {:induction false} EndsStop<P>(reader: Reader<P>, max: nat, l: Loop<P>, events: seq<Event>)
    requires Progresses(reader) && Serve(reader, max, l, events).verdict == Serving
    ensures l.verdict == Serving && forall i | 0 <= i < |events| :: events[i].Data? || events[i].Timeout?
    decreases |events|
  {
    if events != [] {
      EndsStop(reader, max, Receive(reader, max, l, events[0]), events[1..]);
      forall i | 0 <= i < |events| ensures events[i].Data? || events[i].Timeout? {
        assert i > 0 ==> events[i] == events[1..][i - 1];
      }
    }
  }
}
