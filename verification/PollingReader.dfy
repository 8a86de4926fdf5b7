/**
 codecPollingReader (transport/connection.go): the source under the
 decompressor. It owns the only read-ahead buffer, absorbs idle timeouts, and
 lets a timeout through when the peer fell silent in the middle of a block.
 */
module PollingReader {
  import opened Options
  import opened Sequences
  import opened Bytes
  import opened CodecPolling

  const BUFFER := 4096

  /** One turn of fill: the interval in force and what the socket does. */
  datatype Poll = Poll(
    interval: int,            // rTimeout
    armError: Option<int>,    // SetReadDeadline fails
    punctual: bool,           // conn.Read blocks exactly until the deadline armed in this turn
    elapsed: nat,             // how long it blocks otherwise
    bytes: seq<Byte>,
    error: Error,
    shut: bool)               // codecBroken or the session is closing

  datatype Filled = Filled(result: Result, bytes: seq<Byte>, now: int, rest: seq<Poll>)

  predicate Refused(p: Poll) { p.interval > 0 && p.armError.Some? }

  /** The clock after turn p. */
  function Later(p: Poll, progress: bool, stall: int, last: int, now: int): int {
    if Refused(p) then now else now + Span(p.interval, p.punctual, p.elapsed, progress, stall, last, now)
  }

  /** What fill makes of the socket's behaviour. */
  function FillRun(progress: bool, stall: int, last: int, now: int, script: seq<Poll>): Filled
    decreases script
  {
    if script == [] then Filled(Pending, [], now, [])
    else
      var p, rest, later := script[0], script[1..], Later(script[0], progress, stall, last, now);
      if Refused(p) then Filled(Surfaced(Failed(p.armError.value), p.shut), [], now, rest)
      else if p.bytes != [] then Filled(Done, p.bytes, later, rest)
      else if p.error.NoError? then FillRun(progress, stall, last, later, rest)
      else if p.error.Failed? || p.shut || Stalled(progress, stall, last, later)
      then Filled(Surfaced(p.error, p.shut), [], later, rest)
      else FillRun(progress, stall, last, later, rest)
  }

  /** Bytes come through as received, real errors keep their identity, and a timeout needs a reason. */
  lemma {:induction false} FillClassifies(progress: bool, stall: int, last: int, now: int, script: seq<Poll>)
    ensures var f := FillRun(progress, stall, last, now, script);
            && f.now >= now
            && (f.result.Done? <==> f.bytes != [])
            && (f.result.Surfaced? ==>
                  && !f.result.error.NoError?
                  && (f.result.error.TimedOut? ==> f.result.shut || Stalled(progress, stall, last, f.now)))
    decreases script
  {
    if script != [] {
      FillClassifies(progress, stall, last, Later(script[0], progress, stall, last, now), script[1..]);
    }
  }

  /** The clock after the first n turns. */
  function Clock(progress: bool, stall: int, last: int, now: int, script: seq<Poll>, n: nat): int
    requires n <= |script|
    decreases n
  {
    if n == 0 then now else Clock(progress, stall, last, Later(script[0], progress, stall, last, now), script[1..], n - 1)
  }

  /** A turn that the reader must sit out: no byte and no error, or an idle timeout. */
  predicate Idle(p: Poll, stalled: bool) {
    !Refused(p) && p.bytes == [] && (p.error.NoError? || (p.error.TimedOut? && !p.shut && !stalled))
  }

  /** What a turn that ends the fill makes of it. */
  predicate Ends(p: Poll, f: Filled, stalled: bool) {
    if Refused(p) then f.result == Surfaced(Failed(p.armError.value), p.shut)
    else if p.bytes != [] then f.result == Done && f.bytes == p.bytes
    else f.result == Surfaced(p.error, p.shut) && !Idle(p, stalled)
  }

  /**
   A fill ends at the first turn that is not idle, with that turn's bytes or
   error: shutdown wake-ups and stalls are never absorbed, idleness always is.
   */
  lemma {:induction false} FillEndsAtFirstEvent(progress: bool, stall: int, last: int, now: int, script: seq<Poll>) returns (n: nat)
    ensures var f := FillRun(progress, stall, last, now, script);
            && n <= |script| && f.rest == script[n..] && f.now == Clock(progress, stall, last, now, script, n)
            && (forall i | 0 <= i < n && (f.result.Pending? || i < n - 1) ::
                  Idle(script[i], Stalled(progress, stall, last, Clock(progress, stall, last, now, script, i + 1))))
            && (f.result.Pending? ==> n == |script|)
            && (!f.result.Pending? ==> n > 0 && Ends(script[n - 1], f, Stalled(progress, stall, last, f.now)))
    decreases script
  {
    n := 0;
    if script != [] {
      var p, rest, later := script[0], script[1..], Later(script[0], progress, stall, last, now);
      if Idle(p, Stalled(progress, stall, last, later)) {
        var m := FillEndsAtFirstEvent(progress, stall, last, later, rest);
        n := m + 1;
        assert script[n..] == rest[m..];
        var f := FillRun(progress, stall, last, now, script);
        forall i | 0 <= i < n && (f.result.Pending? || i < n - 1)
          ensures Idle(script[i], Stalled(progress, stall, last, Clock(progress, stall, last, now, script, i + 1)))
        {
          if i > 0 {
            assert rest[i - 1] == script[i];
          }
        }
      } else {
        n := 1;
      }
    }
  }

  /** All the bytes a script of turns hands over. */
  function Arriving(script: seq<Poll>): seq<Byte> {
    if script == [] then []
    else if Refused(script[0]) || script[0].bytes == [] then Arriving(script[1..])
    else script[0].bytes + Arriving(script[1..])
  }

  lemma {:induction false} FillConserves(progress: bool, stall: int, last: int, now: int, script: seq<Poll>)
    ensures var f := FillRun(progress, stall, last, now, script);
            Arriving(script) == if f.bytes == [] then Arriving(f.rest) else f.bytes + Arriving(f.rest)
    decreases script
  {
    if script != [] {
      FillConserves(progress, stall, last, Later(script[0], progress, stall, last, now), script[1..]);
    }
  }

  /** A silent socket whose reads return exactly at the deadlines the reader arms. */
  predicate Punctual(script: seq<Poll>) {
    forall i | 0 <= i < |script| ::
      var p := script[i]; p.interval >= 1 && p.armError.None? && p.bytes == [] && p.error.TimedOut? && p.punctual
  }

  /**
   Silence in the middle of a block is reported no later than a millisecond past
   the stall deadline, or past the start of the fill if that is later, whatever
   the poll intervals are; a fill still blocked has not reached the deadline.
   */
  lemma {:induction false} SilenceSurfaces(stall: int, last: int, now: int, script: seq<Poll>)
    requires stall > 0 && Punctual(script)
    ensures var f := FillRun(true, stall, last, now, script);
            && !f.result.Done?
            && f.now <= (if last + stall > now then last + stall else now) + MILLISECOND
            && (f.result.Pending? && script != [] ==> now < f.now < last + stall)
            && (f.result.Pending? ==> |script| <= f.now - now)
            && (f.result.Surfaced? ==> f.result.error.TimedOut?)
    decreases script
  {
    if script != [] {
      var p := script[0];
      OneWindow(p.interval, stall, last, now);
      SilenceSurfaces(stall, last, now + Window(p.interval, true, stall, last, now), script[1..]);
    }
  }

  predicate EndsWith(s: seq<Byte>, tail: seq<Byte>) {
    |tail| <= |s| && tail == s[|s| - |tail|..]
  }

  class Socket {
    var now: int
    var deadline: int
    var script: seq<Poll>

    predicate Valid()
      reads this
    {
      forall i | 0 <= i < |script| :: |script[i].bytes| <= BUFFER
    }

    /** SetReadDeadline; a refusal uses up the turn. */
    method Arm(timeout: int) returns (refusal: Option<Poll>)
      requires Valid() && script != []
      modifies this
      ensures Valid() && now == old(now)
      ensures if old(script[0]).armError.Some?
              then refusal == Some(old(script[0])) && script == old(script[1..])
              else refusal == None && script == old(script) && deadline == now + timeout
    {
      if script[0].armError.Some? {
        refusal := Some(script[0]);
        script := script[1..];
      } else {
        refusal, deadline := None, now + timeout;
      }
    }

    /** conn.Read: a punctual one returns at the armed deadline. */
    method Read() returns (p: Poll)
      requires Valid() && script != [] && (script[0].interval > 0 ==> now <= deadline)
      modifies this
      ensures Valid() && |p.bytes| <= BUFFER
      ensures p == old(script[0]) && script == old(script[1..])
      ensures now == if p.punctual && p.interval > 0 then old(deadline) else old(now) + p.elapsed
    {
      p := script[0];
      script := script[1..];
      now := if p.punctual && p.interval > 0 then deadline else now + p.elapsed;
    }
  }

  class Reader {
    const socket: Socket
    const stall: int
    const buf: array<Byte>
    var next: nat
    var end: nat
    var progress: bool
    var lastDelivery: int
    ghost var received: seq<Byte>      // everything the socket handed over
    ghost var delivered: seq<Byte>     // everything the decoder was given
    ghost var sinceBoundary: seq<Byte> // the part of it since the last decode boundary
    ghost var emptyReads: nat          // successful reads into an empty slice since then

    /**
     Nothing is lost, duplicated or reordered. Progress means a delivery since the
     boundary; a read into an empty slice also sets it, but needs bytes in the
     buffer, which are delivered before anything can be polled again.
     */
    ghost predicate Valid()
      reads this, buf, socket
    {
      && socket.Valid()
      && buf.Length == BUFFER && next <= end <= BUFFER
      && delivered + buf[next..end] == received
      && (progress <==> sinceBoundary != [] || emptyReads > 0)
      && (emptyReads > 0 ==> next < end || sinceBoundary != [])
      && EndsWith(delivered, sinceBoundary)
    }

    constructor (socket: Socket, stall: int)
      requires socket.Valid()
      ensures Valid() && this.socket == socket && this.stall == stall && fresh(buf)
      ensures received == [] && delivered == [] && !progress
    {
      this.socket, this.stall := socket, stall;
      buf := new Byte[BUFFER];
      next, end, progress, lastDelivery := 0, 0, false, 0;
      received, delivered, sinceBoundary, emptyReads := [], [], [], 0;
    }

    method Boundary()
      requires Valid()
      modifies this`progress, this`sinceBoundary, this`emptyReads
      ensures Valid() && !progress && sinceBoundary == [] && emptyReads == 0
    {
      progress, sinceBoundary, emptyReads := false, [], 0;
    }

    /** Keep a fresh read: the buffer was empty, so its content is exactly these bytes. */
    method Keep(bytes: seq<Byte>)
      requires Valid() && next == end && |bytes| <= BUFFER
      modifies this`next, this`end, this`received, buf
      ensures Valid() && received == old(received) + bytes && buf[next..end] == bytes
      ensures end - next == |bytes|
    {
      forall i | 0 <= i < |bytes| { buf[i] := bytes[i]; }
      next, end, received := 0, |bytes|, received + bytes;
      assert buf[0..|bytes|] == bytes;
      assert old(buf[next..end]) == [] && delivered + [] == delivered;
    }

    /** In the middle of a block a poll wakes up no later than the stall deadline. */
    method PollTimeout(interval: int) returns (timeout: int)
      ensures timeout == Window(interval, progress, stall, lastDelivery, socket.now)
    {
      timeout := interval;
      if progress && stall > 0 {
        var remaining := stall - (socket.now - lastDelivery);
        if remaining < timeout {
          timeout := if remaining > MILLISECOND then remaining else MILLISECOND;
        }
      }
    }

    method Fill() returns (r: Result)
      requires Valid() && next == end
      modifies this`next, this`end, this`received, buf, socket
      ensures Valid()
      ensures var f := FillRun(progress, stall, lastDelivery, old(socket.now), old(socket.script));
              && r == f.result && socket.now == f.now && socket.script == f.rest
              && received == old(received) + f.bytes && buf[next..end] == f.bytes
      ensures end - next == |FillRun(progress, stall, lastDelivery, old(socket.now), old(socket.script)).bytes|
    {
      hide EndsWith;
      ghost var f := FillRun(progress, stall, lastDelivery, socket.now, socket.script);
      assert received + [] == received && buf[next..end] == [];
      while socket.script != []
        invariant Valid() && next == end && received == old(received)
        invariant FillRun(progress, stall, lastDelivery, socket.now, socket.script) == f
        decreases |socket.script|
      {
        var interval := socket.script[0].interval;
        if interval > 0 {
          var timeout := PollTimeout(interval);
          var refusal := socket.Arm(timeout);
          if refusal.Some? {
            return Surfaced(Failed(refusal.value.armError.value), refusal.value.shut);
          }
        }
        var p := socket.Read();
        if p.bytes != [] {
          Keep(p.bytes);
          return Done;
        }
        if p.error.NoError? {
          continue;
        }
        if p.error.Failed? || p.shut || Stalled(progress, stall, lastDelivery, socket.now) {
          return Surfaced(p.error, p.shut);
        }
      }
      r := Pending;
    }

    /** Fill if nothing is buffered; what comes back with Done is a non-empty buffer. */
    method Refill() returns (r: Result)
      requires Valid()
      modifies this`next, this`end, this`received, buf, socket
      ensures Valid() && received + Arriving(socket.script) == old(received + Arriving(socket.script))
      ensures r.Done? <==> next < end
      ensures old(next < end) ==> r.Done? && socket.now == old(socket.now) && socket.script == old(socket.script)
      ensures r.Surfaced? && r.error.TimedOut? ==>
                r.shut || (sinceBoundary != [] && Stalled(true, stall, lastDelivery, socket.now))
      ensures r == if old(next < end) then Done
                   else FillRun(progress, stall, lastDelivery, old(socket.now), old(socket.script)).result
    {
      r := Done;
      if next == end {
        hide FillRun, Arriving;
        ghost var f := FillRun(progress, stall, lastDelivery, socket.now, socket.script);
        FillClassifies(progress, stall, lastDelivery, socket.now, socket.script);
        FillConserves(progress, stall, lastDelivery, socket.now, socket.script);
        Assoc(received, f.bytes, Arriving(f.rest));
        assert [] + Arriving(f.rest) == Arriving(f.rest);
        r := Fill();
      }
    }

    /** Hand the next n buffered bytes to the decoder. */
    method Deliver(n: nat)
      requires Valid() && next < end && next + n <= end
      modifies this`next, this`progress, this`lastDelivery, this`delivered, this`sinceBoundary, this`emptyReads
      ensures Valid() && next == old(next) + n && progress && lastDelivery == socket.now
      ensures delivered == old(delivered) + old(buf[next..end])[..n]
      ensures sinceBoundary == old(sinceBoundary) + old(buf[next..end])[..n]
      ensures emptyReads == old(emptyReads) + if n == 0 then 1 else 0
    {
      hide EndsWith;
      ghost var held := buf[next..end];
      Handed(delivered, held, n, sinceBoundary);
      delivered, sinceBoundary := delivered + held[..n], sinceBoundary + held[..n];
      next := next + n;
      assert buf[next..end] == held[n..];
      if n == 0 { emptyReads := emptyReads + 1; }
      progress, lastDelivery := true, socket.now;
    }

    /** Read: what lands in p is the next stretch of the received stream, and a timeout means a stall after a delivery, or a shutdown. */
    method Read(p: array<Byte>) returns (n: nat, r: Result)
      requires Valid() && p != buf
      modifies this, p, buf, socket
      ensures Valid() && received + Arriving(socket.script) == old(received + Arriving(socket.script))
      ensures n <= p.Length && delivered == old(delivered) + p[..n] && p[n..] == old(p[n..])
      ensures r.Done? ==> (p.Length > 0 ==> n > 0) && progress && lastDelivery == socket.now
      ensures sinceBoundary == old(sinceBoundary) + p[..n]
      ensures emptyReads == old(emptyReads) + if r.Done? && n == 0 then 1 else 0
      ensures !r.Done? ==> n == 0 && next == end && progress == old(progress) && lastDelivery == old(lastDelivery)
      ensures r.Surfaced? && r.error.TimedOut? ==>
                r.shut || (old(sinceBoundary) != [] && Stalled(true, stall, old(lastDelivery), socket.now))
      ensures r == if old(next < end) then Done
                   else FillRun(old(progress), stall, old(lastDelivery), old(socket.now), old(socket.script)).result
      ensures r.Done? ==> n == p.Length || next == end
    {
      n := 0;
      r := Refill();
      if !r.Done? {
        assert delivered + p[..0] == delivered && sinceBoundary + p[..0] == sinceBoundary;
        return;
      }
      n := if p.Length < end - next then p.Length else end - next;
      Copy(p, buf[next..end], n);
      Deliver(n);
    }

    method ReadByte() returns (b: Byte, r: Result)
      requires Valid()
      modifies this, buf, socket
      ensures Valid() && received + Arriving(socket.script) == old(received + Arriving(socket.script))
      ensures r.Done? ==> delivered == old(delivered) + [b] && sinceBoundary == old(sinceBoundary) + [b]
      ensures r.Done? ==> progress && lastDelivery == socket.now
      ensures !r.Done? ==> delivered == old(delivered) && sinceBoundary == old(sinceBoundary) && next == end
      ensures emptyReads == old(emptyReads)
      ensures !r.Done? ==> progress == old(progress) && lastDelivery == old(lastDelivery)
      ensures r.Surfaced? && r.error.TimedOut? ==>
                r.shut || (old(sinceBoundary) != [] && Stalled(true, stall, old(lastDelivery), socket.now))
      ensures r == if old(next < end) then Done
                   else FillRun(old(progress), stall, old(lastDelivery), old(socket.now), old(socket.script)).result
    {
      b := 0;
      r := Refill();
      if r.Done? {
        b := buf[next];
        assert buf[next..end][..1] == [b];
        Deliver(1);
      }
    }
  }

  /** Go's copy: the first n elements are replaced, the rest stays. */
  method Copy(p: array<Byte>, source: seq<Byte>, n: nat)
    requires n <= p.Length && n <= |source|
    modifies p
    ensures p[..n] == source[..n] && p[n..] == old(p[n..])
  {
    forall i | 0 <= i < n { p[i] := source[i]; }
  }

  lemma Handed(d: seq<Byte>, held: seq<Byte>, n: nat, tail: seq<Byte>)
    requires n <= |held| && EndsWith(d, tail)
    ensures d + held[..n] + held[n..] == d + held
    ensures EndsWith(d + held[..n], tail + held[..n])
  {
  }
}
