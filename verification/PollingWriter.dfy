/**
 codecPollingWriter.Write (transport/connection.go): the sink under the
 compressor. A partial write is resumed at the exact position, and a timeout
 is let through only when the peer accepted nothing for a whole stall window.
 */
module PollingWriter {
  import opened Options
  import opened Sequences
  import opened Bytes
  import opened CodecPolling

  /** One turn of the loop: the interval in force and what conn.Write does. */
  datatype Attempt = Attempt(
    interval: int,            // wTimeout
    armError: Option<int>,    // SetWriteDeadline fails
    punctual: bool,           // conn.Write blocks exactly until the deadline armed in this turn
    elapsed: nat,             // how long it blocks otherwise
    takes: nat,               // bytes the socket accepts, at most what is offered
    error: Error,
    shut: bool)               // codecBroken, closing, or the session is closing

  predicate Refused(a: Attempt) { a.interval > 0 && a.armError.Some? }

  function Taken(a: Attempt, offered: nat): nat {
    if Refused(a) then 0 else if a.takes < offered then a.takes else offered
  }

  datatype Written = Written(result: Result, written: nat, now: int, rest: seq<Attempt>)

  /** What the loop makes of the socket's behaviour; `last` is when the peer last accepted a byte. */
  function WriteRun(stall: int, size: nat, written: nat, last: int, now: int, script: seq<Attempt>): Written
    requires written <= size
    decreases script
  {
    if written == size then Written(Done, written, now, script)
    else if script == [] then Written(Pending, written, now, [])
    else
      var a, rest := script[0], script[1..];
      if Refused(a) then Written(Surfaced(Failed(a.armError.value), a.shut), written, now, rest)
      else
        var n, later := Taken(a, size - written), now + Span(a.interval, a.punctual, a.elapsed, true, stall, last, now);
        var last' := if n > 0 then later else last;
        if a.error.Failed? || (a.error.TimedOut? && (a.shut || Stalled(true, stall, last', later)))
        then Written(Surfaced(a.error, a.shut), written + n, later, rest)
        else WriteRun(stall, size, written + n, last', later, rest)
  }

  /** A peer that takes nothing, and writes that return exactly at the deadlines the writer arms. */
  predicate Punctual(script: seq<Attempt>) {
    forall i | 0 <= i < |script| ::
      var a := script[i]; a.interval >= 1 && a.armError.None? && a.takes == 0 && a.error.TimedOut? && a.punctual
  }

  /** A peer that stopped reading is found out within a millisecond of the stall deadline, whatever wTimeout is. */
  lemma {:induction false} StallSurfaces(stall: int, size: nat, written: nat, last: int, now: int, script: seq<Attempt>)
    requires stall > 0 && written < size && Punctual(script)
    ensures var w := WriteRun(stall, size, written, last, now, script);
            && !w.result.Done? && w.written == written
            && w.now <= (if last + stall > now then last + stall else now) + MILLISECOND
            && (w.result.Pending? && script != [] ==> now < w.now < last + stall)
            && (w.result.Pending? ==> |script| <= w.now - now)
            && (w.result.Surfaced? ==> w.result.error.TimedOut?)
    decreases script
  {
    if script != [] {
      var a := script[0];
      OneWindow(a.interval, stall, last, now);
      StallSurfaces(stall, size, written, last, now + Window(a.interval, true, stall, last, now), script[1..]);
    }
  }

  /** Where the loop is: bytes written, time of the last accepted byte, clock. */
  datatype Progress = Progress(written: nat, last: int, now: int)

  function Turn(stall: int, size: nat, p: Progress, a: Attempt): (r: Progress)
    requires p.written <= size
    ensures p.written <= r.written <= size
  {
    if Refused(a) then p
    else
      var n := Taken(a, size - p.written);
      var later := p.now + Span(a.interval, a.punctual, a.elapsed, true, stall, p.last, p.now);
      Progress(p.written + n, if n > 0 then later else p.last, later)
  }

  /** Where the loop is after its first n turns. */
  function Turns(stall: int, size: nat, p: Progress, script: seq<Attempt>, n: nat): (r: Progress)
    requires p.written <= size && n <= |script|
    ensures r.written <= size
    decreases n
  {
    if n == 0 then p else Turns(stall, size, Turn(stall, size, p, script[0]), script[1..], n - 1)
  }

  /** A turn after which the writer must go on: no error, or a timeout outside shutdown and before the stall deadline. */
  predicate Absorbed(stall: int, a: Attempt, after: Progress) {
    && !Refused(a)
    && (a.error.NoError? || (a.error.TimedOut? && !a.shut && !Stalled(true, stall, after.last, after.now)))
  }

  /**
   The write ends with its last byte, or at the first turn that must not be
   absorbed, with that turn's error and that turn's view of a shutdown: real errors,
   shutdown timeouts and stalls are never absorbed, other timeouts always are.
   */
  lemma {:induction false} WriteEndsAtFirstError(stall: int, size: nat, p: Progress, script: seq<Attempt>) returns (n: nat)
    requires p.written <= size
    ensures var w := WriteRun(stall, size, p.written, p.last, p.now, script);
            && n <= |script| && w.rest == script[n..]
            && w.written == Turns(stall, size, p, script, n).written && w.now == Turns(stall, size, p, script, n).now
            && (forall i | 0 <= i < n && (!w.result.Surfaced? || i < n - 1) ::
                  Absorbed(stall, script[i], Turns(stall, size, p, script, i + 1)))
            && (w.result.Surfaced? ==> n > 0 && var a := script[n - 1];
                  && !Absorbed(stall, a, Turns(stall, size, p, script, n))
                  && w.result == Surfaced(if Refused(a) then Failed(a.armError.value) else a.error, a.shut))
            && (w.result.Done? ==> w.written == size)
            && (w.result.Pending? ==> n == |script| && w.written < size)
    decreases script
  {
    n := 0;
    if p.written < size && script != [] {
      var a, rest, q := script[0], script[1..], Turn(stall, size, p, script[0]);
      n := 1;
      if Absorbed(stall, a, q) {
        var m := WriteEndsAtFirstError(stall, size, q, rest);
        n := m + 1;
        assert script[n..] == rest[m..];
        var w := WriteRun(stall, size, p.written, p.last, p.now, script);
        forall i | 0 <= i < n && (!w.result.Surfaced? || i < n - 1)
          ensures Absorbed(stall, script[i], Turns(stall, size, p, script, i + 1))
        {
          if i > 0 {
            assert rest[i - 1] == script[i];
          }
        }
      }
    }
  }

  /** A peer that takes a byte in a turn is not given up in that turn. */
  lemma TakingIsNotStalling(stall: int, size: nat, p: Progress, a: Attempt)
    requires p.written < size && a.takes > 0 && !Refused(a) && a.error.TimedOut? && !a.shut
    ensures Absorbed(stall, a, Turn(stall, size, p, a))
  {
  }

  /** A stretch of bytes the peer accepted, and when. */
  datatype Accepted = Accepted(bytes: seq<Byte>, at: int)

  function Accepting(log: seq<Accepted>): seq<Byte> {
    if log == [] then [] else Accepting(log[..|log| - 1]) + log[|log| - 1].bytes
  }

  /** No byte was accepted after time t. */
  predicate QuietSince(log: seq<Accepted>, t: int) {
    forall i | 0 <= i < |log| && log[i].bytes != [] :: log[i].at <= t
  }

  class Socket {
    var now: int
    var deadline: int
    var script: seq<Attempt>
    var log: seq<Accepted>

    ghost predicate Valid()
      reads this
    {
      QuietSince(log, now)
    }

    /** SetWriteDeadline; a refusal uses up the turn. */
    method Arm(timeout: int) returns (refusal: Option<Attempt>)
      requires Valid() && script != []
      modifies this
      ensures Valid() && now == old(now) && log == old(log)
      ensures if old(script[0]).armError.Some?
              then refusal == Some(old(script[0])) && script == old(script[1..])
              else refusal == None && script == old(script) && deadline == now + timeout
    {
      if script[0].armError.Some? {
        refusal := Some(script[0]);
        script := script[1..];
      } else {
        refusal, deadline := None, now + timeout;
      }
    }

    /** conn.Write: takes part of p or all of it; a punctual one returns at the armed deadline. */
    method Write(p: seq<Byte>) returns (n: nat, a: Attempt)
      requires Valid() && script != [] && !Refused(script[0]) && (script[0].interval > 0 ==> now <= deadline)
      modifies this
      ensures Valid() && a == old(script[0]) && script == old(script[1..]) && n == Taken(a, |p|)
      ensures now == if a.punctual && a.interval > 0 then old(deadline) else old(now) + a.elapsed
      ensures Accepting(log) == old(Accepting(log)) + p[..n]
      ensures forall t | old(QuietSince(log, t)) && (n > 0 ==> now <= t) :: QuietSince(log, t)
    {
      a := script[0];
      script := script[1..];
      n := Taken(a, |p|);
      now := if a.punctual && a.interval > 0 then deadline else now + a.elapsed;
      ghost var before := log;
      log := log + [Accepted(p[..n], now)];
      assert log[..|log| - 1] == before;
    }
  }

  /**
   The bytes accepted during the call are exactly p[..written]; success means
   all of p; a timeout comes out only in a shutdown or after a whole stall window
   in which the peer accepted nothing.
   */
  method Write(socket: Socket, stall: int, p: seq<Byte>) returns (written: nat, r: Result)
    requires socket.Valid()
    modifies socket
    ensures socket.Valid() && written <= |p| && (r.Done? ==> written == |p|)
    ensures Accepting(socket.log) == old(Accepting(socket.log)) + p[..written]
    ensures r.Surfaced? && r.error.TimedOut? && !r.shut ==>
              stall > 0 && old(socket.now) <= socket.now - stall && QuietSince(socket.log, socket.now - stall)
    ensures r.Surfaced? ==> !r.error.NoError?
    ensures WriteRun(stall, |p|, 0, old(socket.now), old(socket.now), old(socket.script))
         == Written(r, written, socket.now, socket.script)
  {
    written := 0;
    var lastProgress := socket.now;
    assert Accepting(socket.log) + p[..0] == Accepting(socket.log);
    while written < |p|
      invariant socket.Valid() && written <= |p|
      invariant Accepting(socket.log) == old(Accepting(socket.log)) + p[..written]
      invariant old(socket.now) <= lastProgress <= socket.now && QuietSince(socket.log, lastProgress)
      invariant WriteRun(stall, |p|, written, lastProgress, socket.now, socket.script)
             == WriteRun(stall, |p|, 0, old(socket.now), old(socket.now), old(socket.script))
      decreases |socket.script|
    {
      if socket.script == [] {
        return written, Pending;
      }
      var interval := socket.script[0].interval;
      if interval > 0 {
        var timeout := interval;
        if stall > 0 {
          var remaining := stall - (socket.now - lastProgress);
          if remaining < timeout {
            timeout := if remaining > MILLISECOND then remaining else MILLISECOND;
          }
        }
        assert timeout == Window(interval, true, stall, lastProgress, socket.now);
        var refusal := socket.Arm(timeout);
        if refusal.Some? {
          return written, Surfaced(Failed(refusal.value.armError.value), refusal.value.shut);
        }
      }
      var n, a := socket.Write(p[written..]);
      TakeMore(p, written, n);
      Assoc(old(Accepting(socket.log)), p[..written], p[written..][..n]);
      written := written + n;
      if n > 0 {
        lastProgress := socket.now;
      }
      if a.error.NoError? {
        continue;
      }
      if a.error.Failed? || a.shut || Stalled(true, stall, lastProgress, socket.now) {
        return written, Surfaced(a.error, a.shut);
      }
    }
    r := Done;
  }
}
