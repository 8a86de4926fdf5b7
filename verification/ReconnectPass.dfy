/**
 One reConnect() pass (transport/client.go): connect until the pool is full, with
 a bounded number of failures in a row and a growing pause between them.
 */
module ReconnectPass {
  import opened Sequences

  const DEFAULT_INTERVAL := 300_000_000   // 300 ms in nanoseconds
  const DEFAULT_ATTEMPTS := 50
  const MAX_BACKOFF := 10

  /**
   What one round of the loop meets: the client closed or the pool full at the top,
   the result of connect(), the same two questions after a failure, and a close
   that interrupts the pause.
   */
  datatype Round = Round(
    closed: bool, full: bool, connected: bool,
    closedAfter: bool, fullAfter: bool, closedInPause: bool)

  function Attempts(max: int): int { if max == 0 then DEFAULT_ATTEMPTS else max }

  function Interval(interval: int): int { if interval == 0 then DEFAULT_INTERVAL else interval }

  function Pause(interval: int, failures: int): int {
    interval * if MAX_BACKOFF < failures then MAX_BACKOFF else failures
  }

  /** What the pass did: calls of connect(), pauses, and whether it has returned. */
  datatype Report = Report(tries: nat, connects: nat, pauses: seq<int>, returned: bool)

  /** The pass over the rounds it meets, from a given number of failures in a row. */
  function Pass(max: int, interval: int, failures: int, rounds: seq<Round>): Report
    decreases |rounds|
  {
    if failures >= max then Report(0, 0, [], true)
    else if rounds == [] then Report(0, 0, [], false)
    else
      var r := rounds[0];
      if r.closed || r.full then Report(0, 0, [], true)
      else if r.connected then
        var rest := Pass(max, interval, 0, rounds[1..]);
        rest.(tries := rest.tries + 1, connects := rest.connects + 1)
      else if r.closedAfter || r.fullAfter || failures + 1 >= max then Report(1, 0, [], true)
      else if r.closedInPause then Report(1, 0, [Pause(interval, failures + 1)], true)
      else
        var rest := Pass(max, interval, failures + 1, rounds[1..]);
        rest.(tries := rest.tries + 1, pauses := [Pause(interval, failures + 1)] + rest.pauses)
  }

  /** client.reConnect. */
  method ReConnect(maxAttempts: int, interval: int, rounds: seq<Round>)
    returns (tries: nat, connects: nat, pauses: seq<int>, returned: bool)
    ensures Report(tries, connects, pauses, returned) == Pass(Attempts(maxAttempts), Interval(interval), 0, rounds)
  {
    var max, pause := maxAttempts, interval;
    if pause == 0 { pause := DEFAULT_INTERVAL; }
    if max == 0 { max := DEFAULT_ATTEMPTS; }
    hide Pause, Pass;
    var failures, i := 0, 0;
    assert rounds[0..] == rounds;
    tries, connects, pauses, returned := 0, 0, [], false;
    while failures < max && i < |rounds|
      invariant 0 <= i <= |rounds|
      invariant var rest := Pass(max, pause, failures, rounds[i..]);
                Pass(max, pause, 0, rounds)
                == Report(tries + rest.tries, connects + rest.connects, pauses + rest.pauses, rest.returned)
      invariant !returned
      decreases |rounds| - i
    {
      var r := rounds[i];
      ghost var rest := rounds[i..];
      assert rest[1..] == rounds[i + 1..];
      PassHere(max, pause, failures, rest);
      i := i + 1;
      if r.closed || r.full {
        assert pauses + [] == pauses;
        return tries, connects, pauses, true;
      }
      tries := tries + 1;
      if r.connected {
        connects := connects + 1;
        failures := 0;
        continue;
      }
      failures := failures + 1;
      if r.closedAfter || r.fullAfter || failures >= max {
        assert pauses + [] == pauses;
        return tries, connects, pauses, true;
      }
      Assoc(pauses, [Pause(pause, failures)], Pass(max, pause, failures, rest[1..]).pauses);
      pauses := pauses + [Pause(pause, failures)];
      if r.closedInPause {
        return tries, connects, pauses, true;
      }
    }
    assert pauses + [] == pauses;
    PassEnds(max, pause, failures, rounds[i..]);
    returned := failures >= max;
  }

  /** One round of Pass. */
  lemma PassHere(max: int, interval: int, failures: int, rounds: seq<Round>)
    requires failures < max && rounds != []
    ensures var p, r := Pass(max, interval, failures, rounds), rounds[0];
            && (r.closed || r.full ==> p == Report(0, 0, [], true))
            && (!r.closed && !r.full && r.connected ==>
                  var rest := Pass(max, interval, 0, rounds[1..]);
                  p == Report(rest.tries + 1, rest.connects + 1, rest.pauses, rest.returned))
            && (!r.closed && !r.full && !r.connected ==>
                  if r.closedAfter || r.fullAfter || failures + 1 >= max then p == Report(1, 0, [], true)
                  else if r.closedInPause then p == Report(1, 0, [Pause(interval, failures + 1)], true)
                  else var rest := Pass(max, interval, failures + 1, rounds[1..]);
                       p == Report(rest.tries + 1, rest.connects, [Pause(interval, failures + 1)] + rest.pauses, rest.returned))
  {
  }

  lemma PassEnds(max: int, interval: int, failures: int, rounds: seq<Round>)
    requires failures >= max || rounds == []
    ensures Pass(max, interval, failures, rounds) == Report(0, 0, [], failures >= max)
  {
  }

  lemma {:induction false} BoundedFrom(max: int, interval: int, failures: int, rounds: seq<Round>)
    requires 0 <= failures
    ensures var p := Pass(max, interval, failures, rounds);
            p.tries + failures <= (p.connects + 1) * max || (p.tries == 0 && failures >= max)
    decreases |rounds|
  {
    if failures < max && rounds != [] {
      var r := rounds[0];
      if !r.closed && !r.full {
        if r.connected {
          BoundedFrom(max, interval, 0, rounds[1..]);
          var p := Pass(max, interval, 0, rounds[1..]);
          assert (p.connects + 1 + 1) * max == (p.connects + 1) * max + max;
        } else {
          BoundedFrom(max, interval, failures + 1, rounds[1..]);
        }
      }
    }
  }

  /** S successful connects allow at most (S + 1) * max attempts, whatever happens. */
  lemma BoundedPass(max: int, interval: int, rounds: seq<Round>)
    requires max >= 0
    ensures var p := Pass(max, interval, 0, rounds); p.tries <= (p.connects + 1) * max
  {
    BoundedFrom(max, interval, 0, rounds);
  }

  predicate Hopeless(r: Round) {
    !r.closed && !r.full && !r.connected && !r.closedAfter && !r.fullAfter && !r.closedInPause
  }

  /** The pauses after failures f, f+1, ..., max-1: none follows the last attempt. */
  function Ladder(interval: int, f: int, max: int): seq<int>
    decreases max - f
  {
    if f >= max then [] else [Pause(interval, f)] + Ladder(interval, f + 1, max)
  }

  lemma {:induction false} HopelessFrom(max: int, interval: int, failures: int, rounds: seq<Round>)
    requires 0 <= failures < max && |rounds| >= max - failures
    requires forall i | 0 <= i < |rounds| :: Hopeless(rounds[i])
    ensures Pass(max, interval, failures, rounds) == Report(max - failures, 0, Ladder(interval, failures + 1, max), true)
    decreases max - failures
  {
    hide Pause;
    assert Hopeless(rounds[0]);
    if failures + 1 < max {
      HopelessFrom(max, interval, failures + 1, rounds[1..]);
    }
  }

  /** If nothing ever succeeds, exactly max attempts are made and the i-th is followed by its pause. */
  lemma HopelessPass(max: int, interval: int, rounds: seq<Round>)
    requires 1 <= max <= |rounds|
    requires forall i | 0 <= i < |rounds| :: Hopeless(rounds[i])
    ensures Pass(max, interval, 0, rounds) == Report(max, 0, Ladder(interval, 1, max), true)
    ensures |Ladder(interval, 1, max)| == max - 1
    ensures forall j | 0 <= j < max - 1 :: Ladder(interval, 1, max)[j] == Pause(interval, j + 1)
  {
    hide Pause;
    HopelessFrom(max, interval, 0, rounds);
    LadderAt(interval, 1, max);
  }

  lemma {:induction false} LadderAt(interval: int, f: int, max: int)
    requires f <= max
    ensures |Ladder(interval, f, max)| == max - f
    ensures forall j | 0 <= j < max - f :: Ladder(interval, f, max)[j] == Pause(interval, f + j)
    decreases max - f
  {
    hide Pause;
    if f < max {
      LadderAt(interval, f + 1, max);
      forall j | 0 < j < max - f ensures Ladder(interval, f, max)[j] == Pause(interval, f + j) {
        assert Ladder(interval, f, max)[j] == Ladder(interval, f + 1, max)[j - 1];
      }
    }
  }

  function Total(s: seq<int>): int { if s == [] then 0 else s[0] + Total(s[1..]) }

  lemma {:induction false} TopOfLadder(interval: int, f: int, max: int)
    requires MAX_BACKOFF <= f <= max
    ensures Total(Ladder(interval, f, max)) == interval * (10 * (max - f))
    decreases max - f
  {
    if f < max {
      TopOfLadder(interval, f + 1, max);
      LadderTotal(interval, f, max);
      assert interval * (10 * (max - f - 1)) + interval * 10 == interval * (10 * (max - f));
    }
  }

  lemma LadderTotal(interval: int, f: int, max: int)
    requires f < max
    ensures Total(Ladder(interval, f, max)) == Pause(interval, f) + Total(Ladder(interval, f + 1, max))
  {
    assert ([Pause(interval, f)] + Ladder(interval, f + 1, max))[1..] == Ladder(interval, f + 1, max);
  }

  lemma Factor(interval: int, n: int)
    ensures interval * 45 + interval * (10 * n) == interval * (55 + 10 * (n - 1))
  {
  }

  /** A hopeless pass of at least 11 attempts pauses for interval * (55 + 10 * (max - 11)). */
  lemma TotalPause(interval: int, max: int)
    requires max >= 11
    ensures Total(Ladder(interval, 1, max)) == interval * (55 + 10 * (max - 11))
  {
    LadderTotal(interval, 1, max);
    LadderTotal(interval, 2, max);
    LadderTotal(interval, 3, max);
    LadderTotal(interval, 4, max);
    LadderTotal(interval, 5, max);
    LadderTotal(interval, 6, max);
    LadderTotal(interval, 7, max);
    LadderTotal(interval, 8, max);
    LadderTotal(interval, 9, max);
    TopOfLadder(interval, 10, max);
    Factor(interval, max - 10);
  }

  // ---- The bound is attained, and when a pass gives up ----

  const FAILURE := Round(false, false, false, false, false, false)
  const SUCCESS := Round(false, false, true, false, false, false)

  function Failures(k: nat): seq<Round> { if k == 0 then [] else [FAILURE] + Failures(k - 1) }

  lemma {:induction false} FailuresThen(max: int, interval: int, f: int, k: nat, rest: seq<Round>)
    requires 0 <= f && f + k < max
    ensures var p, q := Pass(max, interval, f, Failures(k) + rest), Pass(max, interval, f + k, rest);
            p.tries == k + q.tries && p.connects == q.connects && p.returned == q.returned
    decreases k
  {
    if k == 0 {
      assert Failures(k) + rest == rest;
    } else {
      assert (Failures(k) + rest)[1..] == Failures(k - 1) + rest;
      FailuresThen(max, interval, f + 1, k - 1, rest);
    }
  }

  /** The worst client: every success comes after one failure less than the limit. */
  function Worst(max: int, successes: nat): seq<Round>
    requires max >= 1
  {
    if successes == 0 then Failures(max) else Failures(max - 1) + ([SUCCESS] + Worst(max, successes - 1))
  }

  /** The bound of BoundedPass is exact: each success restores the whole budget of failures. */
  lemma {:induction false} BoundAttained(max: int, interval: int, successes: nat)
    requires max >= 1
    ensures var p := Pass(max, interval, 0, Worst(max, successes));
            p.connects == successes && p.tries == (successes + 1) * max && p.returned
    decreases successes
  {
    if successes == 0 {
      assert Failures(max) == Failures(max - 1) + [FAILURE] by { FailuresEnd(max - 1); }
      FailuresThen(max, interval, 0, max - 1, [FAILURE]);
    } else {
      var rest := [SUCCESS] + Worst(max, successes - 1);
      assert rest[1..] == Worst(max, successes - 1);
      FailuresThen(max, interval, 0, max - 1, rest);
      BoundAttained(max, interval, successes - 1);
      OneBlock(max, successes);
    }
  }

  lemma OneBlock(max: int, successes: nat)
    requires successes > 0
    ensures successes * max + max == (successes + 1) * max && (successes - 1 + 1) * max == successes * max
  {
  }

  lemma {:induction false} FailuresEnd(k: nat)
    ensures Failures(k + 1) == Failures(k) + [FAILURE]
  {
    if k > 0 {
      FailuresEnd(k - 1);
    }
  }

  /** The client stays open and the pool never fills up while the pass looks. */
  predicate Undisturbed(rounds: seq<Round>) {
    forall i | 0 <= i < |rounds| ::
      var r := rounds[i]; !r.closed && !r.full && !r.closedAfter && !r.fullAfter && !r.closedInPause
  }

  /** n failures in a row from round k on. */
  predicate Streak(rounds: seq<Round>, k: int, n: int) {
    0 <= k && k + n <= |rounds| && forall i | k <= i < k + n :: !rounds[i].connected
  }

  ghost predicate HasStreak(rounds: seq<Round>, n: int) { exists k :: Streak(rounds, k, n) }

  lemma StreakShift(rounds: seq<Round>, n: int)
    requires rounds != [] && n >= 1
    ensures HasStreak(rounds, n) <==> Streak(rounds, 0, n) || HasStreak(rounds[1..], n)
  {
    if HasStreak(rounds, n) {
      var k :| Streak(rounds, k, n);
      if k > 0 {
        assert Streak(rounds[1..], k - 1, n);
      }
    }
    if HasStreak(rounds[1..], n) {
      var k :| Streak(rounds[1..], k, n);
      forall i | k + 1 <= i < k + 1 + n ensures !rounds[i].connected {
        assert rounds[1..][i - 1] == rounds[i];
      }
      assert Streak(rounds, k + 1, n);
    }
  }

  lemma StreakFront(rounds: seq<Round>, n: int)
    requires rounds != [] && n >= 1
    ensures Streak(rounds, 0, n) <==> !rounds[0].connected && Streak(rounds[1..], 0, n - 1)
  {
    if !rounds[0].connected && Streak(rounds[1..], 0, n - 1) {
      forall i | 0 <= i < n ensures !rounds[i].connected {
        assert i > 0 ==> rounds[1..][i - 1] == rounds[i];
      }
    }
  }

  lemma {:induction false} GivesUpFrom(max: int, interval: int, f: int, rounds: seq<Round>)
    requires 0 <= f < max && Undisturbed(rounds)
    ensures Pass(max, interval, f, rounds).returned <==> Streak(rounds, 0, max - f) || HasStreak(rounds, max)
    decreases |rounds|
  {
    if rounds != [] {
      hide HasStreak, Streak;
      StreakFront(rounds, max - f);
      StreakFront(rounds, max);
      StreakShift(rounds, max);
      EmptyStreak(rounds[1..]);
      if rounds[0].connected {
        GivesUpFrom(max, interval, 0, rounds[1..]);
        Weaken(rounds[1..], max, max);
      } else if f + 1 < max {
        GivesUpFrom(max, interval, f + 1, rounds[1..]);
        Weaken(rounds[1..], max - 1, max - f - 1);
      }
    }
  }

  lemma EmptyStreak(rounds: seq<Round>)
    ensures Streak(rounds, 0, 0)
  {
  }

  lemma Weaken(rounds: seq<Round>, n: int, m: int)
    requires 0 <= m <= n
    ensures Streak(rounds, 0, n) ==> Streak(rounds, 0, m) && HasStreak(rounds, n)
  {
  }

  /** Left alone, a pass gives up exactly when it meets max failures in a row, wherever they begin. */
  lemma GivesUpExactly(max: int, interval: int, rounds: seq<Round>)
    requires max >= 1 && Undisturbed(rounds)
    ensures Pass(max, interval, 0, rounds).returned <==> HasStreak(rounds, max)
  {
    GivesUpFrom(max, interval, 0, rounds);
    Weaken(rounds, max, max);
  }

  // ---- What a pass looks at ----

  /**
   A pass ends at the first round that finds the client closed or the pool full:
   before that round's connect if it was so at the top, after it and without a
   further pause if it was so after a failure, and at a close during the pause.
   */
  lemma {:induction false} PassStopsAt(max: int, interval: int, f: int, rounds: seq<Round>, k: nat)
    requires 0 <= f && k < |rounds|
    ensures var p, r := Pass(max, interval, f, rounds), rounds[k];
            && (r.closed || r.full ==> p.returned && p.tries <= k && |p.pauses| <= k)
            && (!r.connected && (r.closedAfter || r.fullAfter) ==> p.returned && p.tries <= k + 1 && |p.pauses| <= k)
            && (!r.connected && r.closedInPause ==> p.returned && p.tries <= k + 1 && |p.pauses| <= k + 1)
    decreases |rounds|
  {
    if f < max && !rounds[0].closed && !rounds[0].full && k > 0 {
      assert rounds[k] == rounds[1..][k - 1];
      if rounds[0].connected {
        PassStopsAt(max, interval, 0, rounds[1..], k - 1);
      } else {
        PassStopsAt(max, interval, f + 1, rounds[1..], k - 1);
      }
    }
  }

  /** A round that stops nothing: the pass goes on to the next one, counting its outcome. */
  predicate GoesOn(r: Round) {
    !r.closed && !r.full && (r.connected || (!r.closedAfter && !r.fullAfter && !r.closedInPause))
  }

  /** In the rounds before that a pass connects exactly as often as it dials successfully. */
  lemma {:induction false} PassDials(max: int, interval: int, f: int, rounds: seq<Round>)
    requires 0 <= f && !Pass(max, interval, f, rounds).returned
    ensures var p := Pass(max, interval, f, rounds);
            p.tries == |rounds| && p.connects == Successes(rounds) && |p.pauses| == |rounds| - Successes(rounds)
    decreases |rounds|
  {
    if rounds != [] {
      PassDials(max, interval, if rounds[0].connected then 0 else f + 1, rounds[1..]);
    }
  }

  function Successes(rounds: seq<Round>): nat {
    if rounds == [] then 0 else Successes(rounds[1..]) + if rounds[0].connected then 1 else 0
  }

  /** A pass that is still going has met only rounds that let it go on. */
  lemma {:induction false} StillGoing(max: int, interval: int, f: int, rounds: seq<Round>, k: nat)
    requires 0 <= f && k < |rounds| && !Pass(max, interval, f, rounds).returned
    ensures GoesOn(rounds[k])
  {
    PassStopsAt(max, interval, f, rounds, k);
  }

  /** Zero means the default: 50 attempts, 300 ms. */
  lemma Defaults(max: int, interval: int)
    ensures Attempts(max) == (if max == 0 then 50 else max)
    ensures Interval(interval) == if interval == 0 then 300 * 1_000_000 else interval
  {
  }
}
