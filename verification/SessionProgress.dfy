/**
 Progress of the session machine: packetLock is a lock, the waits of stop(),
 reset() and the writers never form a cycle, and every reset is answered.
 */
module SessionProgress {
  import opened Sequences
  import opened SessionState
  import opened SessionInvariant
  import opened SessionTheorems
  import opened SessionResults
  import opened SessionRank

  // ---- packetLock ----

  /** An exclusive holder of packetLock is the only holder. */
  predicate PacketsOK(ts: seq<Pc>) {
    forall t, u | 0 <= t < |ts| && 0 <= u < |ts| && t != u && HoldsExclusively(ts[t]) :: !HoldsPackets(ts[u])
  }

  lemma ExclusiveHolds(pc: Pc)
    ensures HoldsExclusively(pc) ==> HoldsPackets(pc)
  {
  }

  lemma PacketsMove(s: State, s': State, t: nat)
    requires PacketsOK(s.threads) && Moved(s, s', t) && Down(s, s', t)
    ensures PacketsOK(s'.threads)
  {
    var ts := s'.threads;
    hide PcRank, HoldsPackets, HoldsExclusively;
    forall u, v | 0 <= u < |ts| && 0 <= v < |ts| && u != v && HoldsExclusively(ts[u]) ensures !HoldsPackets(ts[v]) {
      ExclusiveHolds(ts[u]);
      assert u < |s.threads| && (v < |s.threads| || !HoldsPackets(ts[v]));
    }
  }

  lemma PacketsSpawn(ts: seq<Pc>, pc: Pc)
    requires PacketsOK(ts) && !HoldsPackets(pc)
    ensures PacketsOK(ts + [pc])
  {
  }

  lemma PacketsKept(s: State, step: Step)
    requires Inv(s) && Enabled(s, step) && PacketsOK(s.threads)
    ensures PacketsOK(Apply(s, step).threads)
  {
    if Inner(step) {
      InnerDown(s, step);
      PacketsMove(s, Apply(s, step), step.t);
    } else {
      hide Inv, ApplyGo, ApplyFail, CanGo, CanFail;
      if |Apply(s, step).threads| > |s.threads| {
        hide PacketsOK;
        PacketsSpawn(s.threads, Apply(s, step).threads[|s.threads|]);
      }
    }
  }

  lemma {:induction false} PacketsReachable(tr: seq<State>, steps: seq<Step>, i: nat)
    requires Behaviour(tr, steps) && i < |tr|
    ensures PacketsOK(tr[i].threads)
  {
    if i > 0 {
      PacketsReachable(tr, steps, i - 1);
      Reachable(tr, steps, i - 1);
      PacketsKept(tr[i - 1], steps[i - 1]);
    }
  }

  /** While the worker clears the fields, no write of any entry point is inside its write section. */
  lemma ClearExcludesWrites(tr: seq<State>, steps: seq<Step>, i: nat, t: nat)
    requires Behaviour(tr, steps) && i < |tr| && t < |tr[i].threads| && tr[i].threads[t] == Worker(Clear)
    ensures forall u | 0 <= u < |tr[i].threads| :: tr[i].threads[u].Raw? ==> !tr[i].threads[u].raw.Sending?
  {
    PacketsReachable(tr, steps, i);
    forall u | 0 <= u < |tr[i].threads| && u != t ensures !HoldsPackets(tr[i].threads[u]) {
      assert HoldsExclusively(tr[i].threads[t]);
    }
  }

  // ---- No deadlock ----

  /** Goroutine t can take its next step, or is a run() on a session without Connection, which panics. */
  predicate Moves(s: State, t: nat)
    requires |s.gens| > 0 && t < |s.threads|
  {
    CanGo(s, t) || s.threads[t] == Run(Check)
  }

  ghost predicate SomeoneMoves(s: State)
    requires |s.gens| > 0
  {
    exists t: nat :: t < |s.threads| && Moves(s, t)
  }

  /** Whoever waits in once.Do waits for a goroutine that can move. */
  lemma OwnerMoves(tr: seq<State>, steps: seq<Step>, i: nat, g: nat)
    requires Behaviour(tr, steps) && i < |tr| && g < |tr[i].gens| && tr[i].gens[g].once.Running?
    ensures SomeoneMoves(tr[i])
  {
    Reachable(tr, steps, i);
    OwnerInBody(tr[i], g);
    var o := tr[i].gens[g].once.owner;
    hide Inv, CanGo;
    assert Moves(tr[i], o) by {
      if !CanGo(tr[i], o) {
        OnlyIntendedWaits(tr, steps, i, o);
      }
    }
  }

  lemma PacketHolderMoves(s: State, exclusive: bool) returns (u: nat)
    requires |s.gens| > 0 && !PacketLockFree(s.threads, exclusive)
    ensures u < |s.threads| && HoldsPackets(s.threads[u]) && Moves(s, u)
  {
    u :| 0 <= u < |s.threads| && (HoldsPackets(s.threads[u]) || HoldsExclusively(s.threads[u]));
    ExclusiveHolds(s.threads[u]);
  }

  /** A goroutine that holds a unit of a wait group moves, or waits for one that does. */
  lemma HolderMoves(tr: seq<State>, steps: seq<Step>, i: nat, h: nat, r: Resource)
    requires Behaviour(tr, steps) && i < |tr| && |tr[i].gens| > 0 && h < |tr[i].threads| && Units(tr[i].threads[h], r) > 0
    ensures SomeoneMoves(tr[i])
  {
    var s := tr[i];
    if Moves(s, h) {
    } else {
      OnlyIntendedWaits(tr, steps, i, h);
      hide CanGo, PacketLockFree;
      if s.threads[h].Stop? {
        OwnerMoves(tr, steps, i, s.threads[h].g);
      } else {
        var u := PacketHolderMoves(s, s.threads[h].exclusive);
      }
    }
  }

  /**
   In every reachable state some goroutine can move, unless all have returned.
   This rests on reset() waiting for the lifecycle before it locks packetLock:
   a writer may wait for packetLock while it holds a unit of the lifecycle.
   */
  lemma NoDeadlock(tr: seq<State>, steps: seq<Step>, i: nat, t: nat)
    requires Behaviour(tr, steps) && i < |tr| && t < |tr[i].threads| && !tr[i].threads[t].Exited?
    ensures |tr[i].gens| > 0 && SomeoneMoves(tr[i])
  {
    Reachable(tr, steps, i);
    Positive(tr[i]);
    var s := tr[i];
    if Moves(s, t) {
    } else {
      OnlyIntendedWaits(tr, steps, i, t);
      assert Counts(s);
      hide Inv, CanGo, PacketLockFree, Total;
      var pc := s.threads[t];
      if pc.Stop? {
        OwnerMoves(tr, steps, i, pc.g);
      } else if pc.Raw? {
        var u := PacketHolderMoves(s, pc.exclusive);
      } else if pc.w.LockPackets? {
        var u := PacketHolderMoves(s, true);
      } else {
        var r := if pc.w.WaitGr? then Gr else Lc(Now(s));
        var h := TotalPositive(s.threads, UnitsOf(r));
        HolderMoves(tr, steps, i, h, r);
      }
    }
  }

  /** When nothing moves any more, every channel handed out by ResetAsync has its one value and is closed. */
  lemma QuiescentAnswered(tr: seq<State>, steps: seq<Step>, i: nat, id: nat)
    requires Behaviour(tr, steps) && i < |tr| && id < |tr[i].chans| && |tr[i].gens| > 0 && !SomeoneMoves(tr[i])
    ensures |tr[i].chans[id].sent| == 1 && tr[i].chans[id].closed
  {
    hide SomeoneMoves;
    forall t | 0 <= t < |tr[i].threads| ensures !IsWorker(tr[i].threads[t]) {
      if !tr[i].threads[t].Exited? {
        NoDeadlock(tr, steps, i, t);
      }
    }
    SingleWorker(tr, steps, i);
    RequestsConserved(tr, steps, i, id);
  }

  // ---- Every run without new calls ends ----

  lemma TotalMoved(s: State, s': State, t: nat, w: Pc -> nat)
    requires Moved(s, s', t)
    ensures var spawn := s'.threads[|s.threads|..];
            Total(s'.threads, w) == Total(s.threads, w) - w(s.threads[t]) + w(s'.threads[t])
                                    + if spawn == [] then 0 else w(spawn[0])
  {
    hide Total;
    var kept, spawn := s.threads[t := s'.threads[t]], s'.threads[|s.threads|..];
    TotalUpdate(s.threads, t, s'.threads[t], w);
    if spawn == [] {
      assert s'.threads == kept;
    } else {
      assert spawn == [spawn[0]];
      TotalAppend(kept, spawn[0], w);
    }
  }

  /** Every step of a goroutine, also along an error path or into a nested call, lowers the rank of the session. */
  lemma StepLowersRank(s: State, step: Step)
    requires Inv(s) && Enabled(s, step) && Inner(step)
    ensures |Apply(s, step).gens| > 0 && Rank(Apply(s, step)) < Rank(s)
  {
    InnerDown(s, step);
    hide Inv, Apply, Enabled, Total, PcRank, Unforked;
    TotalMoved(s, Apply(s, step), step.t, RankOf(s.limit));
  }

  lemma {:induction false} InnerRunsEnd(tr: seq<State>, steps: seq<Step>, i: nat, j: nat)
    requires Behaviour(tr, steps) && i <= j < |tr| && forall k | i <= k < j :: Inner(steps[k])
    ensures |tr[i].gens| > 0 && |tr[j].gens| > 0 && j - i + Rank(tr[j]) <= Rank(tr[i])
    decreases j - i
  {
    Reachable(tr, steps, i);
    Positive(tr[i]);
    if i < j {
      hide Inv, Apply, Rank;
      StepLowersRank(tr[i], steps[i]);
      InnerRunsEnd(tr, steps, i + 1, j);
    }
  }

  lemma {:induction false} ChansGrow(tr: seq<State>, steps: seq<Step>, i: nat, j: nat)
    requires Behaviour(tr, steps) && i <= j < |tr|
    ensures |tr[i].chans| <= |tr[j].chans|
    decreases j - i
  {
    if i < j {
      Reachable(tr, steps, i);
      if |tr[i].chans| > 0 {
        StepChans(tr[i], steps[i], |tr[i].chans| - 1);
      }
      hide Inv, Apply;
      ChansGrow(tr, steps, i + 1, j);
    }
  }

  /**
   Without new calls, timers and reads every reset request is answered: whatever
   order the goroutines take, they take at most Rank steps, and as long as one of
   them has not returned some goroutine can move; when none is left the channel
   has received exactly one value and is closed.
   */
  lemma EveryRequestAnswered(tr: seq<State>, steps: seq<Step>, i: nat, id: nat)
    requires Behaviour(tr, steps) && i < |tr| && id < |tr[i].chans|
    requires forall k | i <= k < |steps| :: Inner(steps[k])
    ensures |tr[i].gens| > 0 && |steps| - i <= Rank(tr[i])
    ensures var s := tr[|steps|];
            && |s.gens| > 0 && id < |s.chans|
            && (SomeoneMoves(s) || (|s.chans[id].sent| == 1 && s.chans[id].closed))
  {
    hide Rank, SomeoneMoves;
    InnerRunsEnd(tr, steps, i, |steps|);
    ChansGrow(tr, steps, i, |steps|);
    if !SomeoneMoves(tr[|steps|]) {
      QuiescentAnswered(tr, steps, |steps|, id);
    }
  }
}
