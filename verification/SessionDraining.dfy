/**
 A reset worker that waits is not held up by what goes on outside: once it
 waits for the goroutines of its generation, new calls, timers and reads add
 nothing to what it waits for.
 */
module SessionDraining {
  import opened Sequences
  import opened SessionState
  import opened SessionInvariant
  import opened SessionSteps
  import opened SessionTheorems
  import opened SessionResults
  import opened SessionRank
  import opened SessionProgress

  /** The worker is between the start of its first wait and packetLock. */
  predicate Draining(s: State) {
    && s.resetRun.Some? && s.resetRun.value.worker < |s.threads|
    && s.threads[s.resetRun.value.worker].Worker?
    && 3 <= WorkerRank(s.threads[s.resetRun.value.worker].w) <= 6
  }

  /** The worker itself, and whoever holds a unit of one of the wait groups it waits for. */
  predicate Awaited(c: nat, pc: Pc) { Units(pc, Gr) > 0 || Units(pc, Lc(c)) > 0 || IsWorker(pc) }

  function AwaitedRank(limit: nat, c: nat): Pc -> nat {
    pc => if Awaited(c, pc) then PcRank(limit, pc) else 0
  }

  /** The steps that are left to the worker and to those it waits for. */
  function DrainRank(s: State): nat
    requires |s.gens| > 0
  {
    Total(s.threads, AwaitedRank(s.limit, Now(s)))
  }

  lemma DrainFacts(s: State)
    requires Inv(s) && Draining(s)
    ensures var c := Cur(s); c.once.Finished? && c.doneCloses == 1 && c.lcClosed && c.forked
  {
    StepFacts(s, s.resetRun.value.worker);
  }

  /** Who is not awaited holds nothing and is outside the session. */
  lemma Unawaited(s: State, t: nat)
    requires Inv(s) && Draining(s) && t < |s.threads| && !Awaited(Now(s), s.threads[t])
    ensures !Inside(s.threads[t]) && !InBody(s.threads[t]) && !IsWorker(s.threads[t])
  {
    DrainFacts(s);
    StepFacts(s, t);
    var pc := s.threads[t];
    assert !InBody(pc);
    if Inside(pc) {
      InsideHolds(pc);
      var lc: nat :| Units(pc, Lc(lc)) > 0;
      LcKnown(s, t, lc);
      HolderIsCurrent(s, t, lc);
    }
  }

  lemma LcKnown(s: State, t: nat, lc: nat)
    requires Inv(s) && t < |s.threads| && Units(s.threads[t], Lc(lc)) > 0 && !InBody(s.threads[t])
    ensures lc <= Now(s)
  {
    StepFacts(s, t);
  }

  /** From outside nobody becomes awaited: run() and acquire() are refused, and the once is over. */
  lemma OutsideStaysOut(s: State, t: nat)
    requires Inv(s) && Draining(s) && t < |s.threads| && CanGo(s, t) && !Awaited(Now(s), s.threads[t])
    ensures var s' := ApplyGo(s, t);
            && |s'.threads| == |s.threads| && |s'.gens| == |s.gens| && !Awaited(Now(s), s'.threads[t])
  {
    Unawaited(s, t);
    DrainFacts(s);
    StepFacts(s, t);
    OldLcClosed(s);
    hide Inv, Counts, Olds, Threads, ChansOK, Sum, CurOK, BodyOK, WorkerOK, WorkerAlive;
    hide GoRun, GoLoop, GoWorker, GoCallback, Gc, PacketLockFree;
  }

  lemma OldLcClosed(s: State)
    requires Inv(s)
    ensures forall g | 0 <= g < |s.gens| - 1 :: s.gens[g].lcClosed && s.gens[g].once.Finished?
  {
    forall g | 0 <= g < |s.gens| - 1 ensures s.gens[g].lcClosed && s.gens[g].once.Finished? {
      assert OldOK(s.gens[g]);
    }
  }

  /** Only awaited goroutines fail, dispatch or run callbacks. */
  lemma CallersAreAwaited(s: State, step: Step)
    requires Inv(s) && Draining(s) && Enabled(s, step) && Inner(step) && !step.Go?
    ensures Awaited(Now(s), s.threads[step.t])
  {
    StepFacts(s, step.t);
    hide Inv, ThreadOK, CurOK;
    CallerPc(s, step);
    if !Awaited(Now(s), s.threads[step.t]) {
      Unawaited(s, step.t);
    }
  }

  lemma CallerPc(s: State, step: Step)
    requires Enabled(s, step) && Inner(step) && !step.Go?
    ensures step.t < |s.threads| && (Inside(s.threads[step.t]) || IsWorker(s.threads[step.t]))
  {
    hide ApplyGo, CanGo;
  }

  /** A step of an awaited goroutine, on the sums alone. */
  lemma WeightFalls(s: State, s': State, t: nat, c: nat)
    requires Moved(s, s', t) && Down(s, s', t) && Unforked(s) == 0 && Awaited(c, s.threads[t])
    ensures Total(s'.threads, AwaitedRank(s.limit, c)) < Total(s.threads, AwaitedRank(s.limit, c))
  {
    hide Total, PcRank, Awaited, PacketLockFree, HoldsPackets, HoldsExclusively;
    var w, spawn := AwaitedRank(s.limit, c), s'.threads[|s.threads|..];
    TotalMoved(s, s', t, w);
    assert w(s'.threads[t]) <= PcRank(s.limit, s'.threads[t]) && w(s.threads[t]) == PcRank(s.limit, s.threads[t]);
    assert spawn != [] ==> w(spawn[0]) <= PcRank(s.limit, spawn[0]);
  }

  lemma AwaitedFalls(s: State, step: Step)
    requires Inv(s) && Draining(s) && Enabled(s, step) && Inner(step) && Awaited(Now(s), s.threads[step.t])
    ensures |Apply(s, step).gens| == |s.gens| && DrainRank(Apply(s, step)) < DrainRank(s)
  {
    InnerDown(s, step);
    DrainFacts(s);
    SameGens(s, step);
    hide Inv, Draining, Enabled, Apply, Total, PcRank, Awaited, Down;
    WeightFalls(s, Apply(s, step), step.t, Now(s));
  }

  lemma SameGens(s: State, step: Step)
    requires Inv(s) && Draining(s) && Enabled(s, step) && Inner(step)
    ensures |Apply(s, step).gens| == |s.gens|
  {
    if step.Go? {
      if s.threads[step.t] == Worker(Clear) {
        OneWorker(s, step.t);
      }
      hide Inv;
      GensStay(s, step.t);
    } else {
      hide Inv, ApplyGo, CanGo;
    }
  }

  lemma OneWorker(s: State, t: nat)
    requires Inv(s) && t < |s.threads| && IsWorker(s.threads[t])
    ensures s.resetRun.Some? && s.resetRun.value.worker == t
  {
    StepFacts(s, t);
  }

  /** Calls, timers and reads from outside while the worker drains: at most one goroutine starts, outside. */
  lemma OutsideShape(s: State, step: Step)
    requires Enabled(s, step) && !Inner(step) && s.resetRun.Some? && Cur(s).doneCloses == 1
    ensures var s' := Apply(s, step);
            && |s'.gens| == |s.gens| && s'.limit == s.limit
            && (s'.threads == s.threads
                || (|s'.threads| == |s.threads| + 1 && s'.threads == s.threads + [s'.threads[|s.threads|]]
                    && !Awaited(Now(s), s'.threads[|s.threads|])))
  {
    hide ApplyGo, ApplyFail, CanGo, CanFail;
  }

  lemma OutsideFalls(s: State, step: Step)
    requires Inv(s) && Draining(s) && Enabled(s, step) && !Inner(step)
    ensures |Apply(s, step).gens| == |s.gens| && DrainRank(Apply(s, step)) == DrainRank(s)
  {
    DrainFacts(s);
    OutsideShape(s, step);
    hide Inv, Draining, Apply, Enabled, Total, PcRank, Awaited;
    var s' := Apply(s, step);
    if s'.threads != s.threads {
      TotalAppend(s.threads, s'.threads[|s.threads|], AwaitedRank(s.limit, Now(s)));
    }
  }

  lemma OutsiderSteps(s: State, t: nat)
    requires Inv(s) && Draining(s) && t < |s.threads| && CanGo(s, t) && !Awaited(Now(s), s.threads[t])
    ensures |ApplyGo(s, t).gens| == |s.gens| && DrainRank(ApplyGo(s, t)) == DrainRank(s)
  {
    OutsideStaysOut(s, t);
    GoShape(s, t);
    hide Inv, Draining, ApplyGo, CanGo, Total, PcRank, Awaited;
    TotalMoved(s, ApplyGo(s, t), t, AwaitedRank(s.limit, Now(s)));
  }

  /**
   While the worker drains its generation, no step of anybody, and no call, timer
   or read from outside, adds to what is left to be done, and every step of the
   worker or of a goroutine it waits for takes from it.
   */
  lemma DrainRankFalls(s: State, step: Step)
    requires Inv(s) && Draining(s) && Enabled(s, step)
    ensures |Apply(s, step).gens| == |s.gens| && DrainRank(Apply(s, step)) <= DrainRank(s)
    ensures Inner(step) && Awaited(Now(s), s.threads[step.t]) ==> DrainRank(Apply(s, step)) < DrainRank(s)
  {
    hide Inv, Draining, DrainRank, ApplyGo, ApplyFail, CanGo, CanFail, Awaited;
    if !Inner(step) {
      OutsideFalls(s, step);
    } else if Awaited(Now(s), s.threads[step.t]) {
      AwaitedFalls(s, step);
    } else if step.Go? {
      OutsiderSteps(s, step.t);
    } else {
      CallersAreAwaited(s, step);
    }
  }

  /** While the worker drains, it, a goroutine it waits for, or a holder of packetLock can move. */
  lemma DrainGoesOn(tr: seq<State>, steps: seq<Step>, i: nat) returns (t: nat)
    requires Behaviour(tr, steps) && i < |tr| && Draining(tr[i])
    ensures |tr[i].gens| > 0 && t < |tr[i].threads| && Moves(tr[i], t)
    ensures Awaited(Now(tr[i]), tr[i].threads[t]) || HoldsPackets(tr[i].threads[t])
  {
    var s := tr[i];
    Reachable(tr, steps, i);
    Positive(s);
    DrainFacts(s);
    t := s.resetRun.value.worker;
    if !Moves(s, t) {
      OnlyIntendedWaits(tr, steps, i, t);
      assert Counts(s);
      hide Inv, PacketLockFree, Total;
      if s.threads[t].w.LockPackets? {
        t := PacketHolderMoves(s, true);
      } else {
        var r := if s.threads[t].w.WaitGr? then Gr else Lc(Now(s));
        t := TotalPositive(s.threads, UnitsOf(r));
        if !Moves(s, t) {
          OnlyIntendedWaits(tr, steps, i, t);
          hide CanGo;
          t := PacketHolderMoves(s, s.threads[t].exclusive);
        }
      }
    }
  }

  predicate ByAwaited(s: State, step: Step) {
    |s.gens| > 0 && Inner(step) && step.t < |s.threads| && Awaited(Now(s), s.threads[step.t])
  }

  /** How many steps of a run are steps of the worker or of a goroutine it waits for. */
  ghost function AwaitedSteps(tr: seq<State>, steps: seq<Step>, i: nat, j: nat): nat
    requires i <= j <= |steps| <= |tr|
    decreases j - i
  {
    if i == j then 0 else (if ByAwaited(tr[i], steps[i]) then 1 else 0) + AwaitedSteps(tr, steps, i + 1, j)
  }

  /**
   However many new calls, timers and reads arrive meanwhile, a draining worker
   and the goroutines it waits for take at most DrainRank steps, and until it has
   packetLock one of them, or a writer inside packetLock, can move.
   */
  lemma {:induction false} WorkerGetsThrough(tr: seq<State>, steps: seq<Step>, i: nat, j: nat)
    requires Behaviour(tr, steps) && i <= j < |tr| && forall k | i <= k <= j :: Draining(tr[k])
    ensures |tr[i].gens| > 0 && |tr[j].gens| > 0
    ensures AwaitedSteps(tr, steps, i, j) + DrainRank(tr[j]) <= DrainRank(tr[i])
    ensures exists t: nat :: t < |tr[j].threads| && Moves(tr[j], t)
              && (Awaited(Now(tr[j]), tr[j].threads[t]) || HoldsPackets(tr[j].threads[t]))
    decreases j - i
  {
    Reachable(tr, steps, i);
    Positive(tr[i]);
    if i < j {
      DrainRankFalls(tr[i], steps[i]);
      hide Inv, Apply, DrainRank, Moves, Awaited, HoldsPackets;
      WorkerGetsThrough(tr, steps, i + 1, j);
    } else {
      var t := DrainGoesOn(tr, steps, i);
    }
  }
}
