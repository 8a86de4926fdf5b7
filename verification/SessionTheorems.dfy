/** What the session machine guarantees over whole runs. */
module SessionTheorems {
  import opened SessionState
  import opened SessionInvariant
  import opened SessionSteps

  /** How one step may change generation g. */
  ghost predicate Evolves(s: State, step: Step, g: nat, a: Generation, b: Generation) {
    && (a.once.Idle? ==> !b.once.Finished?)
    && (a.once.Running? && b.once != a.once ==> b.once.Finished? && step == Go(a.once.owner))
    && (a.once.Finished? ==> b.once.Finished?)
    && (b.doneCloses != a.doneCloses ==>
          && step.Go? && step.t < |s.threads|
          && s.threads[step.t].Stop? && s.threads[step.t].g == g && s.threads[step.t].stage.CloseDone?)
    && (b.timer && !a.timer ==> a.doneCloses == 0)
    && (b.attrs.None? && a.attrs.Some? ==> a.once.Finished?)
    && (!step.SetAttrs? && b.attrs.Some? ==> a.attrs == b.attrs)
    && (b.reconnects != a.reconnects ==>
          && b.once.Finished? && a.once.Running?
          && step == Go(a.once.owner) && a.once.owner < |s.threads|
          && s.threads[a.once.owner].Stop? && s.threads[a.once.owner].stage == Trigger(true)
          && b.reconnects == a.reconnects + 1)
    && (a.lcClosed ==> b.lcClosed)
  }

  lemma GcEvolves(s: State, t: nat, next: Pc, g: nat)
    requires Inv(s) && t < |s.threads| && g < |s.gens| && Cur(s).once.Finished?
    ensures |Gc(s, t, next).gens| == |s.gens|
    ensures Evolves(s, Go(t), g, s.gens[g], Gc(s, t, next).gens[g])
  {
    hide Inv;
  }

  lemma GoIsStop(s: State, t: nat)
    requires |s.gens| > 0 && t < |s.threads| && CanGo(s, t) && s.threads[t].Stop?
    ensures var pc := s.threads[t];
            && pc.g < |s.gens| && (pc.stage.CloseLc? || pc.stage.AddTask? || pc.stage.Fork? ==> pc.stage.lc < |s.gens|)
            && ApplyGo(s, t) == GoStop(s, t, pc.g, pc.k, pc.stage)
  {
    hide GoStop;
  }

  lemma StopEvolves(s: State, t: nat, g: nat)
    requires Inv(s) && t < |s.threads| && g < |s.gens| && CanGo(s, t) && s.threads[t].Stop?
    ensures |ApplyGo(s, t).gens| == |s.gens|
    ensures Evolves(s, Go(t), g, s.gens[g], ApplyGo(s, t).gens[g])
  {
    StepFacts(s, t);
    GoIsStop(s, t);
    hide Inv, Counts, Olds, Threads, ChansOK, Sum, ApplyGo, CanGo, RefsOK, WorkerOK, AfterClose, Units, WorkerAlive;
  }

  lemma WorkerEvolves(s: State, t: nat, g: nat)
    requires Inv(s) && t < |s.threads| && g < |s.gens| && CanGo(s, t) && s.threads[t].Worker?
    ensures |ApplyGo(s, t).gens| >= |s.gens|
    ensures Evolves(s, Go(t), g, s.gens[g], ApplyGo(s, t).gens[g])
  {
    StepFacts(s, t);
    hide Inv, Counts, Olds, Threads, ChansOK, Sum, Gc, Deliver;
    if s.threads[t].w.GcSession? {
      GcEvolves(s, t, Worker(WaitLc(s.threads[t].w.lc)), g);
    }
  }

  lemma RunEvolves(s: State, t: nat, g: nat)
    requires Inv(s) && t < |s.threads| && g < |s.gens| && CanGo(s, t) && (s.threads[t].Run? || s.threads[t].Loop?)
    ensures |ApplyGo(s, t).gens| == |s.gens|
    ensures Evolves(s, Go(t), g, s.gens[g], ApplyGo(s, t).gens[g])
  {
    StepFacts(s, t);
    hide Inv, Counts, Olds, Threads, ChansOK, Sum, Gc, GoStop, GoWorker, GoCallback, BodyOK, WorkerOK, Units, WorkerAlive;
    if s.threads[t] == Run(RunGc) {
      GcEvolves(s, t, Run(RunReturn(Detached)), g);
    } else if s.threads[t] == Loop(LoopGc) {
      GcEvolves(s, t, Loop(LoopReturn), g);
    }
  }

  lemma OtherEvolves(s: State, t: nat, g: nat)
    requires Inv(s) && t < |s.threads| && g < |s.gens| && CanGo(s, t)
    requires !s.threads[t].Run? && !s.threads[t].Loop? && !s.threads[t].Stop? && !s.threads[t].Worker?
    ensures |ApplyGo(s, t).gens| == |s.gens|
    ensures Evolves(s, Go(t), g, s.gens[g], ApplyGo(s, t).gens[g])
  {
    hide Inv, Gc, GoRun, GoLoop, GoStop, GoWorker, PacketLockFree;
  }

  lemma GoEvolves(s: State, t: nat, g: nat)
    requires Inv(s) && t < |s.threads| && g < |s.gens| && CanGo(s, t)
    ensures |ApplyGo(s, t).gens| >= |s.gens|
    ensures Evolves(s, Go(t), g, s.gens[g], ApplyGo(s, t).gens[g])
  {
    hide Inv, CanGo, ApplyGo, Evolves;
    var pc := s.threads[t];
    if pc.Stop? {
      StopEvolves(s, t, g);
    } else if pc.Worker? {
      WorkerEvolves(s, t, g);
    } else if pc.Run? || pc.Loop? {
      RunEvolves(s, t, g);
    } else {
      OtherEvolves(s, t, g);
    }
  }

  lemma StepEvolves(s: State, step: Step, g: nat)
    requires Inv(s) && Enabled(s, step) && g < |s.gens|
    ensures |Apply(s, step).gens| >= |s.gens|
    ensures Evolves(s, step, g, s.gens[g], Apply(s, step).gens[g])
  {
    if step.Go? {
      hide Inv, CanGo, ApplyGo, Evolves;
      GoEvolves(s, step.t, g);
    } else {
      OutsideEvolves(s, step, g);
    }
  }

  lemma OutsideEvolves(s: State, step: Step, g: nat)
    requires Enabled(s, step) && !step.Go? && g < |s.gens|
    ensures |Apply(s, step).gens| == |s.gens|
    ensures Evolves(s, step, g, s.gens[g], Apply(s, step).gens[g])
  {
    hide CanGo, ApplyGo;
  }

  /** The invariant holds in every state of every run. */
  lemma {:induction false} Reachable(tr: seq<State>, steps: seq<Step>, i: nat)
    requires Behaviour(tr, steps) && i < |tr|
    ensures Inv(tr[i])
  {
    if i > 0 {
      Reachable(tr, steps, i - 1);
      StepKeeps(tr[i - 1], steps[i - 1]);
    }
  }

  lemma {:induction false} GenerationsGrow(tr: seq<State>, steps: seq<Step>, i: nat, j: nat)
    requires Behaviour(tr, steps) && i <= j < |tr|
    ensures 0 < |tr[i].gens| <= |tr[j].gens|
    decreases j - i
  {
    Reachable(tr, steps, i);
    if i < j {
      hide Inv, Apply;
      assert |tr[i].gens| > 0 by { Positive(tr[i]); }
      StepEvolves(tr[i], steps[i], 0);
      GenerationsGrow(tr, steps, i + 1, j);
    } else {
      Positive(tr[i]);
    }
  }

  lemma Positive(s: State)
    requires Inv(s)
    ensures |s.gens| > 0
  {
  }

  // ---- Reset quiescence ----

  /**
   When reset() enters its field-clearing section, grWG and the lifecycle are at
   zero and no goroutine is left inside run(), the read loop, a callback, a write
   or a close made from one, or the body of stop().
   */
  lemma ClearIsQuiescent(tr: seq<State>, steps: seq<Step>, i: nat, t: nat)
    requires Behaviour(tr, steps) && i < |tr|
    requires t < |tr[i].threads| && tr[i].threads[t] == Worker(Clear)
    ensures |tr[i].gens| > 0 && tr[i].gr == 0 && Cur(tr[i]).lcCount == 0
    ensures forall u | 0 <= u < |tr[i].threads| ::
              !Inside(tr[i].threads[u]) && !InBody(tr[i].threads[u])
  {
    Reachable(tr, steps, i);
    StepFacts(tr[i], t);
    forall u | 0 <= u < |tr[i].threads|
      ensures !Inside(tr[i].threads[u]) && !InBody(tr[i].threads[u])
    {
      NobodyInside(tr[i], u);
      StepFacts(tr[i], u);
    }
  }

  /** A replaced lifecycle refuses acquire() and its count stays zero for the rest of the run. */
  lemma OldLifecyclesStayEmpty(tr: seq<State>, steps: seq<Step>, i: nat, j: nat, g: nat)
    requires Behaviour(tr, steps) && i <= j < |tr| && g + 1 < |tr[i].gens|
    ensures g < |tr[j].gens| && tr[j].gens[g].lcClosed && tr[j].gens[g].lcCount == 0
  {
    GenerationsGrow(tr, steps, i, j);
    Reachable(tr, steps, j);
    assert OldOK(tr[j].gens[g]);
  }

  lemma GoGr(s: State, t: nat)
    requires Inv(s) && t < |s.threads| && CanGo(s, t) && s.resetRun.Some? && s.gr == 0
    ensures ApplyGo(s, t).gr == 0
  {
    StepFacts(s, t);
    hide Inv, Counts, Olds, Threads, ChansOK, Sum, Deliver;
  }

  /** While a reset is pending, grWG never leaves zero: Wait cannot race with Add. */
  lemma NoStartDuringReset(tr: seq<State>, steps: seq<Step>, i: nat)
    requires Behaviour(tr, steps) && i < |steps|
    requires tr[i].resetRun.Some? && tr[i].gr == 0
    ensures tr[i + 1].gr == 0
  {
    Reachable(tr, steps, i);
    match steps[i] {
      case Go(t) => GoGr(tr[i], t);
      case _ => hide Inv, ApplyGo;
    }
  }

  /** With the lifecycle closed only gc and the stop body register, and both are over when the worker waits. */
  lemma GoLcCount(s: State, t: nat, w: nat)
    requires Inv(s) && t < |s.threads| && w < |s.threads| && CanGo(s, t)
    requires s.threads[w] == Worker(WaitLc(Now(s))) || s.threads[w] == Worker(LockPackets) || s.threads[w] == Worker(Clear)
    ensures |ApplyGo(s, t).gens| >= |s.gens| && ApplyGo(s, t).gens[Now(s)].lcCount <= Cur(s).lcCount
  {
    StepFacts(s, t);
    StepFacts(s, w);
    hide Inv, Counts, Olds, Threads, ChansOK, Sum, Deliver, PacketLockFree, Units, RefsOK, WorkerAlive;
    if s.threads[t].Stop? {
      GoIsStop(s, t);
      hide ApplyGo, CanGo, WorkerOK;
    } else if s.threads[t].Worker? {
      hide GoRun, GoLoop, GoCallback, GoStop, BodyOK;
    } else {
      hide GoStop, GoWorker, BodyOK, WorkerOK;
    }
  }

  /**
   Once the worker waits for the lifecycle nobody can add to it: acquire() is
   refused and both closing tasks were registered before the wait began.
   */
  lemma NoTaskDuringWait(tr: seq<State>, steps: seq<Step>, i: nat, w: nat)
    requires Behaviour(tr, steps) && i < |steps| && |tr[i].gens| > 0 && w < |tr[i].threads|
    requires tr[i].threads[w] in {Worker(WaitLc(Now(tr[i]))), Worker(LockPackets), Worker(Clear)}
    ensures |tr[i + 1].gens| >= |tr[i].gens|
    ensures tr[i + 1].gens[Now(tr[i])].lcCount <= Cur(tr[i]).lcCount
  {
    Reachable(tr, steps, i);
    StepEvolves(tr[i], steps[i], Now(tr[i]));
    match steps[i] {
      case Go(t) => GoLcCount(tr[i], t, w);
      case _ => hide Inv, ApplyGo;
    }
  }

  // ---- stop() and gc() within one generation ----

  /** `done` is closed at most once, by the goroutine that runs the once of the same generation. */
  lemma DoneClosedUnderItsOnce(tr: seq<State>, steps: seq<Step>, i: nat, g: nat)
    requires Behaviour(tr, steps) && i < |tr| && g < |tr[i].gens|
    ensures tr[i].gens[g].doneCloses <= 1
    ensures i < |steps| && g < |tr[i + 1].gens| && tr[i + 1].gens[g].doneCloses != tr[i].gens[g].doneCloses ==>
              && tr[i].gens[g].doneCloses == 0
              && steps[i].Go?
              && tr[i].gens[g].once == Running(steps[i].t)
  {
    Reachable(tr, steps, i);
    if g + 1 < |tr[i].gens| { assert OldOK(tr[i].gens[g]); }
    if i < |steps| {
      StepEvolves(tr[i], steps[i], g);
      if tr[i + 1].gens[g].doneCloses != tr[i].gens[g].doneCloses {
        StepFacts(tr[i], steps[i].t);
      }
    }
  }

  /** gc() never clears the attributes before the once body has read the reconnect keys. */
  lemma AttributesOutliveBody(tr: seq<State>, steps: seq<Step>, i: nat)
    requires Behaviour(tr, steps) && i < |tr|
    ensures forall g | 0 <= g < |tr[i].gens| :: tr[i].gens[g].attrs.None? ==> tr[i].gens[g].once.Finished?
    ensures forall t | 0 <= t < |tr[i].threads| && InBody(tr[i].threads[t]) ::
              var g := tr[i].threads[t].g; g + 1 == |tr[i].gens| && tr[i].gens[g].attrs.Some?
  {
    Reachable(tr, steps, i);
    forall t | 0 <= t < |tr[i].threads| && InBody(tr[i].threads[t])
      ensures var g := tr[i].threads[t].g; g + 1 == |tr[i].gens| && tr[i].gens[g].attrs.Some?
    {
      StepFacts(tr[i], t);
    }
    forall g | 0 <= g < |tr[i].gens| && tr[i].gens[g].attrs.None? ensures tr[i].gens[g].once.Finished? {
      if g + 1 < |tr[i].gens| { assert OldOK(tr[i].gens[g]); }
    }
  }

  lemma AtMostOneReconnect(tr: seq<State>, steps: seq<Step>, i: nat, g: nat)
    requires Behaviour(tr, steps) && i < |tr| && g < |tr[i].gens|
    ensures tr[i].gens[g].reconnects <= 1
  {
    Reachable(tr, steps, i);
    if g + 1 < |tr[i].gens| { assert OldOK(tr[i].gens[g]); }
  }

  /** The once body of generation g has run its stopHeartbeat(). */
  predicate HeartbeatStopped(s: State, g: nat)
    requires g < |s.gens|
  {
    match s.gens[g].once
    case Idle => false
    case Running(o) => o < |s.threads| && s.threads[o].Stop? && BodyRank(s.threads[o].stage) > 2
    case Finished => true
  }

  lemma StoppedMeansNoTimer(s: State, g: nat)
    requires Inv(s) && g < |s.gens| && HeartbeatStopped(s, g)
    ensures !s.gens[g].timer
  {
    if g + 1 < |s.gens| {
      assert OldOK(s.gens[g]);
    } else if s.gens[g].once.Running? {
      StepFacts(s, s.gens[g].once.owner);
    }
  }

  /** Other goroutines do not move t; t itself only moves forward in its body. */
  lemma BodyOnlyAdvances(s: State, step: Step, t: nat)
    requires Inv(s) && Enabled(s, step) && t < |s.threads| && InBody(s.threads[t])
    ensures t < |Apply(s, step).threads|
    ensures step != Go(t) ==> Apply(s, step).threads[t] == s.threads[t]
    ensures step == Go(t) && InBody(Apply(s, step).threads[t]) ==>
              BodyRank(Apply(s, step).threads[t].stage) >= BodyRank(s.threads[t].stage)
    ensures step == Go(t) && !InBody(Apply(s, step).threads[t]) ==>
              s.threads[t].stage.Trigger? && Apply(s, step).gens[s.threads[t].g].once.Finished?
  {
    if step == Go(t) {
      BodyAdvances(s, t);
    } else {
      hide Inv, ApplyGo;
      if step.Go? { UntouchedByGo(s, step.t, t); }
    }
  }

  lemma BodyAdvances(s: State, t: nat)
    requires Inv(s) && t < |s.threads| && CanGo(s, t) && InBody(s.threads[t])
    ensures t < |ApplyGo(s, t).threads|
    ensures InBody(ApplyGo(s, t).threads[t]) ==>
              BodyRank(ApplyGo(s, t).threads[t].stage) >= BodyRank(s.threads[t].stage)
    ensures !InBody(ApplyGo(s, t).threads[t]) ==>
              && s.threads[t].stage.Trigger? && s.threads[t].g < |ApplyGo(s, t).gens|
              && ApplyGo(s, t).gens[s.threads[t].g].once.Finished?
  {
    StepFacts(s, t);
    GoIsStop(s, t);
    hide Inv, Counts, Olds, Threads, ChansOK, Sum, ApplyGo, CanGo, RefsOK, WorkerOK, AfterClose, Units, WorkerAlive;
  }

  lemma UntouchedByGo(s: State, u: nat, t: nat)
    requires |s.gens| > 0 && u < |s.threads| && t < |s.threads| && u != t && CanGo(s, u)
    ensures t < |ApplyGo(s, u).threads| && ApplyGo(s, u).threads[t] == s.threads[t]
  {
    match s.threads[u] {
      case Run(_) => hide GoStop, GoWorker;
      case Stop(_, _, _) => hide GoRun, GoWorker, Gc;
      case Worker(_) => hide GoStop, GoRun, Deliver;
      case _ => hide GoRun, GoStop, GoWorker;
    }
  }

  /** After the body's stopHeartbeat() no heartbeat timer is installed in that generation again. */
  lemma {:induction false} NoHeartbeatAfterStop(tr: seq<State>, steps: seq<Step>, i: nat, j: nat, g: nat)
    requires Behaviour(tr, steps) && i <= j < |tr| && g < |tr[i].gens|
    requires HeartbeatStopped(tr[i], g)
    ensures g < |tr[j].gens| && HeartbeatStopped(tr[j], g) && !tr[j].gens[g].timer
    decreases j - i
  {
    Reachable(tr, steps, i);
    StoppedMeansNoTimer(tr[i], g);
    if i < j {
      StepEvolves(tr[i], steps[i], g);
      StoppedPersists(tr[i], steps[i], g);
      NoHeartbeatAfterStop(tr, steps, i + 1, j, g);
    }
  }

  lemma StoppedPersists(s: State, step: Step, g: nat)
    requires Inv(s) && Enabled(s, step) && g < |s.gens| <= |Apply(s, step).gens| && HeartbeatStopped(s, g)
    ensures HeartbeatStopped(Apply(s, step), g)
  {
    StepEvolves(s, step, g);
    if s.gens[g].once.Running? {
      var o := s.gens[g].once.owner;
      BodyOnlyAdvances(s, step, o);
    }
    hide Inv, Apply;
  }
}
