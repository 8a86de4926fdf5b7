/** What callers of a session observe: reconnect decisions and reset results. */
module SessionResults {
  import opened Options
  import opened SessionState
  import opened SessionInvariant
  import opened SessionSteps
  import opened SessionTheorems

  // ---- The reconnect decision is never lost (issue #129) ----

  predicate Wants(a: Attrs) { a.hasClient && a.ignore == Some(false) }

  /** Generation g still decides, or has decided, as the attributes a say. */
  predicate Faithful(s: State, g: nat, a: Attrs) {
    && g < |s.gens|
    && match s.gens[g].once
       case Idle => s.gens[g].attrs == Some(a)
       case Running(o) =>
         && s.gens[g].attrs == Some(a)
         && o < |s.threads| && s.threads[o].Stop?
         && (s.threads[o].stage.ReadFlag? ==> s.threads[o].stage.hasClient == a.hasClient)
         && (s.threads[o].stage.Trigger? ==> s.threads[o].stage.fire == Wants(a))
       case Finished => s.gens[g].reconnects == One(Wants(a))
  }

  lemma OwnerSteps(s: State, o: nat, g: nat, a: Attrs)
    requires Inv(s) && o < |s.threads| && CanGo(s, o) && Faithful(s, g, a) && s.gens[g].once == Running(o)
    ensures Faithful(ApplyGo(s, o), g, a)
  {
    assert g + 1 < |s.gens| ==> OldOK(s.gens[g]);
    StepFacts(s, o);
    GoIsStop(s, o);
    hide Inv, Counts, Olds, Threads, ChansOK, Sum, ApplyGo, CanGo, RefsOK, WorkerOK, AfterClose, Units, WorkerAlive;
  }

  lemma OnceStarts(s: State, step: Step, g: nat)
    requires Inv(s) && Enabled(s, step) && g < |s.gens| <= |Apply(s, step).gens|
    requires s.gens[g].once.Idle? && Apply(s, step).gens[g].once.Running?
    ensures var o := Apply(s, step).gens[g].once.owner;
            o < |Apply(s, step).threads| && Apply(s, step).threads[o].Stop?
            && Apply(s, step).threads[o].stage.CloseDone?
  {
    if step.Go? && s.threads[step.t].Stop? {
      StepFacts(s, step.t);
      GoIsStop(s, step.t);
      hide Inv, Counts, Olds, Threads, ChansOK, Sum, ApplyGo, CanGo, RefsOK, WorkerOK, AfterClose, Units, WorkerAlive;
    } else if step.Go? {
      hide Inv;
      OnceStays(s, step.t, g);
      hide ApplyGo, CanGo;
    } else {
      hide Inv, ApplyGo, CanGo;
    }
  }

  /** Only stop() moves a once. */
  lemma OnceStays(s: State, t: nat, g: nat)
    requires |s.gens| > 0 && t < |s.threads| && CanGo(s, t) && !s.threads[t].Stop? && g < |s.gens|
    ensures |ApplyGo(s, t).gens| >= |s.gens| && ApplyGo(s, t).gens[g].once == s.gens[g].once
  {
    if s.threads[t].Run? || s.threads[t].Loop? {
      hide GoStop, GoWorker, GoCallback;
    } else if s.threads[t].Worker? {
      hide GoStop, GoRun, GoLoop, GoCallback, Deliver;
    } else {
      hide GoRun, GoLoop, GoStop, GoWorker, Gc;
    }
  }

  lemma FaithfulPersists(s: State, step: Step, g: nat, a: Attrs)
    requires Inv(s) && Enabled(s, step) && !step.SetAttrs? && Faithful(s, g, a)
    ensures Faithful(Apply(s, step), g, a)
  {
    StepEvolves(s, step, g);
    if !s.gens[g].once.Finished? { AttrsNeedBody(s, step, g); }
    match s.gens[g].once {
      case Idle =>
        if Apply(s, step).gens[g].once.Running? { OnceStarts(s, step, g); }
      case Running(o) =>
        if step == Go(o) { OwnerSteps(s, o, g, a); }
        else {
          OwnerInBody(s, g);
          BodyOnlyAdvances(s, step, o);
        }
      case Finished =>
    }
    hide Inv, Apply;
  }

  lemma OwnerInBody(s: State, g: nat)
    requires Inv(s) && g < |s.gens| && s.gens[g].once.Running?
    ensures s.gens[g].once.owner < |s.threads| && InBody(s.threads[s.gens[g].once.owner])
  {
    assert g + 1 < |s.gens| ==> OldOK(s.gens[g]);
  }

  lemma AttrsNeedBody(s: State, step: Step, g: nat)
    requires Inv(s) && Enabled(s, step) && g < |s.gens| <= |Apply(s, step).gens|
    requires !s.gens[g].once.Finished?
    ensures s.gens[g].attrs.Some? && Apply(s, step).gens[g].attrs.Some?
  {
    StepEvolves(s, step, g);
    assert g + 1 < |s.gens| ==> OldOK(s.gens[g]);
    hide Apply;
  }

  /**
   If the attributes of a generation say "reconnect" (or not) and nobody rewrites
   them, then when its close sequence has finished exactly that was done.
   */
  lemma {:induction false} ReconnectFollowsAttributes(tr: seq<State>, steps: seq<Step>, i: nat, j: nat, g: nat, a: Attrs)
    requires Behaviour(tr, steps) && i <= j < |tr| && Faithful(tr[i], g, a)
    requires forall k | i <= k < j :: !steps[k].SetAttrs?
    ensures g < |tr[j].gens|
    ensures tr[j].gens[g].once.Finished? ==> tr[j].gens[g].reconnects == One(Wants(a))
    decreases j - i
  {
    if i < j {
      Reachable(tr, steps, i);
      FaithfulPersists(tr[i], steps[i], g, a);
      ReconnectFollowsAttributes(tr, steps, i + 1, j, g, a);
    }
  }

  // ---- Reset results ----

  /** There is at most one reset worker, and there is one exactly while a run is pending. */
  lemma SingleWorker(tr: seq<State>, steps: seq<Step>, i: nat)
    requires Behaviour(tr, steps) && i < |tr|
    ensures forall t, u | 0 <= t < |tr[i].threads| && 0 <= u < |tr[i].threads| ::
              IsWorker(tr[i].threads[t]) && IsWorker(tr[i].threads[u]) ==> t == u
    ensures tr[i].resetRun.Some? <==> exists t | 0 <= t < |tr[i].threads| :: IsWorker(tr[i].threads[t])
  {
    var s := tr[i];
    Reachable(tr, steps, i);
    forall t | 0 <= t < |s.threads| && IsWorker(s.threads[t])
      ensures s.resetRun.Some? && s.resetRun.value.worker == t
    {
      StepFacts(s, t);
    }
    if s.resetRun.Some? {
      assert IsWorker(s.threads[s.resetRun.value.worker]);
    }
    hide Inv, IsWorker;
  }

  /**
   Every channel handed out by ResetAsync is waiting in the pending run, listed
   once, empty and open, or it has received exactly one value and is closed.
   */
  lemma RequestsConserved(tr: seq<State>, steps: seq<Step>, i: nat, id: nat)
    requires Behaviour(tr, steps) && i < |tr| && id < |tr[i].chans|
    ensures var s := tr[i];
            if s.resetRun.Some? && id in s.resetRun.value.results
            then multiset(s.resetRun.value.results)[id] == 1 && s.chans[id] == Chan([], false)
            else |s.chans[id].sent| == 1 && s.chans[id].closed
  {
    Reachable(tr, steps, i);
    var s := tr[i];
    if s.resetRun.Some? && id in s.resetRun.value.results {
      ListedOnce(s.resetRun.value.results, id);
    }
  }

  lemma {:induction false} ListedOnce(rs: seq<nat>, id: nat)
    requires Distinct(rs) && id in rs
    ensures multiset(rs)[id] == 1
  {
    var n := |rs| - 1;
    assert rs == rs[..n] + [rs[n]];
    if rs[n] == id {
      assert id !in rs[..n];
    } else {
      ListedOnce(rs[..n], id);
    }
  }

  /** A step leaves an answered channel alone and answers a pending one only by the worker's drain. */
  lemma StepChans(s: State, step: Step, id: nat)
    requires Inv(s) && Enabled(s, step) && id < |s.chans|
    ensures id < |Apply(s, step).chans|
    ensures Apply(s, step).chans[id] != s.chans[id] ==>
              && step.Go? && s.resetRun.Some? && step.t == s.resetRun.value.worker
              && step.t < |s.threads| && s.threads[step.t].Worker? && s.threads[step.t].w.Drain?
              && s.chans[id] == Chan([], false)
              && Apply(s, step).chans[id] == Chan([s.threads[step.t].w.ok], true)
  {
    if step.Go? && s.threads[step.t].Worker? && s.threads[step.t].w.Drain? {
      StepFacts(s, step.t);
      Delivered(s.chans, s.resetRun.value.results, s.threads[step.t].w.ok, id);
      assert ChansOK(s.chans, s.resetRun);
      hide Inv, Deliver;
    } else {
      hide Inv, ApplyGo;
      if step.Go? { GoLeavesChans(s, step.t); }
    }
  }

  lemma GoLeavesChans(s: State, t: nat)
    requires |s.gens| > 0 && t < |s.threads| && CanGo(s, t)
    requires s.threads[t].Worker? ==> !s.threads[t].w.Drain?
    ensures ApplyGo(s, t).chans == s.chans
  {
    if s.threads[t].Run? {
      hide GoStop, GoWorker;
    } else if s.threads[t].Stop? {
      hide GoRun, GoWorker, Gc;
    } else if s.threads[t].Worker? {
      hide GoStop, GoRun, Deliver;
    } else {
      hide GoRun, GoStop, GoWorker;
    }
  }

  /** An answer is final. */
  lemma {:induction false} AnsweredForever(tr: seq<State>, steps: seq<Step>, i: nat, j: nat, id: nat)
    requires Behaviour(tr, steps) && i <= j < |tr| && id < |tr[i].chans| && tr[i].chans[id].closed
    ensures id < |tr[j].chans| && tr[j].chans[id] == tr[i].chans[id]
    decreases j - i
  {
    if i < j {
      Reachable(tr, steps, i);
      StepChans(tr[i], steps[i], id);
      hide Inv, Apply;
      AnsweredForever(tr, steps, i + 1, j, id);
    }
  }

  lemma SpawnedByGo(s: State, t: nat)
    requires |s.gens| > 0 && t < |s.threads| && CanGo(s, t)
    ensures var ts := ApplyGo(s, t).threads;
            |s.threads| <= |ts| <= |s.threads| + 1 && (|ts| > |s.threads| ==> !ts[|s.threads|].Worker?)
  {
    match s.threads[t] {
      case Run(_) => hide GoStop, GoWorker;
      case Stop(_, _, _) => hide GoRun, GoWorker, Gc;
      case Worker(_) => hide GoStop, GoRun, Deliver;
      case _ => hide GoRun, GoStop, GoWorker;
    }
  }

  lemma MoverDrains(s: State, t: nat)
    requires |s.gens| > 0 && t < |s.threads| && CanGo(s, t)
    requires t < |ApplyGo(s, t).threads| && ApplyGo(s, t).threads[t] == Worker(Drain(true))
    ensures s.threads[t] == Worker(Clear)
  {
    match s.threads[t] {
      case Worker(w) => hide GoStop, GoRun, Deliver;
      case _ => hide GoWorker;
    }
  }

  lemma DrainComesFromClear(s: State, step: Step, w: nat)
    requires Inv(s) && Enabled(s, step) && w < |Apply(s, step).threads|
    requires Apply(s, step).threads[w] == Worker(Drain(true))
    ensures w < |s.threads|
    ensures s.threads[w] == Worker(Drain(true)) || (step == Go(w) && s.threads[w] == Worker(Clear))
  {
    hide Inv, ApplyGo;
    match step {
      case Go(t) =>
        SpawnedByGo(s, t);
        if t == w { MoverDrains(s, t); } else if w < |s.threads| { UntouchedByGo(s, t, w); }
      case _ =>
    }
  }

  /** A successful worker has been through its field-clearing section. */
  lemma {:induction false} ClearedBefore(tr: seq<State>, steps: seq<Step>, i: nat, w: nat) returns (k: nat)
    requires Behaviour(tr, steps) && i < |tr| && w < |tr[i].threads| && tr[i].threads[w] == Worker(Drain(true))
    ensures k < i && steps[k] == Go(w)
    ensures w < |tr[k].threads| && tr[k].threads[w] == Worker(Clear)
    ensures forall m | k < m <= i :: w < |tr[m].threads| && tr[m].threads[w] == Worker(Drain(true))
  {
    hide Inv, Apply, Enabled;
    Reachable(tr, steps, i - 1);
    DrainComesFromClear(tr[i - 1], steps[i - 1], w);
    if tr[i - 1].threads[w] == Worker(Clear) {
      k := i - 1;
    } else {
      k := ClearedBefore(tr, steps, i - 1, w);
    }
  }

  /** While the worker drains after clearing, the generation is the new one and has no Connection. */
  lemma StillCleared(s: State, w: nat)
    requires Inv(s) && w < |s.threads| && s.threads[w] == Worker(Drain(true))
    ensures s.resetRun.Some? && Now(s) == s.resetRun.value.from + 1 && !Cur(s).conn
  {
    StepFacts(s, w);
  }

  /**
   A nil error is delivered only by a run that cleared the fields after it was
   requested first, and Connection is nil from that section to the delivery.
   */
  lemma SuccessMeansCleared(tr: seq<State>, steps: seq<Step>, i: nat, id: nat) returns (k: nat)
    requires Behaviour(tr, steps) && i < |steps| && id < |tr[i].chans| && id < |tr[i + 1].chans|
    requires tr[i].chans[id].sent == [] && tr[i + 1].chans[id].sent == [true]
    ensures k < i && tr[i].resetRun.Some? && steps[k] == Go(tr[i].resetRun.value.worker)
    ensures tr[i].resetRun.value.worker < |tr[k].threads|
    ensures tr[k].threads[tr[i].resetRun.value.worker] == Worker(Clear)
    ensures forall m | k < m <= i :: |tr[m].gens| == tr[i].resetRun.value.from + 2 && !Cur(tr[m]).conn
  {
    Reachable(tr, steps, i);
    StepChans(tr[i], steps[i], id);
    var w := steps[i].t;
    k := ClearedBefore(tr, steps, i, w);
    StillCleared(tr[i], w);
    ClearGrows(tr, steps, k, i, w);
    forall m | k < m <= i
      ensures |tr[m].gens| == tr[i].resetRun.value.from + 2 && !Cur(tr[m]).conn
    {
      Reachable(tr, steps, m);
      StillCleared(tr[m], w);
      ClearGrows(tr, steps, k, m, w);
    }
  }

  lemma ClearStep(s: State, w: nat)
    requires Enabled(s, Go(w)) && s.threads[w] == Worker(Clear)
    ensures |Apply(s, Go(w)).gens| == |s.gens| + 1
  {
  }

  /** Between the clear and the end of the drain no further generation is installed. */
  lemma {:induction false} ClearGrows(tr: seq<State>, steps: seq<Step>, k: nat, i: nat, w: nat)
    requires Behaviour(tr, steps) && k < i < |tr| && w < |tr[k].threads|
    requires steps[k] == Go(w) && tr[k].threads[w] == Worker(Clear)
    requires forall m | k < m <= i :: w < |tr[m].threads| && tr[m].threads[w] == Worker(Drain(true))
    ensures |tr[i].gens| == |tr[k].gens| + 1
  {
    hide Inv, Apply, Enabled;
    if k + 1 < i {
      Reachable(tr, steps, i - 1);
      ClearGrows(tr, steps, k, i - 1, w);
      NoOtherClear(tr[i - 1], steps[i - 1], w);
    } else {
      ClearStep(tr[k], w);
    }
  }

  lemma NoOtherClear(s: State, step: Step, w: nat)
    requires Inv(s) && Enabled(s, step) && w < |s.threads| && s.threads[w] == Worker(Drain(true))
    ensures |Apply(s, step).gens| == |s.gens|
  {
    if step.Go? {
      StepFacts(s, w);
      StepFacts(s, step.t);
      hide Inv, Counts, Olds, Threads, ChansOK, Sum;
      hide CurOK, BodyOK, WorkerOK, Units, WorkerAlive, RefsOK;
      GensStay(s, step.t);
      hide ApplyGo, CanGo;
    } else {
      hide Inv, ApplyGo, CanGo;
    }
  }

  /** Only the worker's clear installs a generation. */
  lemma GensStay(s: State, t: nat)
    requires |s.gens| > 0 && t < |s.threads| && CanGo(s, t) && s.threads[t] != Worker(Clear)
    ensures |ApplyGo(s, t).gens| == |s.gens|
  {
    if s.threads[t].Run? || s.threads[t].Loop? {
      hide GoStop, GoWorker, GoCallback;
    } else if s.threads[t].Stop? {
      hide GoRun, GoLoop, GoCallback, GoWorker, Gc;
    } else if s.threads[t].Worker? {
      hide GoStop, GoRun, GoLoop, GoCallback, Deliver;
    } else {
      hide GoRun, GoLoop, GoStop, GoWorker, Gc;
    }
  }

  lemma OldFinished(s: State)
    requires Inv(s)
    ensures forall g | 0 <= g < |s.gens| - 1 :: s.gens[g].once.Finished?
  {
  }

  // ---- Nothing but the intended waits blocks a goroutine ----

  /**
   A goroutine that cannot take its next step is waiting in once.Do, in one of
   the reset worker's two waits, for packetLock, or is a run() on a session without Connection
   (which panics instead). In particular no wait group is decremented below zero
   and the worker's sends neither block nor hit a closed channel.
   */
  lemma OnlyIntendedWaits(tr: seq<State>, steps: seq<Step>, i: nat, t: nat)
    requires Behaviour(tr, steps) && i < |tr| && |tr[i].gens| > 0 && t < |tr[i].threads|
    requires !CanGo(tr[i], t)
    ensures var s := tr[i];
            match s.threads[t]
            case Exited => true
            case Run(r) => r.Check? && !Cur(s).conn && CanFail(s, t)
            case Stop(g, _, b) => b.Do? && g + 1 == |s.gens| && s.gens[g].once.Running?
            case Raw(r, exclusive, _) => r.Wait? && !PacketLockFree(s.threads, exclusive)
            case Worker(w) =>
              || (w.WaitGr? && s.gr > 0)
              || (w == WaitLc(Now(s)) && Cur(s).lcCount > 0)
              || (w.LockPackets? && !PacketLockFree(s.threads, true))
            case _ => false
  {
    var s := tr[i];
    Reachable(tr, steps, i);
    StepFacts(s, t);
    OldFinished(s);
    assert ChansOK(s.chans, s.resetRun);
    if s.threads[t].CloseConn? {
      HolderIsCurrent(s, t, s.threads[t].lc);
    } else if s.threads[t].Callback? && s.threads[t].site.Task? {
      HolderIsCurrent(s, t, s.threads[t].site.lc);
    }
  }
}
