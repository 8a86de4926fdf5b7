/**
 What the operations of a session answer: which resets succeed, what run() and
 the read goroutine leave behind, and what an open session admits.
 */
module SessionAnswers {
  import opened Options
  import opened SessionState
  import opened SessionInvariant
  import opened SessionSteps
  import opened SessionTheorems
  import opened SessionResults

  // ---- The value of a reset ----

  /** Going on never makes a worker report an error. */
  lemma GoNeverFails(s: State, t: nat)
    requires |s.gens| > 0 && t < |s.threads| && CanGo(s, t)
    ensures t < |ApplyGo(s, t).threads| && ApplyGo(s, t).threads[t] != Worker(Drain(false))
  {
    if s.threads[t].Run? || s.threads[t].Loop? {
      hide GoStop, GoWorker, GoCallback;
    } else if s.threads[t].Stop? {
      hide GoRun, GoLoop, GoCallback, GoWorker, Gc;
    } else if s.threads[t].Worker? {
      hide GoStop, GoRun, GoLoop, GoCallback, Deliver;
    } else {
      hide GoRun, GoLoop, GoStop, GoWorker, Gc;
    }
  }

  /** A worker comes to report an error only along its error path. */
  lemma DrainErrorComesFromFail(s: State, step: Step, w: nat)
    requires Enabled(s, step) && w < |Apply(s, step).threads|
    requires Apply(s, step).threads[w] == Worker(Drain(false))
    ensures w < |s.threads| && (s.threads[w] == Worker(Drain(false)) || step == Fail(w))
  {
    hide ApplyGo;
    match step {
      case Go(t) =>
        SpawnedByGo(s, t);
        if t == w { GoNeverFails(s, t); } else if w < |s.threads| { UntouchedByGo(s, t, w); }
      case _ =>
    }
  }

  lemma {:induction false} FailedBefore(tr: seq<State>, steps: seq<Step>, i: nat, w: nat) returns (k: nat)
    requires Behaviour(tr, steps) && i < |tr| && w < |tr[i].threads| && tr[i].threads[w] == Worker(Drain(false))
    ensures k < i && steps[k] == Fail(w)
  {
    hide Apply, Enabled;
    DrainErrorComesFromFail(tr[i - 1], steps[i - 1], w);
    if steps[i - 1] == Fail(w) {
      k := i - 1;
    } else {
      k := FailedBefore(tr, steps, i - 1, w);
    }
  }

  /** A goroutine that is through with its error path, or never was a worker. */
  predicate NoSuccess(pc: Pc) { pc == Worker(Drain(false)) || !IsWorker(pc) }

  lemma MoverNoSuccess(s: State, t: nat)
    requires |s.gens| > 0 && t < |s.threads| && CanGo(s, t) && NoSuccess(s.threads[t])
    ensures t < |ApplyGo(s, t).threads| && NoSuccess(ApplyGo(s, t).threads[t])
  {
    if s.threads[t].Run? || s.threads[t].Loop? {
      hide GoStop, GoWorker, GoCallback;
    } else if s.threads[t].Stop? {
      hide GoRun, GoLoop, GoCallback, GoWorker, Gc;
    } else if s.threads[t].Worker? {
      hide GoStop, GoRun, GoLoop, GoCallback, Deliver;
    } else {
      hide GoRun, GoLoop, GoStop, GoWorker, Gc;
    }
  }

  lemma NoSuccessStays(s: State, step: Step, t: nat)
    requires Enabled(s, step) && t < |s.threads| && (NoSuccess(s.threads[t]) || step == Fail(t))
    ensures t < |Apply(s, step).threads| && NoSuccess(Apply(s, step).threads[t])
  {
    hide ApplyGo;
    match step {
      case Go(u) => if u == t { MoverNoSuccess(s, t); } else { UntouchedByGo(s, u, t); }
      case _ =>
    }
  }

  lemma {:induction false} NoSuccessForever(tr: seq<State>, steps: seq<Step>, k: nat, i: nat, w: nat)
    requires Behaviour(tr, steps) && k < i < |tr| && w < |tr[k].threads|
    requires NoSuccess(tr[k].threads[w]) || steps[k] == Fail(w)
    ensures w < |tr[i].threads| && NoSuccess(tr[i].threads[w])
    decreases i - k
  {
    hide Apply, Enabled, NoSuccess;
    NoSuccessStays(tr[k], steps[k], w);
    if k + 1 < i {
      NoSuccessForever(tr, steps, k + 1, i, w);
    }
  }

  /**
   A reset delivers nil exactly if its worker never took its error path; with
   SuccessMeansCleared it then has cleared the fields exactly once.
   */
  lemma ResetAnswerExactly(tr: seq<State>, steps: seq<Step>, i: nat, id: nat, ok: bool)
    requires Behaviour(tr, steps) && i < |steps| && id < |tr[i].chans| && id < |tr[i + 1].chans|
    requires tr[i].chans[id].sent == [] && tr[i + 1].chans[id].sent == [ok]
    ensures tr[i].resetRun.Some?
    ensures ok <==> forall k | 0 <= k < i :: steps[k] != Fail(tr[i].resetRun.value.worker)
  {
    Reachable(tr, steps, i);
    StepChans(tr[i], steps[i], id);
    var w := steps[i].t;
    hide Inv, Apply;
    if ok {
      forall k | 0 <= k < i ensures steps[k] != Fail(w) {
        if steps[k] == Fail(w) {
          NoSuccessForever(tr, steps, k, i, w);
        }
      }
    } else {
      var k := FailedBefore(tr, steps, i, w);
    }
  }

  // ---- What goroutines leave behind ----

  predicate AtLoop(site: Site) { site.Closing? || (site.Task? && site.loop.Some?) }

  /** A read goroutine, wherever it is: also inside a callback, and in a write or a close made from one. */
  predicate InReadLoop(pc: Pc) {
    || pc.Loop? || (pc.Acquire? && pc.inLoop.Some?)
    || (pc.Callback? && AtLoop(pc.site)) || (pc.Raw? && AtLoop(pc.at))
    || ((pc.StopEnter? || pc.Stop?) && pc.k.From? && AtLoop(pc.k.site))
  }

  lemma ReadLoopGoes(s: State, t: nat)
    requires Inv(s) && t < |s.threads| && CanGo(s, t) && InReadLoop(s.threads[t])
    ensures t < |ApplyGo(s, t).threads|
    ensures InReadLoop(ApplyGo(s, t).threads[t]) || (ApplyGo(s, t).threads[t] == Exited && s.threads[t] == Loop(LoopReturn))
  {
    Positive(s);
    hide Inv;
    if s.threads[t].Stop? {
      GoIsStop(s, t);
      hide ApplyGo, CanGo;
    } else if s.threads[t].Loop? {
      hide GoStop, GoWorker, GoCallback, GoRun;
    } else {
      hide GoRun, GoLoop, GoStop, GoWorker, Gc, PacketLockFree;
    }
  }

  /** A step that goroutine t takes itself. */
  predicate Own(step: Step, t: nat) {
    (step.Receive? || step.Dispatch? || step.NestedClose? || step.NestedWrite? || step.Go? || step.Fail?) && step.t == t
  }

  /** Steps of others, and calls from outside, leave goroutine t where it is. */
  lemma OthersLeave(s: State, step: Step, t: nat)
    requires Enabled(s, step) && t < |s.threads| && !Own(step, t)
    ensures t < |Apply(s, step).threads| && Apply(s, step).threads[t] == s.threads[t]
  {
    hide ApplyGo, CanGo;
    if step.Go? { UntouchedByGo(s, step.t, t); }
  }

  lemma ReadLoopCalls(s: State, step: Step, t: nat)
    requires Enabled(s, step) && Own(step, t) && !step.Go? && InReadLoop(s.threads[t])
    ensures t < |Apply(s, step).threads| && InReadLoop(Apply(s, step).threads[t])
  {
    hide ApplyGo, CanGo;
  }

  /**
   A read goroutine ends only when its session is closed and detached: whatever
   made it leave, stop() has finished and gc() has taken the attributes.
   */
  lemma ReadLoopEndsClosed(s: State, step: Step, t: nat)
    requires Inv(s) && Enabled(s, step) && t < |s.threads| && InReadLoop(s.threads[t])
    ensures t < |Apply(s, step).threads|
    ensures !InReadLoop(Apply(s, step).threads[t]) ==>
              Apply(s, step).threads[t] == Exited && Cur(s).once.Finished? && Cur(s).attrs.None?
  {
    if s.threads[t] == Loop(LoopReturn) { EndFacts(s, t); }
    hide Inv, ApplyGo, CanGo, ApplyFail, CanFail, InReadLoop;
    if step == Go(t) {
      ReadLoopGoes(s, t);
    } else if Own(step, t) {
      ReadLoopCalls(s, step, t);
    } else {
      OthersLeave(s, step, t);
    }
  }

  lemma EndFacts(s: State, t: nat)
    requires Inv(s) && t < |s.threads| && AfterGc(s.threads[t])
    ensures Cur(s).once.Finished? && Cur(s).attrs.None?
  {
    StepFacts(s, t);
  }

  predicate InRun(pc: Pc) {
    || pc.Run? || (pc.Callback? && pc.site.Opening?) || (pc.Raw? && pc.at.Opening?)
    || ((pc.StopEnter? || pc.Stop?) && (pc.k.OnOpenFailed? || (pc.k.From? && pc.k.site.Opening?)))
  }

  /** After an OnOpen that failed: on the way to stop() and gc(). */
  predicate Unwinding(pc: Pc) {
    ((pc.StopEnter? || pc.Stop?) && pc.k.OnOpenFailed?) || pc == Run(RunGc) || pc == Run(RunReturn(Detached))
  }

  /**
   One step of run(): it stays inside, or ends in one of its three ways; it starts
   the read goroutine only after OnOpen has returned and the heartbeat was seen to.
   */
  ghost predicate RunStep(s: State, s': State, step: Step, t: nat) {
    && |s.gens| > 0 && t < |s.threads| <= |s'.threads|
    && var pc, pc' := s.threads[t], s'.threads[t];
       && (!InRun(pc') ==> pc' == Exited && pc.Run? && pc.run.RunReturn?)
       && (pc' != pc && pc' == Run(RunReturn(Started)) ==>
             |s'.threads| == |s.threads| + 1 && s'.threads[|s.threads|] == Loop(Serve(0)))
       && (pc' != pc && pc' == Run(RunReturn(Panicked)) ==> step == Fail(t) && pc.Run?)
       && (pc' != pc && pc'.Run? && pc'.run.StartLoop? ==> pc == Run(Install))
       && (pc' != pc && pc'.Run? && pc'.run.Install? ==> pc.Callback?)
       && (pc' != pc && pc' == Run(RunReturn(Started)) ==> pc == Run(StartLoop))
       && (Unwinding(pc) && InRun(pc') ==> Unwinding(pc'))
       && (step == Fail(t) && pc.Callback? ==> Unwinding(pc'))
  }

  lemma RunGoes(s: State, t: nat)
    requires |s.gens| > 0 && t < |s.threads| && CanGo(s, t) && InRun(s.threads[t])
    ensures RunStep(s, ApplyGo(s, t), Go(t), t)
  {
    if s.threads[t].Stop? {
      GoIsStop(s, t);
      hide ApplyGo, CanGo;
    } else if s.threads[t].Run? {
      hide GoStop, GoWorker, GoCallback, GoLoop;
    } else {
      hide GoRun, GoLoop, GoStop, GoWorker, Gc, PacketLockFree;
    }
  }

  lemma RunCalls(s: State, step: Step, t: nat)
    requires Enabled(s, step) && Own(step, t) && !step.Go? && InRun(s.threads[t])
    ensures RunStep(s, Apply(s, step), step, t)
  {
    hide ApplyGo, CanGo;
  }

  lemma RunRests(s: State, s': State, step: Step, t: nat)
    requires |s.gens| > 0 && t < |s.threads| <= |s'.threads| && s'.threads[t] == s.threads[t] && InRun(s.threads[t])
    requires step != Fail(t)
    ensures RunStep(s, s', step, t)
  {
  }

  lemma MoreThreads(s: State, step: Step)
    requires Enabled(s, step)
    ensures |s.threads| <= |Apply(s, step).threads|
  {
    hide ApplyGo, CanGo;
    if step.Go? { SpawnedByGo(s, step.t); }
  }

  /**
   run() ends in one of three ways: it has called OnOpen, seen to the heartbeat
   and started the read goroutine; it panicked; or OnOpen failed, and then the session is closed and detached.
   */
  lemma RunEnds(s: State, step: Step, t: nat)
    requires Inv(s) && Enabled(s, step) && t < |s.threads| && InRun(s.threads[t])
    ensures RunStep(s, Apply(s, step), step, t)
    ensures s.threads[t] == Run(RunReturn(Detached)) ==> Cur(s).once.Finished? && Cur(s).attrs.None?
  {
    Positive(s);
    if s.threads[t] == Run(RunReturn(Detached)) { EndFacts(s, t); }
    hide Inv, ApplyGo, CanGo, ApplyFail, CanFail, RunStep, InRun;
    if step == Go(t) {
      RunGoes(s, t);
    } else if Own(step, t) {
      RunCalls(s, step, t);
    } else {
      OthersLeave(s, step, t);
      MoreThreads(s, step);
      RunRests(s, Apply(s, step), step, t);
    }
  }

  // ---- What an open session admits ----

  /** Until its stop() begins, a generation is open: done, lifecycle and attributes are there for everybody. */
  lemma OpenUntilStopped(tr: seq<State>, steps: seq<Step>, i: nat)
    requires Behaviour(tr, steps) && i < |tr|
    ensures |tr[i].gens| > 0
    ensures var c := Cur(tr[i]); c.once.Idle? ==> c.doneCloses == 0 && !c.lcClosed && c.attrs.Some?
  {
    Reachable(tr, steps, i);
  }

  /**
   run() is refused exactly while a reset is pending; WritePkg goes on exactly while
   done is open; and a heartbeat is installed exactly if the session is still open then.
   */
  lemma AdmittedExactly(s: State, t: nat)
    requires |s.gens| > 0 && t < |s.threads| && CanGo(s, t)
    ensures var pc, s' := s.threads[t], ApplyGo(s, t);
            && (pc.RunStart? ==> s'.threads == s.threads[t := if s.resetRun.None? then Run(Check) else Exited]
                                 && s'.gr == s.gr + if s.resetRun.None? then 1 else 0)
            && (pc.WriteCheck? ==> s'.threads == s.threads[t := if Cur(s).doneCloses == 0 then WriteCapture else Exited])
            && (pc.WriteCapture? ==> s'.threads == s.threads[t := Acquire(Now(s), None)])
            && (pc == Run(Install) ==> s'.threads == s.threads[t := Run(StartLoop)] && Cur(s').timer == (Cur(s).timer || Cur(s).doneCloses == 0))
  {
    hide GoStop, GoWorker, GoCallback, GoLoop, Gc, PacketLockFree;
  }

  /** A write that finds the session open waits for packetLock and then sends; one that does not returns. */
  lemma WritesExactly(s: State, t: nat)
    requires |s.gens| > 0 && t < |s.threads| && CanGo(s, t) && s.threads[t].Raw?
    ensures var pc, next := s.threads[t], ApplyGo(s, t).threads;
            && (pc.raw.Enter? ==>
                  next == s.threads[t := if Cur(s).doneCloses == 0 then Raw(Wait, pc.exclusive, pc.at) else Return(pc.at)])
            && (pc.raw.Wait? ==> next == s.threads[t := Raw(Sending, pc.exclusive, pc.at)])
            && (pc.raw.Sending? ==> next == s.threads[t := Return(pc.at)])
  {
    hide GoRun, GoLoop, GoStop, GoWorker, GoCallback, Gc, PacketLockFree;
  }

  /** Where a call of the application begins: from its own goroutines, and from inside a callback. */
  lemma CallsBegin(s: State, step: Step)
    requires Enabled(s, step)
    ensures var ts := Apply(s, step).threads;
            && (step.CallRun? ==> ts == s.threads + [RunStart])
            && (step.CallClose? ==> ts == s.threads + [StopEnter(From(Outside))])
            && (step.CallWritePkg? ==> ts == s.threads + [WriteCheck])
            && (step.CallWriteBytes? ==> ts == s.threads + [Raw(Enter, step.exclusive, Outside)])
            && (step.CallSend? ==> ts == s.threads + [Raw(Wait, false, Outside)])
            && (step.NestedClose? ==> ts == s.threads[step.t := StopEnter(From(Spend(s.threads[step.t].site)))])
            && (step.NestedWrite? ==> ts == s.threads[step.t := Raw(Wait, step.exclusive, Spend(s.threads[step.t].site))])
  {
    hide ApplyGo, CanGo;
    assert s.threads + [] == s.threads;
  }

  /**
   A read brings a new batch of packages; every timer tick, and every package that
   is handed over, becomes a task that asks for a unit of its lifecycle.
   */
  lemma TasksAsk(s: State, step: Step)
    requires Enabled(s, step) && (step.Receive? || step.TimerFires? || step.Dispatch?)
    ensures var s' := Apply(s, step);
            if step.Receive? then s'.threads == s.threads[step.t := Loop(Serve(s.limit))]
            else if step.TimerFires? then s'.threads == s.threads + [Acquire(step.lc, None)]
            else if step.pooled then |s'.threads| == |s.threads| + 1 && s'.threads[|s.threads|] == Acquire(Now(s), None)
            else |s'.threads| == |s.threads| && s'.threads[step.t].Acquire? && s'.threads[step.t].lc == Now(s)
  {
    hide ApplyGo, CanGo;
    assert forall ts: seq<Pc> :: ts + [] == ts;
  }

  /** A task gets its unit, and its callback, exactly while its lifecycle is open. */
  lemma AcquiredExactly(s: State, t: nat)
    requires |s.gens| > 0 && t < |s.threads| && CanGo(s, t) && s.threads[t].Acquire?
    ensures var pc, s' := s.threads[t], ApplyGo(s, t);
            var open := !s.gens[pc.lc].lcClosed;
            && s'.threads == s.threads[t := if open then Callback(Task(pc.lc, s.limit, pc.inLoop)) else AfterTask(pc.inLoop)]
            && s'.gens[pc.lc].lcCount == s.gens[pc.lc].lcCount + if open then 1 else 0
  {
    hide GoRun, GoLoop, GoStop, GoWorker, GoCallback, Gc, PacketLockFree;
  }

  /** The Connection goes to a closing goroutine exactly when the attributes are taken. */
  ghost predicate Detaches(s: State, s': State) {
    && |s'.gens| == |s.gens| > 0 && |s'.threads| >= |s.threads|
    && var started := |s'.threads| > |s.threads| && s'.threads[|s.threads|].CloseConn?;
       && (started <==> Cur(s).conn && !Cur(s').conn)
       && (started ==> s'.threads[|s.threads|] == CloseConn(Now(s)) && Cur(s).attrs.Some? && Cur(s').attrs.None?)
       && (Cur(s).attrs.Some? && Cur(s').attrs.None? ==> !Cur(s').conn)
  }

  lemma StopDetaches(s: State, t: nat)
    requires |s.gens| > 0 && t < |s.threads| && CanGo(s, t) && s.threads[t].Stop?
    ensures Detaches(s, ApplyGo(s, t))
  {
    GoIsStop(s, t);
    hide ApplyGo, CanGo;
  }

  lemma LoopDetaches(s: State, t: nat)
    requires |s.gens| > 0 && t < |s.threads| && CanGo(s, t)
    requires s.threads[t].Run? || s.threads[t].Loop? || (s.threads[t].Worker? && !s.threads[t].w.Clear?)
    ensures Detaches(s, ApplyGo(s, t))
  {
    hide GoStop, GoCallback, Deliver, PacketLockFree;
  }

  lemma OtherDetaches(s: State, t: nat)
    requires |s.gens| > 0 && t < |s.threads| && CanGo(s, t)
    requires !s.threads[t].Run? && !s.threads[t].Loop? && !s.threads[t].Stop? && !s.threads[t].Worker?
    ensures Detaches(s, ApplyGo(s, t))
  {
    hide GoRun, GoLoop, GoStop, GoWorker, Gc, PacketLockFree;
  }

  /**
   The Connection of a generation is handed to a closing goroutine exactly when
   gc() takes the attributes, and by nobody else; so it is closed at most once.
   */
  lemma DetachedExactly(s: State, t: nat)
    requires |s.gens| > 0 && t < |s.threads| && CanGo(s, t) && s.threads[t] != Worker(Clear)
    ensures Detaches(s, ApplyGo(s, t))
  {
    hide ApplyGo, CanGo, Detaches;
    if s.threads[t].Stop? {
      StopDetaches(s, t);
    } else if s.threads[t].Run? || s.threads[t].Loop? || s.threads[t].Worker? {
      LoopDetaches(s, t);
    } else {
      OtherDetaches(s, t);
    }
  }
}
