/** Every step of the session machine keeps the invariant. */
module SessionSteps {
  import opened Options
  import opened Sequences
  import opened SessionState
  import opened SessionInvariant

  /** A goroutine that holds a unit of a lifecycle holds it of the current one. */
  lemma HolderIsCurrent(s: State, t: nat, lc: nat)
    requires Inv(s) && t < |s.threads| && lc <= Now(s)
    requires Units(s.threads[t], Lc(lc)) > 0
    ensures lc == Now(s) && Cur(s).lcCount >= Units(s.threads[t], Lc(lc))
  {
    TotalBounds(s.threads, t, UnitsOf(Lc(lc)));
  }

  lemma GrHeld(s: State, t: nat)
    requires Inv(s) && t < |s.threads|
    ensures s.gr >= Units(s.threads[t], Gr)
  {
    TotalBounds(s.threads, t, UnitsOf(Gr));
  }

  lemma StepFacts(s: State, t: nat)
    requires Inv(s) && t < |s.threads|
    ensures ThreadOK(Now(s), Cur(s), s.gr, s.resetRun, t, s.threads[t])
    ensures CurOK(Cur(s), s.threads)
    ensures s.gr >= Units(s.threads[t], Gr)
    ensures WorkerAlive(s.threads, s.resetRun)
  {
    GrHeld(s, t);
  }


  /** A goroutine moves on without touching the shared state or what it holds. */
  lemma Quiet(s: State, t: nat, pc: Pc)
    requires Inv(s) && t < |s.threads|
    requires ThreadOK(Now(s), Cur(s), s.gr, s.resetRun, t, pc)
    requires forall r :: Units(pc, r) == Units(s.threads[t], r)
    requires IsWorker(pc) == IsWorker(s.threads[t])
    requires InBody(s.threads[t]) ==> InBody(pc)
    ensures Inv(Jump(s, t, pc))
  {
    hide Inv, Counts, Olds, Threads, ChansOK, Sum, ThreadOK, Units, IsWorker, InBody;
    StepFacts(s, t);
    Local(s, t, pc, Cur(s), s.gr, []);
  }

  lemma RunKeeps(s: State, t: nat, r: RunStage)
    requires Inv(s) && t < |s.threads| && CanGo(s, t) && s.threads[t] == Run(r) && !r.RunGc?
    ensures Inv(GoRun(s, t, r))
  {
    hide Inv, Counts, Olds, Threads, ChansOK, Sum;
    StepFacts(s, t);
    var c := Cur(s);
    match r {
      case Check => Quiet(s, t, Callback(Opening(s.limit)));
      case Install =>
        if c.doneCloses == 0 { Local(s, t, Run(StartLoop), c.(timer := true, armed := true), s.gr, []); }
        else { Quiet(s, t, Run(StartLoop)); }
      case StartLoop => Local(s, t, Run(RunReturn(Started)), c, s.gr + 1, [Loop(Serve(0))]);
      case RunReturn(_) => Local(s, t, Exited, c, s.gr - 1, []);
    }
  }

  /** gc() runs only after the once body: by a grWG goroutine or by the reset worker. */
  lemma GcKeeps(s: State, t: nat, next: Pc)
    requires Inv(s) && t < |s.threads| && Cur(s).once.Finished?
    requires || (s.threads[t] == Run(RunGc) && next == Run(RunReturn(Detached)))
             || (s.threads[t] == Loop(LoopGc) && next == Loop(LoopReturn))
             || (s.threads[t] == Worker(GcSession(Now(s))) && next == Worker(WaitLc(Now(s))))
    ensures Inv(Gc(s, t, next))
  {
    hide Inv, Counts, Olds, Threads, ChansOK, Sum;
    StepFacts(s, t);
    var c := Cur(s);
    if c.attrs.None? {
      Quiet(s, t, next);
    } else if c.conn {
      Local(s, t, next, c.(attrs := None, conn := false, lcCount := c.lcCount + 1), s.gr, [CloseConn(Now(s))]);
    } else {
      Local(s, t, next, c.(attrs := None), s.gr, []);
    }
  }

  lemma LoopKeeps(s: State, t: nat, l: LoopStage)
    requires Inv(s) && t < |s.threads| && CanGo(s, t) && s.threads[t] == Loop(l)
    ensures Inv(GoLoop(s, t, l))
  {
    hide Inv, Counts, Olds, Threads, ChansOK, Sum, Gc;
    StepFacts(s, t);
    match l {
      case Serve(_) => Quiet(s, t, StopEnter(From(Closing(s.limit))));
      case LoopGc => GcKeeps(s, t, Loop(LoopReturn));
      case LoopReturn => Local(s, t, Exited, Cur(s), s.gr - 1, []);
    }
  }

  lemma AfterStopOK(s: State, t: nat, k: Caller, cur: Generation)
    requires |s.gens| > 0 && (k != From(Outside) ==> cur.once.Finished?)
    requires ThreadOK(Now(s), Cur(s), s.gr, s.resetRun, t, StopEnter(k))
    ensures ThreadOK(Now(s), cur, s.gr, s.resetRun, t, AfterStop(k))
    ensures forall r :: Units(AfterStop(k), r) == HeldBy(k, r)
    ensures IsWorker(AfterStop(k)) == k.ResetWorker?
  {
  }

  lemma StopDoKeeps(s: State, t: nat, g: nat, k: Caller)
    requires Inv(s) && t < |s.threads| && CanGo(s, t) && s.threads[t] == Stop(g, k, Do)
    ensures Inv(GoStop(s, t, g, k, Do))
  {
    StepFacts(s, t);
    var c := Cur(s);
    if g < Now(s) {
      assert OldOK(s.gens[g]);
    }
    hide Inv, Counts, Olds, Threads, ChansOK, Sum;
    if s.gens[g].once.Finished? {
      AfterStopOK(s, t, k, c);
      hide ThreadOK;
      Quiet(s, t, AfterStop(k));
    } else {
      Local(s, t, Stop(g, k, CloseDone), c.(once := Running(t)), s.gr, []);
      assert GoStop(s, t, g, k, Do) == Move(s, t, Stop(g, k, CloseDone), c.(once := Running(t)), s.gr, []);
    }
  }

  /** A goroutine changes the current generation without taking or giving back a unit. */
  lemma Steady(s: State, t: nat, pc: Pc, cur: Generation)
    requires Inv(s) && t < |s.threads| && cur.lcCount == Cur(s).lcCount
    requires Rely(Cur(s), cur, s.gr, s.gr, s.resetRun, t) && ThreadOK(Now(s), cur, s.gr, s.resetRun, t, pc)
    requires forall r :: Units(pc, r) == Units(s.threads[t], r)
    requires IsWorker(pc) == IsWorker(s.threads[t]) && CurOK(cur, s.threads[t := pc])
    ensures Inv(Move(s, t, pc, cur, s.gr, []))
  {
    hide Inv, Counts, Olds, Threads, ChansOK, Sum, ThreadOK, Units, IsWorker, CurOK, Rely;
    Local(s, t, pc, cur, s.gr, []);
  }

  lemma StopHeadKeeps(s: State, t: nat, g: nat, k: Caller, b: StopStage)
    requires Inv(s) && t < |s.threads| && CanGo(s, t) && s.threads[t] == Stop(g, k, b)
    requires b.CloseDone? || b.TakeTimer? || b.CloseLc?
    ensures Inv(GoStop(s, t, g, k, b))
  {
    hide Inv, Counts, Olds, Threads, ChansOK, Sum, CanGo;
    StepFacts(s, t);
    hide RefsOK, WorkerOK, AfterClose, WorkerAlive;
    var c := Cur(s);
    match b {
      case CloseDone => Steady(s, t, Stop(g, k, TakeTimer), c.(doneCloses := c.doneCloses + 1));
      case TakeTimer => Steady(s, t, Stop(g, k, CloseLc(Now(s))), c.(timer := false));
      case CloseLc(lc) =>
        Steady(s, t, Stop(g, k, AddTask(lc)), c.(lcClosed := true));
        assert GoStop(s, t, g, k, b) == Move(s, t, Stop(g, k, AddTask(lc)), c.(lcClosed := true), s.gr, []);
    }
  }

  lemma StopAddTaskKeeps(s: State, t: nat, g: nat, k: Caller, lc: nat)
    requires Inv(s) && t < |s.threads| && CanGo(s, t) && s.threads[t] == Stop(g, k, AddTask(lc))
    ensures Inv(GoStop(s, t, g, k, AddTask(lc)))
  {
    hide Inv, Counts, Olds, Threads, ChansOK, Sum;
    StepFacts(s, t);
    var c' := Cur(s).(lcCount := Cur(s).lcCount + 1);
    Local(s, t, Stop(g, k, Fork(lc)), c', s.gr, []);
    assert GoStop(s, t, g, k, AddTask(lc)) == Move(s, t, Stop(g, k, Fork(lc)), c', s.gr, []);
  }

  lemma StopForkKeeps(s: State, t: nat, g: nat, k: Caller, lc: nat)
    requires Inv(s) && t < |s.threads| && CanGo(s, t) && s.threads[t] == Stop(g, k, Fork(lc))
    ensures Inv(GoStop(s, t, g, k, Fork(lc)))
  {
    hide Inv, Counts, Olds, Threads, ChansOK, Sum;
    StepFacts(s, t);
    Local(s, t, Stop(g, k, ReadClient), Cur(s).(forked := true), s.gr, [Callback(Task(lc, s.limit, None))]);
  }

  lemma StopTailKeeps(s: State, t: nat, g: nat, k: Caller, b: StopStage)
    requires Inv(s) && t < |s.threads| && CanGo(s, t) && s.threads[t] == Stop(g, k, b)
    requires b.ReadClient? || b.ReadFlag? || b.Trigger?
    ensures Inv(GoStop(s, t, g, k, b))
  {
    hide Inv, Counts, Olds, Threads, ChansOK, Sum;
    StepFacts(s, t);
    var c := Cur(s);
    match b {
      case ReadClient => Quiet(s, t, Stop(g, k, ReadFlag(c.attrs.Some? && c.attrs.value.hasClient)));
      case ReadFlag(hc) =>
        Quiet(s, t, Stop(g, k, Trigger(hc && c.attrs.Some? && c.attrs.value.ignore == Some(false))));
      case Trigger(fire) =>
        var c' := c.(once := Finished, reconnects := c.reconnects + if fire then 1 else 0);
        AfterStopOK(s, t, k, c');
        Steady(s, t, AfterStop(k), c');
        assert GoStop(s, t, g, k, b) == Move(s, t, AfterStop(k), c', s.gr, []);
    }
  }

  /** A lifecycle unit is given back: at the end of a task, or of the goroutine that closes the connection. */
  lemma ReleaseKeeps(s: State, t: nat, lc: nat, next: Pc)
    requires Inv(s) && t < |s.threads| && CanGo(s, t) && lc < |s.gens| && s.gens[lc].lcCount > 0
    requires || (s.threads[t] == CloseConn(lc) && next == Exited)
             || (s.threads[t].Callback? && s.threads[t].site.Task? && s.threads[t].site.lc == lc
                 && next == AfterTask(s.threads[t].site.loop))
    ensures Inv(Count(Jump(s, t, next), lc, -1))
  {
    hide Inv, Counts, Olds, Threads, ChansOK, Sum;
    StepFacts(s, t);
    HolderIsCurrent(s, t, lc);
    var c' := Cur(s).(lcCount := Cur(s).lcCount - 1);
    Local(s, t, next, c', s.gr, []);
    assert Count(Jump(s, t, next), lc, -1) == Move(s, t, next, c', s.gr, []);
  }

  /** Only the current lifecycle is open, and not after the once body. */
  lemma OpenIsCurrent(s: State, lc: nat)
    requires Inv(s) && lc < |s.gens| && !s.gens[lc].lcClosed
    ensures lc == Now(s) && !Cur(s).once.Finished?
  {
    assert lc < Now(s) ==> OldOK(s.gens[lc]);
  }

  lemma AcquireKeeps(s: State, t: nat, lc: nat, loop: Option<nat>)
    requires Inv(s) && t < |s.threads| && lc < |s.gens| && s.threads[t] == Acquire(lc, loop)
    requires !s.gens[lc].lcClosed
    ensures Inv(Count(Jump(s, t, Callback(Task(lc, s.limit, loop))), lc, 1))
  {
    hide Inv, Counts, Olds, Threads, ChansOK, Sum;
    OpenIsCurrent(s, lc);
    StepFacts(s, t);
    hide BodyOK, WorkerOK, WorkerAlive;
    var pc, c' := Callback(Task(lc, s.limit, loop)), Cur(s).(lcCount := Cur(s).lcCount + 1);
    assert CurOK(c', s.threads[t := pc]);
    hide CurOK;
    Local(s, t, pc, c', s.gr, []);
    assert Count(Jump(s, t, pc), lc, 1) == Move(s, t, pc, c', s.gr, []);
  }

  lemma CallbackKeeps(s: State, t: nat, site: Site)
    requires Inv(s) && t < |s.threads| && CanGo(s, t) && s.threads[t] == Callback(site)
    ensures Inv(GoCallback(s, t, site))
  {
    hide Inv, Counts, Olds, Threads, ChansOK, Sum;
    StepFacts(s, t);
    match site {
      case Opening(_) => Quiet(s, t, Run(Install));
      case Task(lc, _, loop) => ReleaseKeeps(s, t, lc, AfterTask(loop));
      case Closing(_) => Quiet(s, t, Loop(LoopGc));
    }
  }

  lemma WorkerMoveKeeps(s: State, t: nat, w: WorkerStage)
    requires Inv(s) && t < |s.threads| && CanGo(s, t) && s.threads[t] == Worker(w)
    requires WorkerRank(w) < 7
    ensures Inv(GoWorker(s, t, w))
  {
    hide Inv, Counts, Olds, Threads, ChansOK, Sum, Gc;
    StepFacts(s, t);
    var c := Cur(s);
    match w {
      case CloseRaw => Quiet(s, t, Worker(StopTimer));
      case StopTimer => Local(s, t, Worker(EndLc(Now(s))), c.(timer := false), s.gr, []);
      case EndLc(lc) =>
        Local(s, t, Worker(WaitGr(lc)), c.(lcClosed := true), s.gr, []);
        assert GoWorker(s, t, w) == Move(s, t, Worker(WaitGr(lc)), c.(lcClosed := true), s.gr, []);
      case WaitGr(lc) => Quiet(s, t, Worker(GcSession(lc)));
      case GcSession(lc) => GcKeeps(s, t, Worker(WaitLc(lc)));
      case WaitLc(_) => Quiet(s, t, Worker(LockPackets));
      case LockPackets => Quiet(s, t, Worker(Clear));
    }
  }

  /** With both counters at zero no goroutine holds a unit of any wait group. */
  lemma Nobody(s: State, u: nat)
    requires Inv(s) && u < |s.threads| && s.gr == 0 && Cur(s).lcCount == 0
    ensures Units(s.threads[u], Gr) == 0
    ensures forall g: nat :: Units(s.threads[u], Lc(g)) == 0
  {
    TotalBounds(s.threads, u, UnitsOf(Gr));
    forall g: nat ensures Units(s.threads[u], Lc(g)) == 0 {
      if g <= Now(s) {
        TotalBounds(s.threads, u, UnitsOf(Lc(g)));
      }
    }
  }

  /** Everything that is inside the session holds a unit, apart from the once body. */
  predicate Inside(pc: Pc) {
    || pc.Run? || pc.Loop? || pc.CloseConn?
    || (pc.Callback? && !pc.site.Outside?) || (pc.Raw? && !pc.at.Outside?)
    || ((pc.StopEnter? || pc.Stop?) && pc.k != From(Outside) && !pc.k.ResetWorker?)
  }

  lemma InsideHolds(pc: Pc)
    requires Inside(pc)
    ensures Units(pc, Gr) > 0 || exists lc: nat :: Units(pc, Lc(lc)) > 0
  {
    if pc.CloseConn? {
      assert Units(pc, Lc(pc.lc)) > 0;
    } else if pc.Callback? && pc.site.Task? {
      assert Units(pc, Lc(pc.site.lc)) > 0;
    } else if pc.Raw? && pc.at.Task? {
      assert Units(pc, Lc(pc.at.lc)) > 0;
    } else if (pc.StopEnter? || pc.Stop?) && pc.k.From? && pc.k.site.Task? {
      assert Units(pc, Lc(pc.k.site.lc)) > 0;
    }
  }

  lemma NobodyInside(s: State, u: nat)
    requires Inv(s) && u < |s.threads| && s.gr == 0 && Cur(s).lcCount == 0
    ensures !Inside(s.threads[u])
  {
    Nobody(s, u);
    if Inside(s.threads[u]) {
      InsideHolds(s.threads[u]);
    }
  }

  lemma ClearThread(s: State, t: nat, u: nat)
    requires Inv(s) && t < |s.threads| && u < |s.threads| && s.threads[t] == Worker(Clear)
    ensures ThreadOK(Now(s) + 1, Fresh(false), s.gr, s.resetRun, u, s.threads[t := Worker(Drain(true))][u])
  {
    StepFacts(s, t);
    StepFacts(s, u);
    NobodyInside(s, u);
    Nobody(s, u);
    hide Inv, Counts, Olds, Threads, ChansOK, Sum;
  }

  lemma ClearCounts(s: State, t: nat)
    requires Inv(s) && t < |s.threads| && s.threads[t] == Worker(Clear)
    ensures Counts(GoWorker(s, t, Clear))
  {
    StepFacts(s, t);
    InvCounts(s);
    hide Total, Olds, Threads, CurOK, ChansOK, ThreadOK;
    var s' := GoWorker(s, t, Clear);
    assert s.gr == 0 && Cur(s).lcCount == 0 by { ClearFacts(s, t); }
    TotalUpdate(s.threads, t, Worker(Drain(true)), UnitsOf(Gr));
    forall u | 0 <= u < |s'.threads| ensures UnitsOf(Lc(|s.gens|))(s'.threads[u]) == 0 {
      Nobody(s, u);
    }
    TotalZero(s'.threads, UnitsOf(Lc(|s.gens|)));
    forall g | 0 <= g < |s.gens| ensures s'.gens[g].lcCount == Sum(s'.threads, Lc(g)) {
      TotalUpdate(s.threads, t, Worker(Drain(true)), UnitsOf(Lc(g)));
    }
  }

  lemma ClearFacts(s: State, t: nat)
    requires Inv(s) && t < |s.threads| && s.threads[t] == Worker(Clear)
    ensures s.gr == 0 && Cur(s).lcCount == 0
  {
    StepFacts(s, t);
  }

  /** The field-clearing section: nothing that another goroutine holds survives into it. */
  lemma ClearKeeps(s: State, t: nat)
    requires Inv(s) && t < |s.threads| && s.threads[t] == Worker(Clear)
    ensures Inv(GoWorker(s, t, Clear))
  {
    StepFacts(s, t);
    ClearCounts(s, t);
    var s' := GoWorker(s, t, Clear);
    forall u | 0 <= u < |s'.threads|
      ensures ThreadOK(Now(s'), Cur(s'), s'.gr, s'.resetRun, u, s'.threads[u])
    {
      ClearThread(s, t, u);
    }
    hide Counts, ThreadOK, ChansOK;
  }

  lemma {:induction false} Delivered(chans: seq<Chan>, results: seq<nat>, ok: bool, id: nat)
    requires Known(results, |chans|) && Distinct(results) && id < |chans|
    ensures Deliver(chans, results, ok)[id]
         == if id in results then Chan(chans[id].sent + [ok], true) else chans[id]
    decreases |results|
  {
    if results != [] {
      var next := chans[results[0] := Chan(chans[results[0]].sent + [ok], true)];
      assert forall i | 0 <= i < |results[1..]| :: results[1..][i] == results[i + 1];
      Delivered(next, results[1..], ok, id);
      assert results == [results[0]] + results[1..];
    }
  }

  lemma DrainChans(chans: seq<Chan>, run: ResetRun, ok: bool)
    requires ChansOK(chans, Some(run))
    ensures ChansOK(Deliver(chans, run.results, ok), None)
  {
    forall id | 0 <= id < |chans|
      ensures |Deliver(chans, run.results, ok)[id].sent| == 1 && Deliver(chans, run.results, ok)[id].closed
    {
      Delivered(chans, run.results, ok, id);
    }
  }

  /** The worker is the only goroutine that mentions the reset run. */
  lemma OnlyWorker(s: State, u: nat)
    requires Inv(s) && u < |s.threads| && s.resetRun.Some? && u != s.resetRun.value.worker
    ensures !IsWorker(s.threads[u])
    ensures ThreadOK(Now(s), Cur(s), s.gr, None, u, s.threads[u])
  {
    StepFacts(s, u);
  }

  lemma DrainThreads(s: State, t: nat, ok: bool)
    requires Inv(s) && t < |s.threads| && s.threads[t] == Worker(Drain(ok)) && CanGo(s, t)
    ensures Threads(GoWorker(s, t, Drain(ok)))
  {
    hide ChansOK, Counts, Deliver;
    var s' := GoWorker(s, t, Drain(ok));
    StepFacts(s, t);
    assert ThreadOK(Now(s), Cur(s), s.gr, None, t, Exited);
    forall u | 0 <= u < |s'.threads|
      ensures ThreadOK(Now(s'), Cur(s'), s'.gr, s'.resetRun, u, s'.threads[u])
    {
      if u != t { OnlyWorker(s, u); }
    }
  }

  lemma CurOKElsewhere(cur: Generation, ts: seq<Pc>, t: nat, pc: Pc)
    requires CurOK(cur, ts) && t < |ts| && !InBody(ts[t])
    ensures CurOK(cur, ts[t := pc])
  {
  }

  lemma DrainCounts(s: State, t: nat, ok: bool)
    requires Inv(s) && t < |s.threads| && s.threads[t] == Worker(Drain(ok)) && CanGo(s, t)
    ensures Counts(GoWorker(s, t, Drain(ok)))
  {
    hide Inv, Deliver, Total;
    assert Counts(s) by { InvCounts(s); }
    forall r ensures Sum(s.threads[t := Exited], r) == Sum(s.threads, r) {
      TotalUpdate(s.threads, t, Exited, UnitsOf(r));
    }
  }

  lemma InvCounts(s: State)
    requires Inv(s)
    ensures Counts(s)
  {
  }

  lemma DrainKeeps(s: State, t: nat, ok: bool)
    requires Inv(s) && t < |s.threads| && s.threads[t] == Worker(Drain(ok)) && CanGo(s, t)
    ensures Inv(GoWorker(s, t, Drain(ok)))
  {
    DrainCounts(s, t, ok);
    DrainThreads(s, t, ok);
    DrainChans(s.chans, s.resetRun.value, ok);
    CurOKElsewhere(Cur(s), s.threads, t, Exited);
    hide Counts, Threads, ThreadOK, CurOK, OldOK, ChansOK, Deliver;
  }

  /** Starting a goroutine that holds nothing yet and is not the worker. */
  lemma SpawnKeeps(s: State, pc: Pc)
    requires Inv(s)
    requires forall r :: Units(pc, r) == 0
    requires !IsWorker(pc) && ThreadOK(Now(s), Cur(s), s.gr, s.resetRun, |s.threads|, pc)
    ensures Inv(s.(threads := s.threads + [pc]))
  {
    hide ThreadOK, ChansOK, Units, IsWorker, Sum;
    NewCounts(s, pc);
  }

  lemma RequestChans(s: State)
    requires ChansOK(s.chans, s.resetRun)
    ensures var id := |s.chans|;
            var run := if s.resetRun.Some? then s.resetRun.value.(results := s.resetRun.value.results + [id])
                       else ResetRun([id], 0, 0);
            forall f, w :: ChansOK(s.chans + [Chan([], false)], Some(run.(from := f, worker := w)))
  {
    var id := |s.chans|;
    if s.resetRun.Some? {
      var rs := s.resetRun.value.results;
      assert forall x :: x in rs + [id] <==> x in rs || x == id;
    }
  }

  lemma SameRun(c: nat, cur: Generation, gr: nat, run: ResetRun, results: seq<nat>, u: nat, pc: Pc)
    requires ThreadOK(c, cur, gr, Some(run), u, pc)
    ensures ThreadOK(c, cur, gr, Some(run.(results := results)), u, pc)
  {
  }

  lemma RequestKeeps(s: State)
    requires Inv(s)
    ensures Inv(Apply(s, CallResetAsync))
  {
    RequestChans(s);
    hide ApplyGo, ApplyFail, Deliver, Gc, Sum, OldOK, CurOK;
    var s' := Apply(s, CallResetAsync);
    assert ChansOK(s'.chans, s'.resetRun);
    hide ChansOK;
    if s.resetRun.Some? {
      hide ThreadOK;
      forall u | 0 <= u < |s'.threads|
        ensures ThreadOK(Now(s'), Cur(s'), s'.gr, s'.resetRun, u, s'.threads[u])
      {
        SameRun(Now(s), Cur(s), s.gr, s.resetRun.value, s'.resetRun.value.results, u, s.threads[u]);
      }
    } else {
      NewWorker(s);
      hide Counts, Threads, ThreadOK;
    }
  }

  /** Without a pending run nobody is a worker, so a new run changes nothing for anybody. */
  lemma NewRun(c: nat, cur: Generation, gr: nat, run: ResetRun, u: nat, pc: Pc)
    requires ThreadOK(c, cur, gr, None, u, pc)
    ensures ThreadOK(c, cur, gr, Some(run), u, pc)
  {
  }

  lemma NewWorker(s: State)
    requires Inv(s) && s.resetRun.None?
    ensures var s' := Apply(s, CallResetAsync);
            Counts(s') && Threads(s') && CurOK(Cur(s'), s'.threads) && WorkerAlive(s'.threads, s'.resetRun)
  {
    hide ApplyGo, ApplyFail, ChansOK, Deliver, Gc;
    var w := StopEnter(ResetWorker);
    var s' := Apply(s, CallResetAsync);
    var run := ResetRun([|s.chans|], Now(s), |s.threads|);
    assert s'.threads == s.threads + [w] && s'.resetRun == Some(run) && s'.gens == s.gens && s'.gr == s.gr;
    assert ThreadOK(Now(s), Cur(s), s.gr, Some(run), |s.threads|, w);
    NewCounts(s, w);
    SpawnKeepsCur(Cur(s), s.threads, [w]);
    assert IsWorker(w);
    hide ThreadOK, CurOK, Apply, Units, Sum, IsWorker;
    forall u | 0 <= u < |s'.threads|
      ensures ThreadOK(Now(s'), Cur(s'), s'.gr, s'.resetRun, u, s'.threads[u])
    {
      if u < |s.threads| {
        assert ThreadOK(Now(s), Cur(s), s.gr, None, u, s.threads[u]);
        NewRun(Now(s), Cur(s), s.gr, run, u, s.threads[u]);
      }
    }
  }

  lemma NewCounts(s: State, pc: Pc)
    requires Counts(s) && forall r :: Units(pc, r) == 0
    ensures s.gr == Sum(s.threads + [pc], Gr)
    ensures forall g | 0 <= g < |s.gens| :: s.gens[g].lcCount == Sum(s.threads + [pc], Lc(g))
  {
    hide Total, Units;
    TotalAppend(s.threads, pc, UnitsOf(Gr));
    forall g | 0 <= g < |s.gens| ensures s.gens[g].lcCount == Sum(s.threads + [pc], Lc(g)) {
      TotalAppend(s.threads, pc, UnitsOf(Lc(g)));
    }
  }

  /** SetAttribute and Attach change the current generation without any goroutine moving. */
  lemma OutsideKeeps(s: State, cur: Generation)
    requires Inv(s)
    requires cur == Cur(s).(attrs := cur.attrs, conn := cur.conn)
    requires cur.attrs.None? == Cur(s).attrs.None?
    requires s.resetRun.Some? ==> cur.conn == Cur(s).conn
    ensures Inv(s.(gens := s.gens[|s.gens| - 1 := cur]))
  {
    hide ChansOK, Sum;
    var s' := s.(gens := s.gens[|s.gens| - 1 := cur]);
    forall u | 0 <= u < |s'.threads|
      ensures ThreadOK(Now(s'), Cur(s'), s'.gr, s'.resetRun, u, s'.threads[u])
    {
      StepFacts(s, u);
    }
  }

  lemma EntryKeeps(s: State, t: nat)
    requires Inv(s) && t < |s.threads| && CanGo(s, t)
    requires s.threads[t].RunStart? || s.threads[t].StopEnter? || s.threads[t].WriteCheck? || s.threads[t].WriteCapture?
    ensures Inv(ApplyGo(s, t))
  {
    hide Inv, Counts, Olds, Threads, ChansOK, Sum, GoRun, GoLoop, GoCallback, GoStop, GoWorker, PacketLockFree;
    StepFacts(s, t);
    match s.threads[t] {
      case RunStart =>
        if s.resetRun.Some? { Quiet(s, t, Exited); } else { Local(s, t, Run(Check), Cur(s), s.gr + 1, []); }
      case StopEnter(k) => Quiet(s, t, Stop(Now(s), k, Do));
      case WriteCheck => Quiet(s, t, if Cur(s).doneCloses > 0 then Exited else WriteCapture);
      case WriteCapture => Quiet(s, t, Acquire(Now(s), None));
    }
  }

  lemma RawKeeps(s: State, t: nat)
    requires Inv(s) && t < |s.threads| && CanGo(s, t) && s.threads[t].Raw?
    ensures Inv(ApplyGo(s, t))
  {
    hide Inv, Counts, Olds, Threads, ChansOK, Sum, GoRun, GoLoop, GoCallback, GoStop, GoWorker, PacketLockFree;
    hide BodyOK, WorkerOK, CurOK;
    StepFacts(s, t);
    var pc := s.threads[t];
    Quiet(s, t, if pc.raw.Sending? || (pc.raw.Enter? && Cur(s).doneCloses > 0) then Return(pc.at)
                else Raw(if pc.raw.Enter? then Wait else Sending, pc.exclusive, pc.at));
  }

  lemma RefusedKeeps(s: State, t: nat, lc: nat, loop: Option<nat>)
    requires Inv(s) && t < |s.threads| && s.threads[t] == Acquire(lc, loop)
    ensures Inv(Jump(s, t, AfterTask(loop)))
  {
    hide Inv, Counts, Olds, Threads, ChansOK, Sum;
    StepFacts(s, t);
    Quiet(s, t, AfterTask(loop));
  }

  lemma GoKeeps(s: State, t: nat)
    requires Inv(s) && t < |s.threads| && CanGo(s, t)
    ensures Inv(ApplyGo(s, t))
  {
    StepFacts(s, t);
    hide Inv, Gc, Units, CurOK, BodyOK, WorkerOK, WorkerAlive, GoStop, GoLoop, GoWorker, GoCallback, Move, Count, Jump;
    match s.threads[t] {
      case Run(r) => if r.RunGc? { GcKeeps(s, t, Run(RunReturn(Detached))); } else { RunKeeps(s, t, r); }
      case Loop(l) => LoopKeeps(s, t, l);
      case Stop(g, k, b) => StopKeeps(s, t, g, k, b);
      case Acquire(lc, loop) =>
        if s.gens[lc].lcClosed { RefusedKeeps(s, t, lc, loop); } else { AcquireKeeps(s, t, lc, loop); }
      case CloseConn(lc) => ReleaseKeeps(s, t, lc, Exited);
      case Callback(site) => CallbackKeeps(s, t, site);
      case Raw(_, _, _) => RawKeeps(s, t);
      case Worker(w) => WorkerKeeps(s, t, w);
      case _ => EntryKeeps(s, t);
    }
  }

  lemma StopKeeps(s: State, t: nat, g: nat, k: Caller, b: StopStage)
    requires Inv(s) && t < |s.threads| && CanGo(s, t) && s.threads[t] == Stop(g, k, b)
    ensures Inv(GoStop(s, t, g, k, b))
  {
    hide Inv, GoStop;
    match b {
      case Do => StopDoKeeps(s, t, g, k);
      case AddTask(lc) => StopAddTaskKeeps(s, t, g, k, lc);
      case Fork(lc) => StopForkKeeps(s, t, g, k, lc);
      case ReadClient => StopTailKeeps(s, t, g, k, b);
      case ReadFlag(_) => StopTailKeeps(s, t, g, k, b);
      case Trigger(_) => StopTailKeeps(s, t, g, k, b);
      case _ => StopHeadKeeps(s, t, g, k, b);
    }
  }

  lemma WorkerKeeps(s: State, t: nat, w: WorkerStage)
    requires Inv(s) && t < |s.threads| && CanGo(s, t) && s.threads[t] == Worker(w)
    ensures Inv(GoWorker(s, t, w))
  {
    hide Inv, GoWorker;
    match w {
      case Clear => ClearKeeps(s, t);
      case Drain(ok) => DrainKeeps(s, t, ok);
      case _ => WorkerMoveKeeps(s, t, w);
    }
  }

  lemma FailKeeps(s: State, t: nat)
    requires Inv(s) && t < |s.threads| && CanFail(s, t)
    ensures Inv(ApplyFail(s, t))
  {
    hide Inv, Counts, Olds, Threads, ChansOK, Sum;
    StepFacts(s, t);
    match s.threads[t] {
      case Run(_) => Quiet(s, t, Run(RunReturn(Panicked)));
      case Callback(_) => Quiet(s, t, StopEnter(OnOpenFailed));
      case Worker(_) => Quiet(s, t, Worker(Drain(false)));
    }
  }

  /** Every step of every goroutine, and every call from outside, keeps the invariant. */
  lemma StepKeeps(s: State, step: Step)
    requires Inv(s) && Enabled(s, step)
    ensures Inv(Apply(s, step))
  {
    hide Inv, ApplyGo, ApplyFail, CanGo, CanFail;
    if Spawns(s, step) {
      SpawnStep(s, step);
    } else {
      OtherStep(s, step);
    }
  }

  /** Calls from outside that start one goroutine. */
  predicate Spawns(s: State, step: Step) {
    step.CallRun? || step.CallClose? || step.CallWritePkg? || step.CallWriteBytes? || step.CallSend?
    || step.TimerFires?
  }

  lemma SpawnStep(s: State, step: Step)
    requires Inv(s) && Enabled(s, step) && Spawns(s, step)
    ensures Inv(Apply(s, step))
  {
    hide ApplyGo, ApplyFail, CanGo, CanFail, Counts, Olds, Threads, CurOK, WorkerAlive, ChansOK;
    match step {
      case CallRun => SpawnKeeps(s, RunStart);
      case CallClose => SpawnKeeps(s, StopEnter(From(Outside)));
      case CallWritePkg => SpawnKeeps(s, WriteCheck);
      case CallWriteBytes(exclusive) => SpawnKeeps(s, Raw(Enter, exclusive, Outside));
      case CallSend => SpawnKeeps(s, Raw(Wait, false, Outside));
      case TimerFires(lc) => SpawnKeeps(s, Acquire(lc, None));
    }
  }

  lemma OtherStep(s: State, step: Step)
    requires Inv(s) && Enabled(s, step) && !Spawns(s, step)
    ensures Inv(Apply(s, step))
  {
    hide ApplyGo, ApplyFail, Counts, Olds, Threads, CurOK, WorkerAlive, ChansOK;
    match step {
      case CallResetAsync => RequestKeeps(s);
      case SetAttrs(a) => if Cur(s).attrs.Some? { OutsideKeeps(s, Cur(s).(attrs := Some(a))); }
      case Attach => OutsideKeeps(s, Cur(s).(conn := true));
      case Go(t) => GoKeeps(s, t);
      case Fail(t) => FailKeeps(s, t);
      case _ => ReadKeeps(s, step);
    }
  }

  /** The read loop takes packages, and callbacks call back into the session. */
  lemma ReadKeeps(s: State, step: Step)
    requires Inv(s) && Enabled(s, step)
    requires step.Receive? || step.Dispatch? || step.NestedClose? || step.NestedWrite?
    ensures Inv(Apply(s, step))
  {
    hide Inv, ApplyGo, ApplyFail, CanGo, CanFail;
    if step.Receive? || step.Dispatch? {
      ServeKeeps(s, step);
    } else {
      NestedKeeps(s, step);
    }
  }

  lemma ServeKeeps(s: State, step: Step)
    requires Inv(s) && Enabled(s, step) && (step.Receive? || step.Dispatch?)
    ensures Inv(Apply(s, step))
  {
    hide Inv, Counts, Olds, Threads, ChansOK, Sum, ApplyGo, ApplyFail, CanGo, CanFail, BodyOK, WorkerOK;
    var t := step.t;
    StepFacts(s, t);
    if step.Receive? {
      Quiet(s, t, Loop(Serve(s.limit)));
    } else {
      var m := s.threads[t].loop.m - 1;
      if step.pooled {
        Local(s, t, Loop(Serve(m)), Cur(s), s.gr, [Acquire(Now(s), None)]);
      } else {
        Quiet(s, t, Acquire(Now(s), Some(m)));
      }
    }
  }

  lemma NestedKeeps(s: State, step: Step)
    requires Inv(s) && Enabled(s, step) && (step.NestedClose? || step.NestedWrite?)
    ensures Inv(Apply(s, step))
  {
    hide Inv, Counts, Olds, Threads, ChansOK, Sum, ApplyGo, ApplyFail, CanGo, CanFail, BodyOK, WorkerOK, CurOK;
    var t := step.t;
    StepFacts(s, t);
    var site := Spend(s.threads[t].site);
    Quiet(s, t, if step.NestedClose? then StopEnter(From(site)) else Raw(Wait, step.exclusive, site));
  }
}
