/**
 How many steps the goroutines of a session can still take. A goroutine at a
 given place, and everything it starts, has a rank, and every step that is not
 a new call, a timer or a read lowers the sum.
 */
module SessionRank {
  import opened Options
  import opened Sequences
  import opened SessionState
  import opened SessionInvariant
  import opened SessionSteps
  import opened SessionTheorems
  import opened SessionResults

  /** The steps that goroutines take of themselves, without new calls, timers or reads. */
  predicate Inner(step: Step) { step.Go? || step.Fail? || step.Dispatch? || step.NestedClose? || step.NestedWrite? }

  // ---- How many steps are left ----

  /** The task of the close callbacks, before its first call. */
  function ForkRank(limit: nat): nat { 12 * limit + 1 }

  function ServeRank(limit: nat, m: nat): nat {
    if m == 0 then 12 * limit + 16 else 12 * limit + 3 + ServeRank(limit, m - 1)
  }

  function SiteRank(limit: nat, site: Site): nat {
    match site
    case Outside => 0
    case Opening(n) => 12 * n + 12 * limit + 20
    case Task(_, n, loop) => 12 * n + 1 + if loop.Some? then ServeRank(limit, loop.value) else 0
    case Closing(n) => 12 * n + 4
  }

  function AfterRank(limit: nat, k: Caller): nat {
    match k
    case From(site) => SiteRank(limit, site)
    case OnOpenFailed => 3
    case ResetWorker => 12 * limit + 11
  }

  function RunRank(limit: nat, r: RunStage): nat {
    match r
    case Check => 24 * limit + 21
    case Install => 12 * limit + 19
    case StartLoop => 12 * limit + 18
    case RunGc => 3
    case RunReturn(_) => 1
  }

  function StopRank(b: StopStage): nat {
    match b
    case Do => 10
    case CloseDone => 9
    case TakeTimer => 8
    case CloseLc(_) => 7
    case AddTask(_) => 6
    case Fork(_) => 5
    case ReadClient => 3
    case ReadFlag(_) => 2
    case Trigger(_) => 1
  }

  function WorkerSteps(limit: nat, w: WorkerStage): nat {
    match w
    case CloseRaw => 12 * limit + 11
    case StopTimer => 12 * limit + 10
    case EndLc(_) => 12 * limit + 9
    case WaitGr(_) => 12 * limit + 8
    case GcSession(_) => 12 * limit + 7
    case WaitLc(_) => 12 * limit + 5
    case LockPackets => 12 * limit + 4
    case Clear => 12 * limit + 3
    case Drain(_) => 1
  }

  /** A bound on the steps of a goroutine at pc and of all it starts, close callbacks apart. */
  function PcRank(limit: nat, pc: Pc): nat {
    match pc
    case RunStart => 24 * limit + 22
    case Run(r) => RunRank(limit, r)
    case Loop(l) => (match l case Serve(m) => ServeRank(limit, m) case LoopGc => 3 case LoopReturn => 1)
    case Callback(site) => SiteRank(limit, site)
    case StopEnter(k) => AfterRank(limit, k) + 11
    case Stop(_, k, b) => AfterRank(limit, k) + StopRank(b)
    case WriteCheck => 12 * limit + 4
    case WriteCapture => 12 * limit + 3
    case Acquire(_, loop) => 12 * limit + 2 + if loop.Some? then ServeRank(limit, loop.value) else 0
    case CloseConn(_) => 1
    case Raw(r, _, site) => SiteRank(limit, site) + (match r case Enter => 3 case Wait => 2 case Sending => 1)
    case Worker(w) => WorkerSteps(limit, w)
    case Exited => 0
  }

  function RankOf(limit: nat): Pc -> nat { pc => PcRank(limit, pc) }

  /** The close callbacks of the current generation are still to be started. */
  function Unforked(s: State): nat
    requires |s.gens| > 0
  {
    if Cur(s).forked then 0 else ForkRank(s.limit)
  }

  function Rank(s: State): nat
    requires |s.gens| > 0
  {
    Total(s.threads, RankOf(s.limit)) + Unforked(s)
  }

  function SpawnRank(limit: nat, spawn: seq<Pc>): nat
    requires |spawn| <= 1
  {
    if spawn == [] then 0 else PcRank(limit, spawn[0])
  }

  // ---- One step of one goroutine ----

  /** From s to s' goroutine t moves and starts at most one other; everybody else stays. */
  ghost predicate Moved(s: State, s': State, t: nat) {
    && |s.gens| > 0 && |s'.gens| > 0 && s'.limit == s.limit
    && t < |s.threads| <= |s'.threads| <= |s.threads| + 1
    && s'.threads == s.threads[t := s'.threads[t]] + s'.threads[|s.threads|..]
  }

  /** The step lowers the rank, starts nothing that holds packetLock, and takes the lock only when it is free. */
  ghost predicate Down(s: State, s': State, t: nat) {
    && |s.gens| > 0 && |s'.gens| > 0 && t < |s.threads| <= |s'.threads| <= |s.threads| + 1
    && PcRank(s.limit, s'.threads[t]) + SpawnRank(s.limit, s'.threads[|s.threads|..]) + Unforked(s')
       < PcRank(s.limit, s.threads[t]) + Unforked(s)
    && (|s'.threads| > |s.threads| ==> !HoldsPackets(s'.threads[|s.threads|]))
    && (HoldsPackets(s'.threads[t]) ==> PacketLockFree(s.threads, HoldsExclusively(s'.threads[t])))
  }

  lemma GoShape(s: State, t: nat)
    requires |s.gens| > 0 && t < |s.threads| && CanGo(s, t)
    ensures Moved(s, ApplyGo(s, t), t)
  {
    SpawnedByGo(s, t);
    GoLimit(s, t);
    hide ApplyGo, CanGo;
    var ts := ApplyGo(s, t).threads;
    forall u | 0 <= u < |s.threads| && u != t ensures ts[u] == s.threads[u] {
      UntouchedByGo(s, t, u);
    }
  }

  lemma GoLimit(s: State, t: nat)
    requires |s.gens| > 0 && t < |s.threads| && CanGo(s, t)
    ensures ApplyGo(s, t).limit == s.limit && |ApplyGo(s, t).gens| > 0
  {
    if s.threads[t].Stop? {
      hide GoRun, GoLoop, GoCallback, GoWorker, Gc;
    } else if s.threads[t].Worker? {
      hide GoStop, GoRun, GoLoop, GoCallback, Deliver;
    } else {
      hide GoStop, GoWorker;
    }
  }

  /** Down, from the pc that t moves to and what it starts. */
  lemma DownBy(s: State, s': State, t: nat, pc: Pc, spawn: seq<Pc>)
    requires |s.gens| > 0 && |s'.gens| > 0 && t < |s.threads| && |spawn| <= 1 && s'.threads == s.threads[t := pc] + spawn
    requires PcRank(s.limit, pc) + SpawnRank(s.limit, spawn) + Unforked(s') < PcRank(s.limit, s.threads[t]) + Unforked(s)
    requires spawn != [] ==> !HoldsPackets(spawn[0])
    requires HoldsPackets(pc) ==> PacketLockFree(s.threads, HoldsExclusively(pc))
    ensures Down(s, s', t)
  {
    hide PcRank, Unforked, HoldsPackets, HoldsExclusively, PacketLockFree;
    assert s'.threads[|s.threads|..] == spawn && s'.threads[t] == pc;
  }

  /** A plain move within a generation. */
  lemma DownTo(s: State, s': State, t: nat, pc: Pc)
    requires |s.gens| > 0 && |s'.gens| > 0 && t < |s.threads| && s'.threads == s.threads[t := pc]
    requires Cur(s').forked == Cur(s).forked && s'.limit == s.limit
    requires PcRank(s.limit, pc) < PcRank(s.limit, s.threads[t])
    requires HoldsPackets(pc) ==> PacketLockFree(s.threads, HoldsExclusively(pc))
    ensures Down(s, s', t)
  {
    hide PcRank, HoldsPackets, HoldsExclusively, PacketLockFree, Down;
    assert s'.threads == s.threads[t := pc] + [];
    DownBy(s, s', t, pc, []);
  }

  lemma GcDown(s: State, t: nat, next: Pc)
    requires |s.gens| > 0 && t < |s.threads| && !HoldsPackets(next)
    requires PcRank(s.limit, next) + 1 < PcRank(s.limit, s.threads[t])
    ensures Down(s, Gc(s, t, next), t)
  {
    hide PacketLockFree, Down;
    if Cur(s).attrs.Some? && Cur(s).conn {
      DownBy(s, Gc(s, t, next), t, next, [CloseConn(Now(s))]);
    } else {
      DownTo(s, Gc(s, t, next), t, next);
    }
  }

  lemma RunDown(s: State, t: nat)
    requires |s.gens| > 0 && t < |s.threads| && CanGo(s, t) && (s.threads[t].Run? || s.threads[t].Loop?)
    ensures Down(s, ApplyGo(s, t), t)
  {
    hide PacketLockFree, Gc, GoStop, GoWorker, GoCallback;
    if s.threads[t] == Run(RunGc) {
      GcDown(s, t, Run(RunReturn(Detached)));
    } else if s.threads[t] == Loop(LoopGc) {
      GcDown(s, t, Loop(LoopReturn));
    } else {
      var ts := ApplyGo(s, t).threads;
      assert ts[|s.threads|..] == if s.threads[t] == Run(StartLoop) then [Loop(Serve(0))] else [];
      if s.threads[t].Loop? && s.threads[t].loop.Serve? {
        ServeAtLeast(s.limit, s.threads[t].loop.m);
      }
    }
  }

  lemma {:induction false} ServeAtLeast(limit: nat, m: nat)
    ensures ServeRank(limit, m) >= 12 * limit + 16
  {
    if m > 0 {
      ServeAtLeast(limit, m - 1);
    }
  }

  lemma ReturnRank(limit: nat, site: Site)
    ensures PcRank(limit, Return(site)) == SiteRank(limit, site) && !HoldsPackets(Return(site))
  {
  }

  lemma AfterStopRank(limit: nat, k: Caller)
    ensures PcRank(limit, AfterStop(k)) == AfterRank(limit, k) && !HoldsPackets(AfterStop(k))
  {
  }

  lemma StopMoves(s: State, t: nat)
    requires |s.gens| > 0 && t < |s.threads| && CanGo(s, t) && s.threads[t].Stop? && !s.threads[t].stage.Fork?
    ensures Down(s, ApplyGo(s, t), t)
  {
    GoIsStop(s, t);
    AfterStopRank(s.limit, s.threads[t].k);
    hide ApplyGo, CanGo, SiteRank, ServeRank, PacketLockFree, Down, AfterRank, AfterStop;
    DownTo(s, ApplyGo(s, t), t, ApplyGo(s, t).threads[t]);
  }

  /** Starting the close callbacks: the body that does it is the first and only one of its generation. */
  lemma ForkDown(s: State, t: nat)
    requires Inv(s) && t < |s.threads| && CanGo(s, t) && s.threads[t].Stop? && s.threads[t].stage.Fork?
    ensures Down(s, ApplyGo(s, t), t)
  {
    StepFacts(s, t);
    var pc := s.threads[t];
    assert !Cur(s).forked;
    hide Inv, ThreadOK, CurOK;
    GoIsStop(s, t);
    hide ApplyGo, CanGo, SiteRank, ServeRank, PacketLockFree, Down, AfterRank;
    ForkTask(s.limit, pc.stage.lc);
    DownBy(s, ApplyGo(s, t), t, Stop(pc.g, pc.k, ReadClient), [Callback(Task(pc.stage.lc, s.limit, None))]);
  }

  lemma StopDown(s: State, t: nat)
    requires Inv(s) && t < |s.threads| && CanGo(s, t) && s.threads[t].Stop?
    ensures Down(s, ApplyGo(s, t), t)
  {
    Positive(s);
    hide Inv, CanGo, ApplyGo, Down;
    if s.threads[t].stage.Fork? {
      ForkDown(s, t);
    } else {
      StopMoves(s, t);
    }
  }

  lemma ForkTask(limit: nat, lc: nat)
    ensures SiteRank(limit, Task(lc, limit, None)) == ForkRank(limit)
  {
  }

  lemma WorkerMoves(s: State, t: nat)
    requires |s.gens| > 0 && t < |s.threads| && CanGo(s, t) && s.threads[t].Worker? && !s.threads[t].w.Clear?
    ensures Down(s, ApplyGo(s, t), t)
  {
    hide PacketLockFree, Gc, GoRun, GoLoop, GoStop, GoCallback, Deliver, Down;
    if s.threads[t].w.GcSession? {
      GcDown(s, t, Worker(WaitLc(s.threads[t].w.lc)));
    } else {
      DownTo(s, ApplyGo(s, t), t, ApplyGo(s, t).threads[t]);
    }
  }

  /** The clear starts a generation whose close callbacks are still to come. */
  lemma ClearDown(s: State, t: nat)
    requires Inv(s) && t < |s.threads| && CanGo(s, t) && s.threads[t] == Worker(Clear)
    ensures Down(s, ApplyGo(s, t), t)
  {
    Positive(s);
    hide Inv, PacketLockFree, Gc, GoRun, GoLoop, GoStop, GoCallback, Deliver, Down;
    var s' := ApplyGo(s, t);
    assert s'.threads == s.threads[t := Worker(Drain(true))] + [];
    assert Unforked(s') == ForkRank(s.limit);
    DownBy(s, s', t, Worker(Drain(true)), []);
  }

  lemma WorkerDown(s: State, t: nat)
    requires Inv(s) && t < |s.threads| && CanGo(s, t) && s.threads[t].Worker?
    ensures Down(s, ApplyGo(s, t), t)
  {
    Positive(s);
    hide Inv, CanGo, ApplyGo, Down;
    if s.threads[t].w.Clear? {
      ClearDown(s, t);
    } else {
      WorkerMoves(s, t);
    }
  }

  lemma CallbackDown(s: State, t: nat)
    requires |s.gens| > 0 && t < |s.threads| && CanGo(s, t) && (s.threads[t].Callback? || s.threads[t].CloseConn?)
    ensures Down(s, ApplyGo(s, t), t)
  {
    hide PacketLockFree, Gc, GoRun, GoLoop, GoStop, GoWorker, ServeRank, Down;
    DownTo(s, ApplyGo(s, t), t, ApplyGo(s, t).threads[t]);
  }

  lemma RawDown(s: State, t: nat)
    requires |s.gens| > 0 && t < |s.threads| && CanGo(s, t) && (s.threads[t].Raw? || s.threads[t].Acquire?)
    ensures Down(s, ApplyGo(s, t), t)
  {
    hide PacketLockFree, Gc, GoRun, GoLoop, GoStop, GoWorker, GoCallback, ServeRank, Down;
    if s.threads[t].Raw? {
      ReturnRank(s.limit, s.threads[t].at);
      hide SiteRank;
    }
    DownTo(s, ApplyGo(s, t), t, ApplyGo(s, t).threads[t]);
  }

  lemma EntryDown(s: State, t: nat)
    requires |s.gens| > 0 && t < |s.threads| && CanGo(s, t)
    requires s.threads[t].RunStart? || s.threads[t].StopEnter? || s.threads[t].WriteCheck? || s.threads[t].WriteCapture?
    ensures Down(s, ApplyGo(s, t), t)
  {
    hide PacketLockFree, Gc, GoRun, GoLoop, GoStop, GoWorker, GoCallback, ServeRank, SiteRank, Down;
    DownTo(s, ApplyGo(s, t), t, ApplyGo(s, t).threads[t]);
  }

  lemma GoDown(s: State, t: nat)
    requires Inv(s) && t < |s.threads| && CanGo(s, t)
    ensures Down(s, ApplyGo(s, t), t)
  {
    Positive(s);
    hide Inv, CanGo, ApplyGo, Down;
    if s.threads[t].Run? || s.threads[t].Loop? {
      RunDown(s, t);
    } else if s.threads[t].Stop? {
      StopDown(s, t);
    } else if s.threads[t].Worker? {
      WorkerDown(s, t);
    } else if s.threads[t].Callback? || s.threads[t].CloseConn? {
      CallbackDown(s, t);
    } else if s.threads[t].Raw? || s.threads[t].Acquire? {
      RawDown(s, t);
    } else {
      assert !s.threads[t].Exited? by { Moving(s, t); }
      EntryDown(s, t);
    }
  }

  lemma Moving(s: State, t: nat)
    requires |s.gens| > 0 && t < |s.threads| && CanGo(s, t)
    ensures !s.threads[t].Exited?
  {
  }

  lemma FailDown(s: State, t: nat)
    requires |s.gens| > 0 && t < |s.threads| && CanFail(s, t)
    ensures Down(s, ApplyFail(s, t), t)
  {
    hide ServeRank, PacketLockFree, Down;
    DownTo(s, ApplyFail(s, t), t, ApplyFail(s, t).threads[t]);
  }

  lemma DispatchDown(s: State, t: nat, pooled: bool)
    requires Enabled(s, Dispatch(t, pooled))
    ensures Down(s, Apply(s, Dispatch(t, pooled)), t)
  {
    hide PacketLockFree, Down, ApplyGo, ApplyFail;
    var s', m := Apply(s, Dispatch(t, pooled)), s.threads[t].loop.m - 1;
    if pooled {
      DownBy(s, s', t, Loop(Serve(m)), [Acquire(Now(s), None)]);
    } else {
      DownTo(s, s', t, Acquire(Now(s), Some(m)));
    }
  }

  lemma NestedDown(s: State, step: Step)
    requires Enabled(s, step) && (step.NestedClose? || step.NestedWrite?)
    ensures Down(s, Apply(s, step), step.t)
  {
    hide PacketLockFree, Down, ApplyGo, ApplyFail, ServeRank;
    var site := s.threads[step.t].site;
    assert SiteRank(s.limit, site) == SiteRank(s.limit, Spend(site)) + 12;
    DownTo(s, Apply(s, step), step.t, Apply(s, step).threads[step.t]);
  }

  /** Error paths, packages handed to addTask, and calls made by callbacks. */
  lemma CallDown(s: State, step: Step)
    requires Enabled(s, step) && Inner(step) && !step.Go?
    ensures Moved(s, Apply(s, step), step.t) && Down(s, Apply(s, step), step.t)
  {
    CallShape(s, step);
    hide ApplyGo, ApplyFail, CanGo, CanFail, Down, Moved;
    if step.Fail? {
      FailDown(s, step.t);
    } else if step.Dispatch? {
      DispatchDown(s, step.t, step.pooled);
    } else {
      NestedDown(s, step);
    }
  }

  lemma CallShape(s: State, step: Step)
    requires Enabled(s, step) && Inner(step) && !step.Go?
    ensures Moved(s, Apply(s, step), step.t)
  {
    hide ApplyGo, CanGo;
    var s', t := Apply(s, step), step.t;
    assert s'.threads == s.threads[t := s'.threads[t]] + s'.threads[|s.threads|..];
  }

  lemma InnerDown(s: State, step: Step)
    requires Inv(s) && Enabled(s, step) && Inner(step)
    ensures Moved(s, Apply(s, step), step.t) && Down(s, Apply(s, step), step.t)
  {
    if step.Go? {
      GoShape(s, step.t);
      GoDown(s, step.t);
      hide Inv, Moved, Down;
    } else {
      CallDown(s, step);
    }
  }
}
