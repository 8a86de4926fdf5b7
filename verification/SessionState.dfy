/**
 A getty session as a machine of atomic steps (transport/session.go).

 Every step is one critical section of the Go code (resetLock, s.lock,
 lifecycle.lock, packetLock), one wait-group operation or one step of once.Do. A
 generation is the set of fields that reset() replaces together: once, done,
 lifecycle, attrs, Connection and heartbeatTimer. Goroutines keep references to
 the once and the lifecycle of the generation they captured them from.
 */
module SessionState {
  import opened Options

  /** The two attributes stop() looks at: sessionClientKey and ignoreReconnectKey. */
  datatype Attrs = Attrs(hasClient: bool, ignore: Option<bool>)

  /** sync.Once: Do blocks while another goroutine runs the body. */
  datatype Once = Idle | Running(owner: nat) | Finished

  datatype Generation = Generation(
    once: Once,
    doneCloses: nat,       // how often `done` was closed; a second close panics
    lcClosed: bool,        // sessionLifecycle.closed
    lcCount: nat,          // sessionLifecycle.wg
    attrs: Option<Attrs>,  // nil after gc()
    conn: bool,            // Connection != nil
    timer: bool,           // heartbeatTimer != nil
    armed: bool,           // a heartbeat of this generation was ever installed
    forked: bool,          // the goroutine of the close callbacks was started
    reconnects: nat)       // how often this generation called runReconnect

  /**
   Where a goroutine is when it runs code of the application, which may call back
   into the session: n more times in this callback.
   */
  datatype Site =
    | Outside                                  // a call from the application's own goroutines
    | Opening(n: nat)                          // OnOpen, inside run()
    | Task(lc: nat, n: nat, loop: Option<nat>) // OnMessage, OnCron, WritePkg, close callbacks: inside lifecycle lc;
                                               // Some(m): on the read goroutine, with m packages left
    | Closing(n: nat)                          // OnError and OnClose, at the end of the read goroutine

  /** Who called stop(), and therefore where it returns to. */
  datatype Caller = From(site: Site) | OnOpenFailed | ResetWorker

  /** run() after its resetLock section, around OnOpen; all of it is counted by grWG. */
  datatype RunStage = Check | Install | StartLoop | RunGc | RunReturn(how: RunEnd)

  /** How run() ends: with a read goroutine, in a panic, or with a session that is closed and detached again. */
  datatype RunEnd = Started | Panicked | Detached

  /** The read goroutine, handlePackage(); counted by grWG. It has m packages left before it looks at done again. */
  datatype LoopStage = Serve(m: nat) | LoopGc | LoopReturn

  /** stop() after it has read the once: once.Do and then the body, step by step. */
  datatype StopStage =
    | Do
    | CloseDone
    | TakeTimer
    | CloseLc(lc: nat)
    | AddTask(lc: nat)
    | Fork(lc: nat)
    | ReadClient
    | ReadFlag(hasClient: bool)
    | Trigger(fire: bool)

  /** reset() after its stop(). */
  datatype WorkerStage =
    | CloseRaw
    | StopTimer
    | EndLc(lc: nat)
    | WaitGr(lc: nat)
    | GcSession(lc: nat)
    | WaitLc(lc: nat)
    | LockPackets          // packetLock.Lock()
    | Clear                // holds packetLock
    | Drain(ok: bool)

  /** A write: from outside it holds packetLock around conn.Send and nothing else. */
  datatype RawStage = Enter | Wait | Sending

  datatype Pc =
    | RunStart
    | Run(run: RunStage)
    | Loop(loop: LoopStage)
    | Callback(site: Site)
    | StopEnter(k: Caller)
    | Stop(g: nat, k: Caller, stage: StopStage)
    | WriteCheck
    | WriteCapture
    | Acquire(lc: nat, inLoop: Option<nat>)
    | CloseConn(lc: nat)
    | Raw(raw: RawStage, exclusive: bool, at: Site)
    | Worker(w: WorkerStage)
    | Exited

  /** A channel returned by ResetAsync: capacity one, the values sent so far. */
  datatype Chan = Chan(sent: seq<bool>, closed: bool)

  /** sessionResetRun. `from` and `worker` record who serves it; they are history. */
  datatype ResetRun = ResetRun(results: seq<nat>, from: nat, worker: nat)

  datatype State = State(
    gens: seq<Generation>,      // the last one is the current one
    threads: seq<Pc>,
    gr: nat,                    // grWG
    resetRun: Option<ResetRun>,
    chans: seq<Chan>,
    limit: nat)                 // no callback makes more calls and no read brings more packages; any number

  function Fresh(conn: bool): Generation {
    Generation(Idle, 0, false, 0, Some(Attrs(false, None)), conn, false, false, false, 0)
  }

  ghost predicate Init(s: State) {
    s == State([Fresh(true)], [], 0, None, [], s.limit)
  }

  function Now(s: State): nat requires |s.gens| > 0 { |s.gens| - 1 }

  function Cur(s: State): Generation requires |s.gens| > 0 { s.gens[|s.gens| - 1] }

  datatype Step =
    | CallRun
    | CallClose
    | CallWritePkg
    | CallWriteBytes(exclusive: bool)
    | CallSend
    | CallResetAsync
    | TimerFires(lc: nat)
    | SetAttrs(a: Attrs)        // SetAttribute / RemoveAttribute from outside
    | Attach                    // the owner of a reset session installs a Connection
    | Receive(t: nat)           // the read loop sees an open session and gets a new batch of packages
    | Dispatch(t: nat, pooled: bool) // the read loop hands a package to addTask, with a task pool or without
    | NestedClose(t: nat)       // the callback that goroutine t runs calls Close
    | NestedWrite(t: nat, exclusive: bool) // ... or writes; a WritePkg has its encoder and its write here
    | Go(t: nat)                // goroutine t takes its next step
    | Fail(t: nat)              // ... along its error path

  /** Goroutine t moves to pc, the current generation becomes cur, others may start. */
  function Move(s: State, t: nat, pc: Pc, cur: Generation, gr: nat, spawn: seq<Pc>): State
    requires |s.gens| > 0 && t < |s.threads|
  {
    s.(threads := s.threads[t := pc] + spawn, gens := s.gens[|s.gens| - 1 := cur], gr := gr)
  }

  function Jump(s: State, t: nat, pc: Pc): State
    requires |s.gens| > 0 && t < |s.threads|
  {
    Move(s, t, pc, Cur(s), s.gr, [])
  }

  /** Adds delta to the wait group of lifecycle lc, which may be an old one. */
  function Count(s: State, lc: nat, delta: int): State
    requires lc < |s.gens| && s.gens[lc].lcCount + delta >= 0
  {
    s.(gens := s.gens[lc := s.gens[lc].(lcCount := s.gens[lc].lcCount + delta)])
  }

  function Return(site: Site): Pc { if site.Outside? then Exited else Callback(site) }

  function AfterStop(k: Caller): Pc {
    match k
    case From(site) => Return(site)
    case OnOpenFailed => Run(RunGc)
    case ResetWorker => Worker(CloseRaw)
  }

  function AfterTask(loop: Option<nat>): Pc { if loop.Some? then Loop(Serve(loop.value)) else Exited }

  predicate MayCall(site: Site) { !site.Outside? && site.n > 0 }

  function Spend(site: Site): Site
    requires MayCall(site)
  {
    site.(n := site.n - 1)
  }

  /** gc(): the s.lock section, and the goroutine that runs CloseConn. */
  function Gc(s: State, t: nat, next: Pc): State
    requires |s.gens| > 0 && t < |s.threads|
  {
    var c := Cur(s);
    if c.attrs.None? then
      Jump(s, t, next)
    else if c.conn then
      Move(s, t, next, c.(attrs := None, conn := false, lcCount := c.lcCount + 1), s.gr, [CloseConn(Now(s))])
    else
      Move(s, t, next, c.(attrs := None), s.gr, [])
  }

  predicate Known(results: seq<nat>, n: nat) {
    forall i | 0 <= i < |results| :: results[i] < n
  }

  /** The worker's drain loop: one value, then close, for each pending request. */
  function Deliver(chans: seq<Chan>, results: seq<nat>, ok: bool): (r: seq<Chan>)
    requires Known(results, |chans|)
    ensures |r| == |chans|
    decreases |results|
  {
    if results == [] then chans
    else
      var id := results[0];
      Deliver(chans[id := Chan(chans[id].sent + [ok], true)], results[1..], ok)
  }

  /** Who holds packetLock: raw writers on either side, and the worker while it clears. */
  predicate HoldsPackets(pc: Pc) { (pc.Raw? && pc.raw.Sending?) || pc == Worker(Clear) }

  predicate HoldsExclusively(pc: Pc) { HoldsPackets(pc) && (pc.Raw? ==> pc.exclusive) }

  predicate PacketLockFree(ts: seq<Pc>, exclusive: bool) {
    forall u | 0 <= u < |ts| :: if exclusive then !HoldsPackets(ts[u]) else !HoldsExclusively(ts[u])
  }

  predicate CanGo(s: State, t: nat)
    requires |s.gens| > 0 && t < |s.threads|
  {
    match s.threads[t]
    case Run(r) => (r.Check? ==> Cur(s).conn) && (r.RunReturn? ==> s.gr > 0)
    case Loop(l) => l.LoopReturn? ==> s.gr > 0
    case Stop(g, _, b) =>
      && g < |s.gens|
      && (b.Do? ==> !s.gens[g].once.Running?)
      && (b.CloseLc? || b.AddTask? || b.Fork? ==> b.lc < |s.gens|)
    case Callback(site) => !site.Outside? && (site.Task? ==> site.lc < |s.gens| && s.gens[site.lc].lcCount > 0)
    case Acquire(lc, _) => lc < |s.gens|
    case CloseConn(lc) => lc < |s.gens| && s.gens[lc].lcCount > 0
    case Raw(r, exclusive, _) => r.Wait? ==> PacketLockFree(s.threads, exclusive)
    case Worker(w) =>
      && (w.LockPackets? ==> PacketLockFree(s.threads, true))
      && (w.EndLc? ==> w.lc < |s.gens|)
      && (w.WaitGr? ==> s.gr == 0)
      && (w.WaitLc? ==> w.lc < |s.gens| && s.gens[w.lc].lcCount == 0)
      && (w.Drain? ==> s.resetRun.Some? && Known(s.resetRun.value.results, |s.chans|))
    case Exited => false
    case _ => true
  }

  function GoRun(s: State, t: nat, r: RunStage): State
    requires |s.gens| > 0 && t < |s.threads| && (r.RunReturn? ==> s.gr > 0)
  {
    var c := Cur(s);
    match r
    case Check => Jump(s, t, Callback(Opening(s.limit)))
    case Install =>
      if c.doneCloses == 0
      then Move(s, t, Run(StartLoop), c.(timer := true, armed := true), s.gr, [])
      else Jump(s, t, Run(StartLoop))
    case StartLoop => Move(s, t, Run(RunReturn(Started)), c, s.gr + 1, [Loop(Serve(0))])
    case RunGc => Gc(s, t, Run(RunReturn(Detached)))
    case RunReturn(_) => Move(s, t, Exited, c, s.gr - 1, [])
  }

  function GoLoop(s: State, t: nat, l: LoopStage): State
    requires |s.gens| > 0 && t < |s.threads| && (l.LoopReturn? ==> s.gr > 0)
  {
    match l
    case Serve(_) => Jump(s, t, StopEnter(From(Closing(s.limit))))
    case LoopGc => Gc(s, t, Loop(LoopReturn))
    case LoopReturn => Move(s, t, Exited, Cur(s), s.gr - 1, [])
  }

  function GoStop(s: State, t: nat, g: nat, k: Caller, b: StopStage): State
    requires t < |s.threads| && g < |s.gens|
    requires b.CloseLc? || b.AddTask? || b.Fork? ==> b.lc < |s.gens|
  {
    var c := Cur(s);
    match b
    case Do =>
      if s.gens[g].once.Finished? then Jump(s, t, AfterStop(k))
      else s.(threads := s.threads[t := Stop(g, k, CloseDone)], gens := s.gens[g := s.gens[g].(once := Running(t))])
    case CloseDone => Move(s, t, Stop(g, k, TakeTimer), c.(doneCloses := c.doneCloses + 1), s.gr, [])
    case TakeTimer => Move(s, t, Stop(g, k, CloseLc(Now(s))), c.(timer := false), s.gr, [])
    case CloseLc(lc) =>
      s.(threads := s.threads[t := Stop(g, k, AddTask(lc))], gens := s.gens[lc := s.gens[lc].(lcClosed := true)])
    case AddTask(lc) => Count(Jump(s, t, Stop(g, k, Fork(lc))), lc, 1)
    case Fork(lc) =>
      Move(s, t, Stop(g, k, ReadClient), c.(forked := true), s.gr, [Callback(Task(lc, s.limit, None))])
    case ReadClient => Jump(s, t, Stop(g, k, ReadFlag(c.attrs.Some? && c.attrs.value.hasClient)))
    case ReadFlag(hasClient) =>
      Jump(s, t, Stop(g, k, Trigger(hasClient && c.attrs.Some? && c.attrs.value.ignore == Some(false))))
    case Trigger(fire) =>
      var o := s.gens[g];
      s.(threads := s.threads[t := AfterStop(k)],
         gens := s.gens[g := o.(once := Finished, reconnects := o.reconnects + if fire then 1 else 0)])
  }

  function GoWorker(s: State, t: nat, w: WorkerStage): State
    requires |s.gens| > 0 && t < |s.threads|
    requires w.EndLc? ==> w.lc < |s.gens|
    requires w.Drain? ==> s.resetRun.Some? && Known(s.resetRun.value.results, |s.chans|)
  {
    match w
    case CloseRaw => Jump(s, t, Worker(StopTimer))
    case StopTimer => Move(s, t, Worker(EndLc(Now(s))), Cur(s).(timer := false), s.gr, [])
    case EndLc(lc) =>
      s.(threads := s.threads[t := Worker(WaitGr(lc))], gens := s.gens[lc := s.gens[lc].(lcClosed := true)])
    case WaitGr(lc) => Jump(s, t, Worker(GcSession(lc)))
    case GcSession(lc) => Gc(s, t, Worker(WaitLc(lc)))
    case WaitLc(_) => Jump(s, t, Worker(LockPackets))
    case LockPackets => Jump(s, t, Worker(Clear))
    case Clear => s.(threads := s.threads[t := Worker(Drain(true))], gens := s.gens + [Fresh(false)])
    case Drain(ok) =>
      s.(threads := s.threads[t := Exited], resetRun := None,
         chans := Deliver(s.chans, s.resetRun.value.results, ok))
  }

  function GoCallback(s: State, t: nat, site: Site): State
    requires |s.gens| > 0 && t < |s.threads| && !site.Outside?
    requires site.Task? ==> site.lc < |s.gens| && s.gens[site.lc].lcCount > 0
  {
    match site
    case Opening(_) => Jump(s, t, Run(Install))
    case Task(lc, _, loop) => Count(Jump(s, t, AfterTask(loop)), lc, -1)
    case Closing(_) => Jump(s, t, Loop(LoopGc))
  }

  function ApplyGo(s: State, t: nat): State
    requires |s.gens| > 0 && t < |s.threads| && CanGo(s, t)
  {
    match s.threads[t]
    // run(): under resetLock, refuse to start while a reset worker exists
    case RunStart =>
      if s.resetRun.Some? then Jump(s, t, Exited) else Move(s, t, Run(Check), Cur(s), s.gr + 1, [])
    case Run(r) => GoRun(s, t, r)
    case Loop(l) => GoLoop(s, t, l)
    case StopEnter(k) => Jump(s, t, Stop(Now(s), k, Do))
    case Stop(g, k, b) => GoStop(s, t, g, k, b)
    // WritePkg: IsClosed, then the lifecycle snapshot, in two s.lock sections
    case WriteCheck => Jump(s, t, if Cur(s).doneCloses > 0 then Exited else WriteCapture)
    case WriteCapture => Jump(s, t, Acquire(Now(s), None))
    case Acquire(lc, loop) =>
      if s.gens[lc].lcClosed then Jump(s, t, AfterTask(loop))
      else Count(Jump(s, t, Callback(Task(lc, s.limit, loop))), lc, 1)
    case CloseConn(lc) => Count(Jump(s, t, Exited), lc, -1)
    // the end of a callback
    case Callback(site) => GoCallback(s, t, site)
    // IsClosed (in WriteBytes and WriteBytesArray), packetLock, one write section
    case Raw(r, exclusive, site) =>
      Jump(s, t, if r.Sending? || (r.Enter? && Cur(s).doneCloses > 0) then Return(site)
                 else Raw(if r.Enter? then Wait else Sending, exclusive, site))
    case Worker(w) => GoWorker(s, t, w)
  }

  /** Error paths: a run() without Connection, failed OnOpen, failed AddTimer, a panicking worker. */
  predicate CanFail(s: State, t: nat)
    requires |s.gens| > 0 && t < |s.threads|
  {
    match s.threads[t]
    case Run(r) => r.Check? || (r.Install? && Cur(s).doneCloses == 0)
    case Callback(site) => site.Opening?
    case Worker(w) => !w.Clear? && !w.Drain?
    case _ => false
  }

  function ApplyFail(s: State, t: nat): State
    requires |s.gens| > 0 && t < |s.threads| && CanFail(s, t)
  {
    match s.threads[t]
    case Run(_) => Jump(s, t, Run(RunReturn(Panicked)))
    case Callback(_) => Jump(s, t, StopEnter(OnOpenFailed))
    case Worker(_) => Jump(s, t, Worker(Drain(false)))
  }

  predicate Enabled(s: State, step: Step) {
    && |s.gens| > 0
    && match step
       case TimerFires(lc) => lc < |s.gens| && s.gens[lc].armed
       case Attach => s.resetRun.None?
       case Go(t) => t < |s.threads| && CanGo(s, t)
       case Fail(t) => t < |s.threads| && CanFail(s, t)
       case Receive(t) => t < |s.threads| && s.threads[t].Loop? && s.threads[t].loop.Serve? && Cur(s).doneCloses == 0
       case Dispatch(t, _) => t < |s.threads| && s.threads[t].Loop? && s.threads[t].loop.Serve? && s.threads[t].loop.m > 0
       case NestedClose(t) => t < |s.threads| && s.threads[t].Callback? && MayCall(s.threads[t].site)
       case NestedWrite(t, _) => t < |s.threads| && s.threads[t].Callback? && MayCall(s.threads[t].site)
       case _ => true
  }

  function Apply(s: State, step: Step): State
    requires Enabled(s, step)
  {
    match step
    case CallRun => s.(threads := s.threads + [RunStart])
    case CallClose => s.(threads := s.threads + [StopEnter(From(Outside))])
    case CallWritePkg => s.(threads := s.threads + [WriteCheck])
    case CallWriteBytes(exclusive) => s.(threads := s.threads + [Raw(Enter, exclusive, Outside)])
    case CallSend => s.(threads := s.threads + [Raw(Wait, false, Outside)])
    case CallResetAsync =>
      var id := |s.chans|;
      if s.resetRun.Some? then
        s.(chans := s.chans + [Chan([], false)],
           resetRun := Some(s.resetRun.value.(results := s.resetRun.value.results + [id])))
      else
        s.(chans := s.chans + [Chan([], false)],
           resetRun := Some(ResetRun([id], Now(s), |s.threads|)),
           threads := s.threads + [StopEnter(ResetWorker)])
    case TimerFires(lc) => s.(threads := s.threads + [Acquire(lc, None)])
    case SetAttrs(a) =>
      if Cur(s).attrs.Some? then s.(gens := s.gens[|s.gens| - 1 := Cur(s).(attrs := Some(a))]) else s
    case Attach => s.(gens := s.gens[|s.gens| - 1 := Cur(s).(conn := true)])
    case Go(t) => ApplyGo(s, t)
    case Fail(t) => ApplyFail(s, t)
    case Receive(t) => Jump(s, t, Loop(Serve(s.limit)))
    case Dispatch(t, pooled) =>
      var m := s.threads[t].loop.m - 1;
      if pooled then Move(s, t, Loop(Serve(m)), Cur(s), s.gr, [Acquire(Now(s), None)])
      else Jump(s, t, Acquire(Now(s), Some(m)))
    case NestedClose(t) => Jump(s, t, StopEnter(From(Spend(s.threads[t].site))))
    case NestedWrite(t, exclusive) => Jump(s, t, Raw(Wait, exclusive, Spend(s.threads[t].site)))
  }

  /** A run: a start state and the steps taken from it. */
  ghost predicate Behaviour(tr: seq<State>, steps: seq<Step>) {
    && |tr| == |steps| + 1
    && Init(tr[0])
    && forall i | 0 <= i < |steps| :: Enabled(tr[i], steps[i]) && tr[i + 1] == Apply(tr[i], steps[i])
  }
}
