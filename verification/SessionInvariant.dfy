/**
 The inductive invariant of the session machine.

 Wait-group counters are tied to the goroutines that hold them by summing over
 all goroutines, so the number of goroutines is unbounded. What a goroutine
 relies on is a predicate over its pc, the current generation and the two
 counters; `Local` is the one place where the facts of all other goroutines are
 carried over a step.
 */
module SessionInvariant {
  import opened Options
  import opened Sequences
  import opened SessionState

  datatype Resource = Gr | Lc(g: nat)

  function One(b: bool): nat { if b then 1 else 0 }

  function HeldAt(site: Site, r: Resource): nat {
    match site
    case Outside => 0
    case Task(lc, _, loop) => One(r == Lc(lc)) + One(loop.Some? && r == Gr)
    case _ => One(r == Gr)
  }

  function HeldBy(k: Caller, r: Resource): nat {
    match k
    case From(site) => HeldAt(site, r)
    case OnOpenFailed => One(r == Gr)
    case ResetWorker => 0
  }

  /** How many units of wait group r a goroutine at pc still has to release. */
  function Units(pc: Pc, r: Resource): nat {
    match pc
    case Run(_) => One(r == Gr)
    case Loop(_) => One(r == Gr)
    case Callback(site) => HeldAt(site, r)
    case StopEnter(k) => HeldBy(k, r)
    case Stop(_, k, b) => HeldBy(k, r) + One(b.Fork? && r == Lc(b.lc))
    case Acquire(_, loop) => One(loop.Some? && r == Gr)
    case CloseConn(lc) => One(r == Lc(lc))
    case Raw(_, _, site) => HeldAt(site, r)
    case _ => 0
  }

  function UnitsOf(r: Resource): Pc -> nat { pc => Units(pc, r) }

  function Sum(ts: seq<Pc>, r: Resource): nat { Total(ts, UnitsOf(r)) }

  predicate InBody(pc: Pc) {
    pc.Stop? && !pc.stage.Do?
  }

  predicate IsWorker(pc: Pc) {
    pc.Worker? || ((pc.StopEnter? || pc.Stop?) && pc.k.ResetWorker?)
  }

  function BodyRank(b: StopStage): nat {
    match b
    case Do => 0
    case CloseDone => 1
    case TakeTimer => 2
    case CloseLc(_) => 3
    case AddTask(_) => 4
    case Fork(_) => 5
    case _ => 6
  }

  function WorkerRank(w: WorkerStage): nat {
    match w
    case CloseRaw => 0
    case StopTimer => 1
    case EndLc(_) => 2
    case WaitGr(_) => 3
    case GcSession(_) => 4
    case WaitLc(_) => 5
    case LockPackets => 6
    case Clear => 7
    case Drain(_) => 8
  }

  predicate SiteOK(c: nat, site: Site) { site.Task? ==> site.lc <= c }

  /** The lifecycles a goroutine refers to exist. */
  predicate RefsOK(c: nat, pc: Pc) {
    && (pc.Acquire? || pc.CloseConn? ==> pc.lc <= c)
    && (pc.Callback? ==> !pc.site.Outside? && SiteOK(c, pc.site))
    && (pc.Raw? ==> SiteOK(c, pc.at))
    && ((pc.StopEnter? || pc.Stop?) && pc.k.From? ==> SiteOK(c, pc.k.site))
  }

  /** Past the stop() that ends the read goroutine or a failed run(). */
  predicate AfterClose(pc: Pc) {
    pc == Run(RunGc) || pc == Loop(LoopGc) || (pc.Callback? && pc.site.Closing?) || (pc.Raw? && pc.at.Closing?)
  }

  /** Past the gc() of the read goroutine or of a failed run(). */
  predicate AfterGc(pc: Pc) { pc == Loop(LoopReturn) || pc == Run(RunReturn(Detached)) }

  /** The body of stop() runs under the once of the current generation. */
  predicate BodyOK(c: nat, cur: Generation, t: nat, g: nat, b: StopStage) {
    && g == c
    && cur.once == Running(t)
    && cur.doneCloses == One(BodyRank(b) > 1)
    && (BodyRank(b) > 2 ==> !cur.timer)
    && cur.lcClosed == (BodyRank(b) > 3)
    && cur.forked == (BodyRank(b) > 5)
    && (b.CloseLc? || b.AddTask? || b.Fork? ==> b.lc == c)
  }

  predicate WorkerOK(c: nat, cur: Generation, gr: nat, w: WorkerStage) {
    && (!w.Drain? ==> cur.once.Finished?)
    && (w.EndLc? || w.WaitGr? || w.GcSession? || w.WaitLc? ==> w.lc == c)
    && (4 <= WorkerRank(w) <= 7 ==> gr == 0)
    && (5 <= WorkerRank(w) <= 7 ==> cur.attrs.None?)
    && (w.LockPackets? || w.Clear? ==> cur.lcCount == 0)
    && (w == Drain(true) ==> !cur.conn)
  }

  /** What goroutine t knows about the shared state while it stands at pc. */
  predicate ThreadOK(c: nat, cur: Generation, gr: nat, run: Option<ResetRun>, t: nat, pc: Pc) {
    && RefsOK(c, pc)
    && (AfterClose(pc) ==> cur.once.Finished?)
    && (AfterGc(pc) ==> cur.once.Finished? && cur.attrs.None?)
    && (pc.Stop? && pc.stage.Do? ==> pc.g <= c && (pc.k != From(Outside) ==> pc.g == c))
    && (InBody(pc) ==> BodyOK(c, cur, t, pc.g, pc.stage))
    && (pc.Worker? ==> WorkerOK(c, cur, gr, pc.w))
    && (IsWorker(pc) ==> run.Some? && run.value.worker == t
                         && run.value.from + One(pc == Worker(Drain(true))) == c)
  }

  /** A generation that reset() has replaced. */
  predicate OldOK(g: Generation) {
    g.once.Finished? && g.doneCloses == 1 && g.lcClosed && g.lcCount == 0 && !g.timer && g.attrs.None? && g.reconnects <= 1
  }

  predicate CurOK(g: Generation, ts: seq<Pc>) {
    match g.once
    case Idle => g.doneCloses == 0 && g.reconnects == 0 && g.attrs.Some? && !g.lcClosed && !g.forked
    case Running(o) =>
      o < |ts| && InBody(ts[o]) && g.doneCloses <= 1 && g.reconnects == 0 && g.attrs.Some?
    case Finished => g.doneCloses == 1 && g.lcClosed && !g.timer && g.forked && g.reconnects <= 1
  }

  predicate Distinct(s: seq<nat>) {
    forall i, j | 0 <= i < j < |s| :: s[i] != s[j]
  }

  /** Every request is pending exactly once, or answered exactly once and closed. */
  predicate ChansOK(chans: seq<Chan>, run: Option<ResetRun>) {
    && (run.Some? ==> Known(run.value.results, |chans|) && Distinct(run.value.results))
    && forall id | 0 <= id < |chans| ::
        if run.Some? && id in run.value.results then chans[id] == Chan([], false)
        else |chans[id].sent| == 1 && chans[id].closed
  }

  predicate WorkerAlive(ts: seq<Pc>, run: Option<ResetRun>) {
    run.Some? ==> run.value.worker < |ts| && IsWorker(ts[run.value.worker])
  }

  ghost predicate Counts(s: State) {
    && s.gr == Sum(s.threads, Gr)
    && forall g | 0 <= g < |s.gens| :: s.gens[g].lcCount == Sum(s.threads, Lc(g))
  }

  ghost predicate Threads(s: State)
    requires |s.gens| > 0
  {
    forall t | 0 <= t < |s.threads| :: ThreadOK(Now(s), Cur(s), s.gr, s.resetRun, t, s.threads[t])
  }

  ghost predicate Olds(s: State) {
    forall g | 0 <= g < |s.gens| - 1 :: OldOK(s.gens[g])
  }

  ghost predicate Inv(s: State) {
    && |s.gens| > 0
    && Counts(s)
    && Olds(s)
    && CurOK(Cur(s), s.threads)
    && Threads(s)
    && WorkerAlive(s.threads, s.resetRun)
    && ChansOK(s.chans, s.resetRun)
  }

  /** Changes of the current generation by goroutine t that no other goroutine notices. */
  predicate Rely(cur: Generation, cur': Generation, gr: nat, gr': nat, run: Option<ResetRun>, t: nat) {
    && (cur.once.Running? && cur.once.owner != t ==>
          && cur'.once == cur.once
          && cur'.doneCloses == cur.doneCloses
          && cur'.forked == cur.forked
          && cur'.lcClosed == cur.lcClosed
          && (!cur.timer && cur.doneCloses == 1 ==> !cur'.timer))
    && (cur.once.Finished? ==> cur'.once.Finished?)
    && (cur.attrs.None? ==> cur'.attrs.None?)
    && (run.Some? && run.value.worker != t && gr == 0 ==>
          && gr' == 0
          && (cur.once.Finished? && cur.attrs.None? && cur.lcCount == 0 ==> cur'.lcCount == 0))
    && (run.Some? && !cur.conn ==> !cur'.conn)
  }

  lemma RelyKeeps(c: nat, cur: Generation, cur': Generation, gr: nat, gr': nat, run: Option<ResetRun>,
                  t: nat, u: nat, pc: Pc)
    requires Rely(cur, cur', gr, gr', run, t) && u != t
    requires ThreadOK(c, cur, gr, run, u, pc)
    ensures ThreadOK(c, cur', gr', run, u, pc)
  {
  }

  function SpawnUnits(spawn: seq<Pc>, r: Resource): nat
    requires |spawn| <= 1
  {
    if spawn == [] then 0 else Units(spawn[0], r)
  }

  lemma MoveSum(ts: seq<Pc>, t: nat, pc: Pc, spawn: seq<Pc>, r: Resource)
    requires t < |ts| && |spawn| <= 1
    ensures Sum(ts[t := pc] + spawn, r) == Sum(ts, r) - Units(ts[t], r) + Units(pc, r) + SpawnUnits(spawn, r)
  {
    TotalUpdate(ts, t, pc, UnitsOf(r));
    if spawn == [] {
      assert ts[t := pc] + spawn == ts[t := pc];
    } else {
      TotalAppend(ts[t := pc], spawn[0], UnitsOf(r));
      assert ts[t := pc] + spawn == ts[t := pc] + [spawn[0]];
    }
  }

  /** The units that a step hands over must match what it does to the counters. */
  ghost predicate Balanced(s: State, t: nat, pc: Pc, cur: Generation, gr: nat, spawn: seq<Pc>)
    requires |s.gens| > 0 && t < |s.threads| && |spawn| <= 1
  {
    && gr == s.gr - Units(s.threads[t], Gr) + Units(pc, Gr) + SpawnUnits(spawn, Gr)
    && cur.lcCount == Cur(s).lcCount - Units(s.threads[t], Lc(Now(s))) + Units(pc, Lc(Now(s)))
                      + SpawnUnits(spawn, Lc(Now(s)))
    && forall g: nat | g < Now(s) :: Units(s.threads[t], Lc(g)) == Units(pc, Lc(g)) + SpawnUnits(spawn, Lc(g))
  }

  lemma MoveCounts(s: State, t: nat, pc: Pc, cur: Generation, gr: nat, spawn: seq<Pc>)
    requires |s.gens| > 0 && t < |s.threads| && |spawn| <= 1
    requires Counts(s) && Balanced(s, t, pc, cur, gr, spawn)
    ensures Counts(Move(s, t, pc, cur, gr, spawn))
  {
    var s' := Move(s, t, pc, cur, gr, spawn);
    MoveSum(s.threads, t, pc, spawn, Gr);
    forall g | 0 <= g < |s'.gens|
      ensures s'.gens[g].lcCount == Sum(s'.threads, Lc(g))
    {
      MoveSum(s.threads, t, pc, spawn, Lc(g));
    }
  }

  ghost predicate Guarantee(s: State, t: nat, pc: Pc, cur: Generation, gr: nat, spawn: seq<Pc>) {
    && |s.gens| > 0 && t < |s.threads| && |spawn| <= 1
    && Balanced(s, t, pc, cur, gr, spawn)
    && Rely(Cur(s), cur, s.gr, gr, s.resetRun, t)
    && ThreadOK(Now(s), cur, gr, s.resetRun, t, pc)
    && (IsWorker(pc) <==> IsWorker(s.threads[t]))
    && (spawn != [] ==> ThreadOK(Now(s), cur, gr, s.resetRun, |s.threads|, spawn[0]) && !IsWorker(spawn[0]))
    && CurOK(cur, s.threads[t := pc])
  }

  /** The pcs after a move: the mover's, a spawned one's, or an old one. */
  lemma MovedPcs(s: State, t: nat, pc: Pc, spawn: seq<Pc>, u: nat)
    requires t < |s.threads| && |spawn| <= 1 && u < |s.threads| + |spawn|
    ensures (s.threads[t := pc] + spawn)[u]
         == if u == t then pc else if u == |s.threads| then spawn[0] else s.threads[u]
  {
  }

  lemma MoveThreads(s: State, t: nat, pc: Pc, cur: Generation, gr: nat, spawn: seq<Pc>)
    requires |s.gens| > 0 && t < |s.threads| && |spawn| <= 1
    requires Threads(s)
    requires Rely(Cur(s), cur, s.gr, gr, s.resetRun, t)
    requires ThreadOK(Now(s), cur, gr, s.resetRun, t, pc)
    requires spawn != [] ==> ThreadOK(Now(s), cur, gr, s.resetRun, |s.threads|, spawn[0])
    ensures Threads(Move(s, t, pc, cur, gr, spawn))
  {
    hide ThreadOK, Rely;
    var s' := Move(s, t, pc, cur, gr, spawn);
    forall u | 0 <= u < |s'.threads|
      ensures ThreadOK(Now(s'), Cur(s'), s'.gr, s'.resetRun, u, s'.threads[u])
    {
      MovedPcs(s, t, pc, spawn, u);
      if u < |s.threads| && u != t {
        RelyKeeps(Now(s), Cur(s), cur, s.gr, gr, s.resetRun, t, u, s.threads[u]);
      }
    }
  }

  lemma SpawnKeepsCur(cur: Generation, ts: seq<Pc>, spawn: seq<Pc>)
    requires CurOK(cur, ts)
    ensures CurOK(cur, ts + spawn)
  {
  }

  /** One goroutine moves, touching the current generation only: the invariant survives. */
  lemma Local(s: State, t: nat, pc: Pc, cur: Generation, gr: nat, spawn: seq<Pc>)
    requires Inv(s) && Guarantee(s, t, pc, cur, gr, spawn)
    ensures Inv(Move(s, t, pc, cur, gr, spawn))
  {
    hide ThreadOK, Rely, Balanced, Counts, Threads, ChansOK, CurOK, IsWorker, OldOK;
    MoveCounts(s, t, pc, cur, gr, spawn);
    MoveThreads(s, t, pc, cur, gr, spawn);
    SpawnKeepsCur(cur, s.threads[t := pc], spawn);
  }
}
