/**
 Server shutdown (transport/server.go): any number of RunEventLoop calls, each
 opening a listener, publishing it and registering an event loop, against the
 Close that runs the once body of stop. done is closed outside s.lock, so a
 publish or a registration may have looked at it just before.
 */
module ServerShutdown {
  import opened Options
  import opened Sequences

  /** The TCP accept loop: at its top, past its look at done, inside Accept on listener l. */
  datatype LoopStage = Top | Ready | Accepting(l: nat)

  datatype Pc =
    | Opened                 // has a listener of its own
    | Publishing             // holds s.lock, about to look at done
    | MayPublish             // holds s.lock, saw an open server
    | Rejected               // must close its listener itself
    | RejectedClosed
    | Published
    | Starting               // holds s.lock, about to look at done
    | MayStart               // holds s.lock, saw an open server
    | Refused
    | Looping(at: LoopStage) // counted in the wait group
    | LoopEnded

  datatype Closer =
    | Idle
    | DoneClosed
    | InLock
    | Snapshot(taken: Option<nat>)
    | ListenersClosed        // stop has returned, wg.Wait is next
    | Returned

  datatype State = State(
    lock: Option<nat>,        // which RunEventLoop holds s.lock; stop holds it in InLock
    listener: Option<nat>,    // the published listener, named after its RunEventLoop
    replaced: set<nat>,       // listeners another publish has overwritten
    closed: set<nat>,         // listeners closed by stop or by publish
    wg: int,
    loops: seq<Pc>,
    closer: Closer)

  datatype Step =
    | Open
    | PublishLock(t: nat)
    | PublishCheck(t: nat)
    | Store(t: nat)
    | CloseOwn(t: nat)
    | StartLock(t: nat)
    | StartCheck(t: nat)
    | Register(t: nat)
    | LoopTop(t: nat)        // return if done is closed, else go on to accept
    | CallAccept(t: nat)     // Accept on the listener that is published now
    | Wakes(t: nat)          // Accept fails because its listener is closed
    | Connects(t: nat)       // a connection arrives, or Accept fails for a while
    | CloseDone
    | StopLock
    | TakeSnapshot
    | CloseListeners
    | WaitReturns

  ghost predicate Init(s: State) {
    s == State(None, None, {}, {}, 0, [], Idle)
  }

  predicate At(s: State, t: nat, pc: Pc) { t < |s.loops| && s.loops[t] == pc }

  predicate InAccept(s: State, t: nat) { t < |s.loops| && s.loops[t].Looping? && s.loops[t].at.Accepting? }

  predicate Free(s: State) { s.lock.None? && !s.closer.InLock? }

  predicate Enabled(s: State, step: Step) {
    match step
    case Open => true
    case PublishLock(t) => At(s, t, Opened) && Free(s)
    case PublishCheck(t) => At(s, t, Publishing)
    case Store(t) => At(s, t, MayPublish)
    case CloseOwn(t) => At(s, t, Rejected)
    case StartLock(t) => At(s, t, Published) && Free(s)
    case StartCheck(t) => At(s, t, Starting)
    case Register(t) => At(s, t, MayStart)
    case LoopTop(t) => At(s, t, Looping(Top))
    case CallAccept(t) => At(s, t, Looping(Ready)) && s.listener.Some?
    case Wakes(t) => InAccept(s, t) && s.loops[t].at.l in s.closed
    case Connects(t) => InAccept(s, t) && s.loops[t].at.l !in s.closed
    case CloseDone => s.closer.Idle?
    case StopLock => s.closer.DoneClosed? && Free(s)
    case TakeSnapshot => s.closer.InLock?
    case CloseListeners => s.closer.Snapshot?
    case WaitReturns => s.closer.ListenersClosed? && s.wg == 0
  }

  function Elements(o: Option<nat>): set<nat> { if o.Some? then {o.value} else {} }

  function Apply(s: State, step: Step): State
    requires Enabled(s, step)
  {
    match step
    case Open => s.(loops := s.loops + [Opened])
    case PublishLock(t) => s.(lock := Some(t), loops := s.loops[t := Publishing])
    case PublishCheck(t) =>
      if s.closer.Idle? then s.(loops := s.loops[t := MayPublish])
      else s.(lock := None, loops := s.loops[t := Rejected])
    case Store(t) =>
      s.(lock := None, replaced := s.replaced + Elements(s.listener), listener := Some(t), loops := s.loops[t := Published])
    case CloseOwn(t) => s.(closed := s.closed + {t}, loops := s.loops[t := RejectedClosed])
    case StartLock(t) => s.(lock := Some(t), loops := s.loops[t := Starting])
    case StartCheck(t) =>
      if s.closer.Idle? then s.(loops := s.loops[t := MayStart])
      else s.(lock := None, loops := s.loops[t := Refused])
    case Register(t) => s.(lock := None, wg := s.wg + 1, loops := s.loops[t := Looping(Top)])
    case LoopTop(t) =>
      if s.closer.Idle? then s.(loops := s.loops[t := Looping(Ready)])
      else s.(wg := s.wg - 1, loops := s.loops[t := LoopEnded])
    case CallAccept(t) => s.(loops := s.loops[t := Looping(Accepting(s.listener.value))])
    case Wakes(t) => s.(loops := s.loops[t := Looping(Top)])
    case Connects(t) => s.(loops := s.loops[t := Looping(Top)])
    case CloseDone => s.(closer := DoneClosed)
    case StopLock => s.(closer := InLock)
    case TakeSnapshot => s.(closer := Snapshot(s.listener))
    case CloseListeners => s.(closed := s.closed + Elements(s.closer.taken), closer := ListenersClosed)
    case WaitReturns => s.(closer := Returned)
  }

  ghost predicate Behaviour(tr: seq<State>, steps: seq<Step>) {
    && |tr| == |steps| + 1
    && Init(tr[0])
    && forall i | 0 <= i < |steps| :: Enabled(tr[i], steps[i]) && tr[i + 1] == Apply(tr[i], steps[i])
  }

  // ---- The invariant ----

  predicate InSection(pc: Pc) { pc.Publishing? || pc.MayPublish? || pc.Starting? || pc.MayStart? }

  /** Saw an open server and is about to act on it. */
  predicate Committed(pc: Pc) { pc.MayPublish? || pc.MayStart? }

  predicate WasPublished(pc: Pc) {
    pc.Published? || pc.Starting? || pc.MayStart? || pc.Refused? || pc.Looping? || pc.LoopEnded?
  }

  /** stop has been through its critical section. */
  predicate Past(c: Closer) { c.Snapshot? || c.ListenersClosed? || c.Returned? }

  predicate Swept(c: Closer) { c.ListenersClosed? || c.Returned? }

  function IsRunning(pc: Pc): nat { if pc.Looping? then 1 else 0 }

  function Running(loops: seq<Pc>): nat { Total(loops, IsRunning) }

  ghost predicate ThreadOK(s: State, t: nat)
    requires t < |s.loops|
  {
    var pc := s.loops[t];
    && (s.lock == Some(t) <==> InSection(pc))
    && (Committed(pc) ==> !s.closer.InLock? && !Past(s.closer))
    && (WasPublished(pc) <==> t in s.replaced || s.listener == Some(t))
    && (t in s.closed <==> pc.RejectedClosed? || (Swept(s.closer) && s.listener == Some(t)))
    && !(t in s.replaced && s.listener == Some(t))
    && !(pc.Looping? && s.closer.Returned?)
  }

  /** A loop accepts on a listener that was published. */
  predicate AcceptOK(s: State, t: nat)
    requires t < |s.loops|
  {
    InAccept(s, t) ==> s.loops[t].at.l < |s.loops| && WasPublished(s.loops[s.loops[t].at.l])
  }

  ghost predicate Inv(s: State) {
    && (s.lock.Some? ==> s.lock.value < |s.loops| && !s.closer.InLock?)
    && (s.listener.Some? ==> s.listener.value < |s.loops|)
    && (s.replaced != {} ==> s.listener.Some?)
    && (forall t | t in s.replaced :: t < |s.loops|)
    && (forall t | t in s.closed :: t < |s.loops|)
    && (s.closer.Snapshot? ==> s.closer.taken == s.listener)
    && s.wg == Running(s.loops)
    && (s.closer.Returned? ==> s.wg == 0)
    && (forall t | 0 <= t < |s.loops| :: ThreadOK(s, t))
    && (forall t | 0 <= t < |s.loops| :: AcceptOK(s, t))
  }

  predicate ByLoop(step: Step) {
    !step.Open? && !step.CloseDone? && !step.StopLock? && !step.TakeSnapshot? && !step.CloseListeners? && !step.WaitReturns?
  }

  lemma LoopThread(s: State, step: Step, u: nat)
    requires Inv(s) && Enabled(s, step) && ByLoop(step) && u < |s.loops|
    ensures ThreadOK(Apply(s, step), u)
  {
    hide Total;
    assert ThreadOK(s, u) && ThreadOK(s, step.t);
  }

  lemma LoopAccept(s: State, step: Step, u: nat)
    requires Inv(s) && Enabled(s, step) && ByLoop(step) && u < |s.loops|
    ensures AcceptOK(Apply(s, step), u)
  {
    hide Total;
    assert AcceptOK(s, u);
    if s.listener.Some? {
      assert ThreadOK(s, s.listener.value);
    }
  }

  lemma LoopKeeps(s: State, step: Step)
    requires Inv(s) && Enabled(s, step) && ByLoop(step)
    ensures Inv(Apply(s, step))
  {
    var s' := Apply(s, step);
    TotalUpdate(s.loops, step.t, s'.loops[step.t], IsRunning);
    assert ThreadOK(s, step.t);
    forall u | 0 <= u < |s'.loops| ensures ThreadOK(s', u) && AcceptOK(s', u) {
      LoopThread(s, step, u);
      LoopAccept(s, step, u);
    }
    hide Total, ThreadOK;
  }

  lemma CloserKeeps(s: State, step: Step)
    requires Inv(s) && Enabled(s, step) && !ByLoop(step)
    ensures Inv(Apply(s, step))
  {
    hide Total;
    var s' := Apply(s, step);
    TotalAppend(s.loops, Opened, IsRunning);
    forall u | 0 <= u < |s'.loops| ensures ThreadOK(s', u) && AcceptOK(s', u) {
      if u < |s.loops| {
        assert ThreadOK(s, u) && AcceptOK(s, u);
        if s.wg == 0 {
          TotalBounds(s.loops, u, IsRunning);
        }
      }
    }
  }

  lemma {:induction false} Reachable(tr: seq<State>, steps: seq<Step>, i: nat)
    requires Behaviour(tr, steps) && i < |tr|
    ensures Inv(tr[i])
  {
    if i > 0 {
      Reachable(tr, steps, i - 1);
      if ByLoop(steps[i - 1]) {
        LoopKeeps(tr[i - 1], steps[i - 1]);
      } else {
        CloserKeeps(tr[i - 1], steps[i - 1]);
      }
    }
  }

  // ---- Results over every run ----

  lemma {:induction false} StaysReturned(tr: seq<State>, steps: seq<Step>, i: nat, j: nat)
    requires Behaviour(tr, steps) && i <= j < |tr| && tr[i].closer.Returned?
    ensures tr[j].closer.Returned?
    decreases j - i
  {
    if i < j {
      StaysReturned(tr, steps, i + 1, j);
    }
  }

  /** When Close returns every event loop ever registered has ended, and none runs or is registered later. */
  lemma LoopsAllEnded(tr: seq<State>, steps: seq<Step>, i: nat, j: nat, t: nat)
    requires Behaviour(tr, steps) && i <= j < |tr| && tr[i].closer.Returned? && t < |tr[j].loops|
    ensures !tr[j].loops[t].Looping? && !tr[j].loops[t].MayStart? && tr[j].wg == 0
    ensures j < |steps| ==> !steps[j].Register?
  {
    StaysReturned(tr, steps, i, j);
    Reachable(tr, steps, j);
    forall u | 0 <= u < |tr[j].loops| ensures !tr[j].loops[u].MayStart? {
      assert ThreadOK(tr[j], u);
    }
    assert ThreadOK(tr[j], t);
  }

  /**
   Once stop has swept, a listener is open only if its RunEventLoop has not yet
   tried to publish it, is about to close it after a rejection, or had it
   replaced by another publish.
   */
  lemma ListenersAccounted(tr: seq<State>, steps: seq<Step>, i: nat, t: nat)
    requires Behaviour(tr, steps) && i < |tr| && Swept(tr[i].closer) && t < |tr[i].loops|
    ensures t in tr[i].closed <==>
            !tr[i].loops[t].Opened? && !tr[i].loops[t].Publishing? && !tr[i].loops[t].Rejected? && t !in tr[i].replaced
  {
    Reachable(tr, steps, i);
    assert ThreadOK(tr[i], t);
  }

  /** Close closes every published listener exactly if no publish found one already in place. */
  lemma AllClosedExactly(tr: seq<State>, steps: seq<Step>, i: nat)
    requires Behaviour(tr, steps) && i < |tr| && Swept(tr[i].closer)
    ensures (forall t | 0 <= t < |tr[i].loops| && WasPublished(tr[i].loops[t]) :: t in tr[i].closed)
       <==> (forall k | 0 <= k < i && steps[k].Store? :: tr[k].listener.None?)
  {
    var s := tr[i];
    Reachable(tr, steps, i);
    ReplacedExactly(tr, steps, i);
    forall t | 0 <= t < |s.loops| ensures WasPublished(s.loops[t]) ==> (t in s.closed <==> t !in s.replaced) {
      assert ThreadOK(s, t);
    }
    if s.replaced != {} {
      var t :| t in s.replaced;
      assert ThreadOK(s, t);
      assert WasPublished(s.loops[t]) && t !in s.closed;
    }
  }

  lemma {:induction false} ReplacedExactly(tr: seq<State>, steps: seq<Step>, i: nat)
    requires Behaviour(tr, steps) && i < |tr|
    ensures tr[i].replaced == {} <==> (forall k | 0 <= k < i && steps[k].Store? :: tr[k].listener.None?)
  {
    if i > 0 {
      ReplacedExactly(tr, steps, i - 1);
    }
  }

  // ---- When Close can return ----

  /** Loop t sits in Accept on a listener that is not closed. */
  predicate Blocked(s: State, t: nat) { InAccept(s, t) && s.loops[t].at.l !in s.closed }

  ghost predicate SomeBlocked(s: State) { exists t: nat :: Blocked(s, t) }

  /** After the sweep a loop is blocked exactly if its listener was replaced by another publish. */
  lemma BlockedExactly(s: State, t: nat)
    requires Inv(s) && Swept(s.closer)
    ensures Blocked(s, t) <==> OnReplaced(s, t)
  {
    if InAccept(s, t) {
      assert AcceptOK(s, t);
      assert ThreadOK(s, s.loops[t].at.l);
    }
  }

  /** Loop t sits in Accept on a listener that another publish has overwritten. */
  predicate OnReplaced(s: State, t: nat) { InAccept(s, t) && s.loops[t].at.l in s.replaced }

  lemma OnReplacedStays(s: State, step: Step, t: nat)
    requires Inv(s) && Enabled(s, step) && OnReplaced(s, t) && step != Connects(t)
    ensures OnReplaced(Apply(s, step), t)
  {
    hide Total;
    assert AcceptOK(s, t);
    assert ThreadOK(s, s.loops[t].at.l);
  }

  /**
   A loop that sits in Accept on an overwritten listener keeps Close from
   returning for good, whether it was called already or is called later, unless a
   peer connects to the lost listener.
   */
  lemma {:induction false} LostListenerHangsClose(tr: seq<State>, steps: seq<Step>, i: nat, j: nat, t: nat)
    requires Behaviour(tr, steps) && i <= j < |tr| && OnReplaced(tr[i], t)
    requires forall k | i <= k < j :: steps[k] != Connects(t)
    ensures OnReplaced(tr[j], t) && !tr[j].closer.Returned?
    decreases j - i
  {
    Reachable(tr, steps, i);
    if i < j {
      OnReplacedStays(tr[i], steps[i], t);
      hide Inv, Apply;
      LostListenerHangsClose(tr, steps, i + 1, j, t);
    } else {
      assert ThreadOK(tr[i], t);
    }
  }

  lemma NoNewBlock(s: State, step: Step)
    requires Inv(s) && Enabled(s, step) && Swept(s.closer) && !SomeBlocked(s)
    ensures !SomeBlocked(Apply(s, step)) && Swept(Apply(s, step).closer)
  {
    hide Total;
    var s' := Apply(s, step);
    if ByLoop(step) {
      assert ThreadOK(s, step.t);
    }
    forall u: nat | u < |s'.loops| ensures !Blocked(s', u) {
      if u < |s.loops| {
        assert !Blocked(s, u);
      }
      if s.listener.Some? {
        assert ThreadOK(s, s.listener.value);
      }
    }
  }

  /** Steps that bring Close nearer to its return. */
  predicate Drives(step: Step) { step.LoopTop? || step.CallAccept? || step.Wakes? || step.WaitReturns? }

  /** If no loop is blocked after the sweep, Close has returned or a step towards its return can be taken. */
  lemma UnblockedCloseGoesOn(s: State) returns (step: Step)
    requires Inv(s) && Swept(s.closer) && !SomeBlocked(s) && !s.closer.Returned?
    ensures Drives(step) && Enabled(s, step)
  {
    if s.wg == 0 {
      step := WaitReturns;
    } else {
      var t := TotalPositive(s.loops, IsRunning);
      assert ThreadOK(s, t) && !Blocked(s, t);
      step := match s.loops[t].at case Top => LoopTop(t) case Ready => CallAccept(t) case Accepting(_) => Wakes(t);
    }
  }

  function StageRank(pc: Pc): nat {
    if !pc.Looping? then 0 else match pc.at case Top => 1 case Accepting(_) => 2 case Ready => 3
  }

  /** How many steps the event loops can still take after the sweep. */
  function LoopRank(loops: seq<Pc>): nat { Total(loops, StageRank) }

  function CloseRank(s: State): nat { LoopRank(s.loops) + if s.closer.Returned? then 0 else 1 }

  /** After the sweep no step raises the rank, and every step towards the return lowers it. */
  lemma RankFalls(s: State, step: Step)
    requires Inv(s) && Enabled(s, step) && Swept(s.closer)
    ensures CloseRank(Apply(s, step)) <= CloseRank(s)
    ensures Drives(step) ==> CloseRank(Apply(s, step)) < CloseRank(s)
  {
    hide Total;
    if ByLoop(step) {
      assert ThreadOK(s, step.t);
      TotalUpdate(s.loops, step.t, Apply(s, step).loops[step.t], StageRank);
    } else if step.Open? {
      TotalAppend(s.loops, Opened, StageRank);
    }
  }

  function DriveSteps(steps: seq<Step>): nat {
    if steps == [] then 0 else DriveSteps(steps[1..]) + if Drives(steps[0]) then 1 else 0
  }

  lemma {:induction false} DriveBound(tr: seq<State>, steps: seq<Step>, i: nat, j: nat)
    requires Behaviour(tr, steps) && i <= j < |tr| && Swept(tr[i].closer) && !SomeBlocked(tr[i])
    ensures Swept(tr[j].closer) && !SomeBlocked(tr[j])
    ensures DriveSteps(steps[i..j]) + CloseRank(tr[j]) <= CloseRank(tr[i])
    decreases j - i
  {
    if i < j {
      Reachable(tr, steps, i);
      NoNewBlock(tr[i], steps[i]);
      RankFalls(tr[i], steps[i]);
      hide Inv, Apply, CloseRank, SomeBlocked;
      DriveBound(tr, steps, i + 1, j);
      assert steps[i..j][1..] == steps[i + 1..j];
    } else {
      assert steps[i..j] == [];
    }
  }

  /**
   If no loop is blocked after the sweep, Close returns: until it has, a step
   towards its return can be taken, and there are at most CloseRank such steps.
   */
  lemma UnblockedCloseReturns(tr: seq<State>, steps: seq<Step>, i: nat, j: nat)
    requires Behaviour(tr, steps) && i <= j < |tr| && Swept(tr[i].closer) && !SomeBlocked(tr[i])
    ensures DriveSteps(steps[i..j]) <= CloseRank(tr[i])
    ensures tr[j].closer.Returned? || exists step :: Drives(step) && Enabled(tr[j], step)
  {
    DriveBound(tr, steps, i, j);
    Reachable(tr, steps, j);
    hide SomeBlocked, CloseRank;
    if !tr[j].closer.Returned? {
      var step := UnblockedCloseGoesOn(tr[j]);
      assert Drives(step) && Enabled(tr[j], step);
    }
  }

  /** A server on which no publish found a listener in place never blocks a loop after the sweep. */
  lemma SingleListenerNeverBlocks(tr: seq<State>, steps: seq<Step>, i: nat)
    requires Behaviour(tr, steps) && i < |tr| && Swept(tr[i].closer)
    requires forall k | 0 <= k < i && steps[k].Store? :: tr[k].listener.None?
    ensures !SomeBlocked(tr[i])
  {
    Reachable(tr, steps, i);
    ReplacedExactly(tr, steps, i);
    forall t: nat ensures !Blocked(tr[i], t) {
      BlockedExactly(tr[i], t);
    }
  }

  // ---- What goes wrong with two listeners ----

  /** Close has returned, and listener t was published but never closed. */
  predicate LeftOpen(s: State, t: nat) {
    s.closer.Returned? && t < |s.loops| && WasPublished(s.loops[t]) && t !in s.closed
  }

  ghost predicate Occurs(s: State) {
    exists tr: seq<State>, steps: seq<Step> :: Behaviour(tr, steps) && tr[|steps|] == s
  }

  lemma Then(s: State, step: Step)
    requires Occurs(s) && Enabled(s, step)
    ensures Occurs(Apply(s, step))
  {
    var tr: seq<State>, steps: seq<Step> :| Behaviour(tr, steps) && tr[|steps|] == s;
    var tr', steps' := tr + [Apply(s, step)], steps + [step];
    assert Behaviour(tr', steps') && tr'[|steps'|] == Apply(s, step);
  }

  lemma Starts()
    ensures Occurs(State(None, None, {}, {}, 0, [], Idle))
  {
    var tr: seq<State>, steps: seq<Step> := [State(None, None, {}, {}, 0, [], Idle)], [];
    assert Behaviour(tr, steps) && tr[|steps|] == State(None, None, {}, {}, 0, [], Idle);
  }

  /** Opening and publishing a further listener, with the server open and nobody in the lock. */
  lemma Publishes(s: State, t: nat) returns (s': State)
    requires Occurs(s) && At(s, t, Opened) && s.lock.None? && s.closer.Idle?
    ensures Occurs(s')
    ensures s' == s.(replaced := s.replaced + Elements(s.listener), listener := Some(t), loops := s.loops[t := Published])
  {
    hide Occurs;
    Then(s, PublishLock(t));
    s' := Apply(s, PublishLock(t));
    Then(s', PublishCheck(t));
    s' := Apply(s', PublishCheck(t));
    Then(s', Store(t));
    s' := Apply(s', Store(t));
    assert s'.loops == s.loops[t := Published];
  }

  /** Close from start to return, with nobody in the lock and no event loop. */
  lemma Closes(s: State) returns (s': State)
    requires Occurs(s) && s.lock.None? && s.closer.Idle? && s.wg == 0
    ensures Occurs(s') && s' == s.(closed := s.closed + Elements(s.listener), closer := Returned)
  {
    hide Occurs;
    s' := Sweeps(s);
    Then(s', WaitReturns);
    s' := Apply(s', WaitReturns);
  }

  /** Two RunEventLoop calls that both open before either publishes leave the first listener open for good. */
  lemma ListenerLost()
    ensures exists s: State, t: nat :: Occurs(s) && LeftOpen(s, t)
  {
    hide Occurs;
    Starts();
    var s := State(None, None, {}, {}, 0, [], Idle);
    Then(s, Open);
    s := Apply(s, Open);
    Then(s, Open);
    s := Apply(s, Open);
    s := Publishes(s, 0);
    s := Publishes(s, 1);
    s := Closes(s);
    assert LeftOpen(s, 0);
  }

  /** A published server registers its event loop, with the server open and nobody in the lock. */
  lemma Registers(s: State, t: nat) returns (s': State)
    requires Occurs(s) && At(s, t, Published) && s.lock.None? && s.closer.Idle?
    ensures Occurs(s') && s' == s.(wg := s.wg + 1, loops := s.loops[t := Looping(Top)])
  {
    hide Occurs;
    Then(s, StartLock(t));
    s' := Apply(s, StartLock(t));
    Then(s', StartCheck(t));
    s' := Apply(s', StartCheck(t));
    Then(s', Register(t));
    s' := Apply(s', Register(t));
    assert s'.loops == s.loops[t := Looping(Top)];
  }

  /** An event loop goes from its top into Accept while the server is open. */
  lemma Accepts(s: State, t: nat) returns (s': State)
    requires Occurs(s) && At(s, t, Looping(Top)) && s.closer.Idle? && s.listener.Some?
    ensures Occurs(s') && s' == s.(loops := s.loops[t := Looping(Accepting(s.listener.value))])
  {
    hide Occurs;
    Then(s, LoopTop(t));
    s' := Apply(s, LoopTop(t));
    Then(s', CallAccept(t));
    s' := Apply(s', CallAccept(t));
    assert s'.loops == s.loops[t := Looping(Accepting(s.listener.value))];
  }

  /** stop, with nobody in the lock. */
  lemma Sweeps(s: State) returns (s': State)
    requires Occurs(s) && s.lock.None? && s.closer.Idle?
    ensures Occurs(s') && s' == s.(closed := s.closed + Elements(s.listener), closer := ListenersClosed)
  {
    hide Occurs;
    Then(s, CloseDone);
    s' := Apply(s, CloseDone);
    Then(s', StopLock);
    s' := Apply(s', StopLock);
    Then(s', TakeSnapshot);
    s' := Apply(s', TakeSnapshot);
    Then(s', CloseListeners);
    s' := Apply(s', CloseListeners);
  }

  /** A run in which an event loop is left blocked on an overwritten listener, so that Close hangs. */
  lemma CloseCanHang()
    ensures exists s: State, t: nat :: Occurs(s) && Swept(s.closer) && Blocked(s, t)
  {
    hide Occurs;
    Starts();
    var s := State(None, None, {}, {}, 0, [], Idle);
    Then(s, Open);
    s := Apply(s, Open);
    Then(s, Open);
    s := Apply(s, Open);
    s := Publishes(s, 0);
    s := Registers(s, 0);
    s := Accepts(s, 0);
    s := Publishes(s, 1);
    s := Sweeps(s);
    assert Blocked(s, 0);
  }

  // ---- Up to the sweep ----

  /** What a RunEventLoop in its critical section does next. */
  function SectionStep(s: State, t: nat): Step
    requires t < |s.loops| && InSection(s.loops[t])
  {
    match s.loops[t]
    case Publishing => PublishCheck(t)
    case MayPublish => Store(t)
    case Starting => StartCheck(t)
    case MayStart => Register(t)
  }

  function CloserStep(c: Closer): Step {
    match c
    case Idle => CloseDone
    case DoneClosed => StopLock
    case InLock => TakeSnapshot
    case _ => CloseListeners
  }

  /** Close gets to its sweep: its next step is enabled, or that of the RunEventLoop that holds s.lock. */
  lemma CloseReachesSweep(tr: seq<State>, steps: seq<Step>, i: nat)
    requires Behaviour(tr, steps) && i < |tr| && !Swept(tr[i].closer)
    ensures Enabled(tr[i], CloserStep(tr[i].closer))
            || exists t: nat :: t < |tr[i].loops| && tr[i].lock == Some(t) && InSection(tr[i].loops[t])
                                && Enabled(tr[i], SectionStep(tr[i], t))
  {
    var s := tr[i];
    Reachable(tr, steps, i);
    if s.lock.Some? {
      var t := s.lock.value;
      assert ThreadOK(s, t);
      assert Enabled(s, SectionStep(s, t));
    }
  }
}
