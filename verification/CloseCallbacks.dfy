/**
 AddCloseCallback and RemoveCloseCallback racing with stop
 (transport/session_callback.go, transport/session.go). stop copies only the
 list header, so the goroutine that runs the callbacks walks the live nodes:
 it is the closed done channel that keeps them from changing under it.
 */
module CloseCallbacks {
  import opened Options
  import opened CallbackSpec

  datatype CallerPc =
    | Waiting        // for closeCallbackMutex
    | Holding        // about to look at done
    | Cleared        // saw an open session
    | Leaving(took: bool)
    | Finished(took: bool)

  datatype Caller = Caller(op: Op, pc: CallerPc)

  datatype StopPc =
    | Before
    | DoneClosed
    | Reading        // holds the read side of the mutex
    | Copied
    | Running(i: nat)
    | Ended(panicked: bool)

  datatype State = State(
    writer: Option<nat>,      // who holds the mutex exclusively
    registry: seq<Entry>,     // the live list
    accepted: seq<Op>,        // operations that took effect, in order
    callers: seq<Caller>,
    stop: StopPc,
    snapshot: seq<Entry>,
    ran: seq<nat>,
    panics: set<nat>)

  datatype Step =
    | Start(op: Op)
    | Lock(t: nat)
    | Check(t: nat)
    | Mutate(t: nat)
    | Unlock(t: nat)
    | CloseDone
    | ReadLock
    | Copy
    | ReadUnlock
    | RunNext
    | RunOut

  ghost predicate Init(s: State) {
    s == State(None, [], [], [], Before, [], [], s.panics)
  }

  predicate At(s: State, t: nat, pc: CallerPc) {
    t < |s.callers| && s.callers[t].pc == pc
  }

  predicate Enabled(s: State, step: Step) {
    match step
    case Start(op) => op.Add? ==> op.callback.Some?
    case Lock(t) => At(s, t, Waiting) && s.writer.None? && !s.stop.Reading? && !s.stop.Copied?
    case Check(t) => At(s, t, Holding)
    case Mutate(t) => At(s, t, Cleared)
    case Unlock(t) => t < |s.callers| && s.callers[t].pc.Leaving?
    case CloseDone => s.stop.Before?
    case ReadLock => s.stop.DoneClosed? && s.writer.None?
    case Copy => s.stop.Reading?
    case ReadUnlock => s.stop.Copied?
    case RunNext => s.stop.Running? && s.stop.i < |s.registry|
    case RunOut => s.stop.Running? && s.stop.i >= |s.registry|
  }

  function To(s: State, t: nat, pc: CallerPc): seq<Caller>
    requires t < |s.callers|
  {
    s.callers[t := s.callers[t].(pc := pc)]
  }

  function Apply(s: State, step: Step): State
    requires Enabled(s, step)
  {
    match step
    case Start(op) => s.(callers := s.callers + [Caller(op, Waiting)])
    case Lock(t) => s.(writer := Some(t), callers := To(s, t, Holding))
    case Check(t) => s.(callers := To(s, t, if s.stop.Before? then Cleared else Leaving(false)))
    case Mutate(t) =>
      s.(registry := CallbackSpec.Apply(s.registry, s.callers[t].op),
         accepted := s.accepted + [s.callers[t].op],
         callers := To(s, t, Leaving(true)))
    case Unlock(t) => s.(writer := None, callers := To(s, t, Finished(s.callers[t].pc.took)))
    case CloseDone => s.(stop := DoneClosed)
    case ReadLock => s.(stop := Reading)
    case Copy => s.(stop := Copied, snapshot := s.registry)
    case ReadUnlock => s.(stop := Running(0))
    case RunNext =>
      var f := s.registry[s.stop.i].call;
      s.(ran := s.ran + [f], stop := if f in s.panics then Ended(true) else Running(s.stop.i + 1))
    case RunOut => s.(stop := Ended(false))
  }

  ghost predicate Behaviour(tr: seq<State>, steps: seq<Step>) {
    && |tr| == |steps| + 1
    && Init(tr[0])
    && forall i | 0 <= i < |steps| :: Enabled(tr[i], steps[i]) && tr[i + 1] == Apply(tr[i], steps[i])
  }

  /** The snapshot has been taken. */
  predicate Snapped(s: State) { s.stop.Copied? || s.stop.Running? || s.stop.Ended? }

  /** What ran is an initial stretch of the entries, and only its last callback can have panicked. */
  predicate RanPrefix(ran: seq<nat>, entries: seq<Entry>, panics: set<nat>) {
    && |ran| <= |entries|
    && (forall i | 0 <= i < |ran| :: ran[i] == entries[i].call)
    && (forall i | 0 <= i < |ran| - 1 :: ran[i] !in panics)
  }

  predicate CallerOK(s: State, t: nat)
    requires t < |s.callers|
  {
    var pc := s.callers[t].pc;
    && (s.writer == Some(t) <==> pc.Holding? || pc.Cleared? || pc.Leaving?)
    && (pc.Cleared? ==> s.stop.Before? || s.stop.DoneClosed?)
  }

  ghost predicate Inv(s: State) {
    && (s.stop.Reading? || s.stop.Copied? ==> s.writer.None?)
    && (s.writer.Some? ==> s.writer.value < |s.callers|)
    && s.registry == ApplyAll(s.accepted)
    && (Snapped(s) ==> s.snapshot == s.registry)
    && RanPrefix(s.ran, s.registry, s.panics)
    && (s.stop.Running? ==> |s.ran| == s.stop.i && (s.ran != [] ==> s.ran[|s.ran| - 1] !in s.panics))
    && (!s.stop.Running? && !s.stop.Ended? ==> s.ran == [])
    && (s.stop.Ended? && !s.stop.panicked ==>
          |s.ran| == |s.registry| && (s.ran != [] ==> s.ran[|s.ran| - 1] !in s.panics))
    && (s.stop.Ended? && s.stop.panicked ==> s.ran != [] && s.ran[|s.ran| - 1] in s.panics)
    && (forall t | 0 <= t < |s.callers| :: CallerOK(s, t))
  }

  predicate ByCaller(step: Step) { step.Start? || step.Lock? || step.Check? || step.Mutate? || step.Unlock? }

  lemma CallerAfter(s: State, step: Step, t: nat)
    requires Inv(s) && Enabled(s, step) && ByCaller(step) && t < |Apply(s, step).callers|
    ensures CallerOK(Apply(s, step), t)
  {
    hide CallbackSpec.Apply, ApplyAll, RanPrefix;
    if t < |s.callers| {
      assert CallerOK(s, t);
    }
    if !step.Start? {
      assert CallerOK(s, step.t);
    }
  }

  lemma CallerKeeps(s: State, step: Step)
    requires Inv(s) && Enabled(s, step) && ByCaller(step)
    ensures Inv(Apply(s, step))
  {
    var s' := Apply(s, step);
    hide CallbackSpec.Apply;
    if step.Mutate? {
      assert CallerOK(s, step.t);
      assert s'.accepted[..|s.accepted|] == s.accepted;
    }
    forall t | 0 <= t < |s'.callers| ensures CallerOK(s', t) {
      CallerAfter(s, step, t);
    }
  }

  lemma StopKeeps(s: State, step: Step)
    requires Inv(s) && Enabled(s, step) && !ByCaller(step)
    ensures Inv(Apply(s, step))
  {
    var s' := Apply(s, step);
    forall t | 0 <= t < |s'.callers| ensures CallerOK(s', t) {
      assert CallerOK(s, t);
    }
  }

  lemma {:induction false} Reachable(tr: seq<State>, steps: seq<Step>, i: nat)
    requires Behaviour(tr, steps) && i < |tr|
    ensures Inv(tr[i])
  {
    if i > 0 {
      Reachable(tr, steps, i - 1);
      var step := steps[i - 1];
      if ByCaller(step) {
        CallerKeeps(tr[i - 1], step);
      } else {
        StopKeeps(tr[i - 1], step);
      }
    }
  }

  /** Once stop has its snapshot, the live list, the accepted operations and the snapshot itself never change again. */
  lemma {:induction false} Frozen(tr: seq<State>, steps: seq<Step>, i: nat, j: nat)
    requires Behaviour(tr, steps) && i <= j < |tr| && Snapped(tr[i])
    ensures Snapped(tr[j]) && tr[j].snapshot == tr[i].snapshot && tr[j].accepted == tr[i].accepted
    ensures tr[j].registry == tr[j].snapshot == ApplyAll(tr[i].accepted)
    decreases j - i
  {
    Reachable(tr, steps, i);
    hide CallbackSpec.Apply, ApplyAll, RanPrefix;
    if i < j {
      assert steps[i].Mutate? ==> CallerOK(tr[i], steps[i].t);
      Frozen(tr, steps, i + 1, j);
    }
  }

  /**
   The callbacks run exactly once each, in the order of the ordered map left by
   all accepted operations: all of them, or exactly up to the first that panics.
   */
  lemma RunsTheSnapshotOnce(tr: seq<State>, steps: seq<Step>, i: nat)
    requires Behaviour(tr, steps) && i < |tr| && tr[i].stop.Ended?
    ensures Represents(tr[i].snapshot, MapApplyAll(tr[i].accepted))
    ensures RanPrefix(tr[i].ran, tr[i].snapshot, tr[i].panics)
    ensures |tr[i].ran| == |tr[i].snapshot| || (tr[i].ran != [] && tr[i].ran[|tr[i].ran| - 1] in tr[i].panics)
    ensures tr[i].stop.panicked <==> exists k :: 0 <= k < |tr[i].snapshot| && tr[i].snapshot[k].call in tr[i].panics
  {
    Reachable(tr, steps, i);
    RefinesOrderedMap(tr[i].accepted);
    var s := tr[i];
    if s.stop.panicked {
      assert s.snapshot[|s.ran| - 1].call in s.panics;
    } else {
      forall k | 0 <= k < |s.snapshot| ensures s.snapshot[k].call !in s.panics {
        assert s.ran[k] == s.snapshot[k].call;
      }
    }
  }

  // ---- Which operations are accepted ----

  /** What becomes of the operation of t once it has looked at done. */
  predicate Decided(s: State, t: nat, open: bool) {
    && t < |s.callers|
    && var c := s.callers[t];
       if open then c.pc.Cleared? || ((c.pc == Leaving(true) || c.pc == Finished(true)) && c.op in s.accepted)
       else c.pc == Leaving(false) || c.pc == Finished(false)
  }

  lemma DecidedStays(s: State, step: Step, t: nat, open: bool)
    requires Enabled(s, step) && Decided(s, t, open)
    ensures Decided(Apply(s, step), t, open) && Apply(s, step).callers[t].op == s.callers[t].op
  {
    hide CallbackSpec.Apply;
  }

  lemma {:induction false} StaysDecided(tr: seq<State>, steps: seq<Step>, i: nat, j: nat, t: nat, open: bool)
    requires Behaviour(tr, steps) && i <= j < |tr| && Decided(tr[i], t, open)
    ensures Decided(tr[j], t, open) && tr[j].callers[t].op == tr[i].callers[t].op
    decreases j - i
  {
    if i < j {
      DecidedStays(tr[i], steps[i], t, open);
      hide Apply, Enabled, Decided;
      StaysDecided(tr, steps, i + 1, j, t, open);
    }
  }

  /** An operation takes effect exactly if it found the session open when it held the mutex. */
  lemma AcceptedExactly(tr: seq<State>, steps: seq<Step>, i: nat, j: nat, t: nat)
    requires Behaviour(tr, steps) && i < j < |tr| && steps[i] == Check(t)
    ensures Decided(tr[j], t, tr[i].stop.Before?)
    ensures tr[j].callers[t].pc.Finished? ==>
              (tr[j].callers[t].pc.took <==> tr[i].stop.Before?)
              && (tr[j].callers[t].pc.took ==> tr[i].callers[t].op in tr[j].accepted)
  {
    assert Decided(tr[i + 1], t, tr[i].stop.Before?);
    StaysDecided(tr, steps, i + 1, j, t, tr[i].stop.Before?);
  }

  /** The step a caller is ready for. */
  function NextStep(s: State, t: nat): Step
    requires t < |s.callers|
  {
    match s.callers[t].pc
    case Waiting => Lock(t)
    case Holding => Check(t)
    case Cleared => Mutate(t)
    case _ => Unlock(t)
  }

  function StopStep(s: State): Step {
    match s.stop
    case Before => CloseDone
    case DoneClosed => ReadLock
    case Reading => Copy
    case Copied => ReadUnlock
    case Running(i) => if i < |s.registry| then RunNext else RunOut
    case Ended(_) => RunOut
  }

  /** Whoever waits for the mutex waits for a caller or a stop that can go on. */
  lemma NobodyIsStuck(tr: seq<State>, steps: seq<Step>, i: nat)
    requires Behaviour(tr, steps) && i < |tr|
    ensures !tr[i].stop.Ended? ==>
              Enabled(tr[i], StopStep(tr[i]))
              || exists t: nat :: t < |tr[i].callers| && tr[i].writer == Some(t) && Enabled(tr[i], NextStep(tr[i], t))
    ensures forall t: nat | t < |tr[i].callers| && !tr[i].callers[t].pc.Finished? ::
              Enabled(tr[i], NextStep(tr[i], t)) || tr[i].stop.Reading? || tr[i].stop.Copied?
              || exists u: nat :: u < |tr[i].callers| && tr[i].writer == Some(u) && Enabled(tr[i], NextStep(tr[i], u))
  {
    var s := tr[i];
    Reachable(tr, steps, i);
    if s.writer.Some? {
      var u := s.writer.value;
      assert CallerOK(s, u);
      assert Enabled(s, NextStep(s, u));
    }
  }
}
