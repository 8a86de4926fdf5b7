/**
 Single-flight reconnect (transport/client.go, runReconnect). Every step is one
 c.Lock critical section, or the return of a reConnect pass; any number of
 goroutines may trigger, and each loop goroutine ever started is remembered.
 */
module ReconnectLoop {
  import opened Options

  /** A loop goroutine: before its critical section, inside reConnect(), or gone. */
  datatype LoopPc = AtTop | InPass | Exited

  datatype Client = Client(
    done: bool,                    // c.done is closed
    reconnectDone: Option<nat>,    // the loop whose channel is installed
    pending: bool,                 // reconnectPending
    loops: seq<LoopPc>,
    accepted: seq<nat>,            // for each accepted trigger, the loop whose channel it returned
    served: nat)                   // how many of them a pass has started after

  datatype Step = Trigger | LoopSection(l: nat) | PassReturns(l: nat) | Close

  ghost predicate Init(c: Client) {
    c == Client(false, None, false, [], [], 0)
  }

  predicate Enabled(c: Client, step: Step) {
    match step
    case LoopSection(l) => l < |c.loops| && c.loops[l].AtTop?
    case PassReturns(l) => l < |c.loops| && c.loops[l].InPass?
    case _ => true
  }

  function Apply(c: Client, step: Step): Client
    requires Enabled(c, step)
  {
    match step
    case Trigger =>
      if c.done then c
      else if c.reconnectDone.Some? then c.(pending := true, accepted := c.accepted + [c.reconnectDone.value])
      else c.(reconnectDone := Some(|c.loops|), pending := true, loops := c.loops + [AtTop],
              accepted := c.accepted + [|c.loops|])
    case LoopSection(l) =>
      if c.done then c.(reconnectDone := None, pending := false, loops := c.loops[l := Exited])
      else if !c.pending then c.(reconnectDone := None, loops := c.loops[l := Exited])
      else c.(pending := false, loops := c.loops[l := InPass], served := |c.accepted|)
    case PassReturns(l) => c.(loops := c.loops[l := AtTop])
    case Close => c.(done := true)
  }

  /** The step in which loop l starts a reConnect pass. */
  predicate StartsPass(c: Client, step: Step) {
    step.LoopSection? && Enabled(c, step) && !c.done && c.pending
  }

  ghost predicate Behaviour(tr: seq<Client>, steps: seq<Step>) {
    && |tr| == |steps| + 1
    && Init(tr[0])
    && forall i | 0 <= i < |steps| :: Enabled(tr[i], steps[i]) && tr[i + 1] == Apply(tr[i], steps[i])
  }

  ghost predicate Inv(c: Client) {
    && (forall l | 0 <= l < |c.loops| :: c.loops[l].Exited? || c.reconnectDone == Some(l))
    && (c.reconnectDone.Some? ==> c.reconnectDone.value < |c.loops| && !c.loops[c.reconnectDone.value].Exited?)
    && c.served <= |c.accepted|
    && (!c.done ==> (c.pending <==> c.served < |c.accepted|))
    && (!c.done && c.served < |c.accepted| ==>
          && c.pending && c.reconnectDone.Some?
          && forall k | c.served <= k < |c.accepted| :: c.accepted[k] == c.reconnectDone.value)
    && (forall k | 0 <= k < |c.accepted| :: c.accepted[k] < |c.loops|)
  }

  lemma {:induction false} Reachable(tr: seq<Client>, steps: seq<Step>, i: nat)
    requires Behaviour(tr, steps) && i < |tr|
    ensures Inv(tr[i])
  {
    if i > 0 { Reachable(tr, steps, i - 1); }
  }

  /** At most one loop is between its registration and its exit section, so passes never overlap. */
  lemma SingleFlight(tr: seq<Client>, steps: seq<Step>, i: nat, l: nat, m: nat)
    requires Behaviour(tr, steps) && i < |tr| && l < |tr[i].loops| && m < |tr[i].loops|
    requires !tr[i].loops[l].Exited? && !tr[i].loops[m].Exited?
    ensures l == m
  {
    Reachable(tr, steps, i);
  }

  lemma {:induction false} Monotone(tr: seq<Client>, steps: seq<Step>, i: nat, j: nat)
    requires Behaviour(tr, steps) && i <= j < |tr|
    ensures tr[i].accepted <= tr[j].accepted && tr[i].served <= tr[j].served && |tr[i].loops| <= |tr[j].loops|
    ensures tr[i].done ==> tr[j].done && tr[j].accepted == tr[i].accepted && tr[j].served == tr[i].served
                           && |tr[i].loops| == |tr[j].loops|
    decreases j - i
  {
    Reachable(tr, steps, i);
    if i < j { Monotone(tr, steps, i + 1, j); }
  }

  /** After the client is closed no loop and no pass is ever started, and no trigger is accepted. */
  lemma NothingStartsAfterClose(tr: seq<Client>, steps: seq<Step>, i: nat, j: nat)
    requires Behaviour(tr, steps) && i <= j < |steps| && tr[i].done
    ensures !StartsPass(tr[j], steps[j]) && |tr[j].loops| == |tr[i].loops| && tr[j].accepted == tr[i].accepted
  {
    Monotone(tr, steps, i, j);
  }

  /** If the number of served triggers grew past k, a pass was started in between. */
  lemma {:induction false} ServedByPass(tr: seq<Client>, steps: seq<Step>, i: nat, j: nat, k: nat)
    requires Behaviour(tr, steps) && i <= j < |tr| && tr[i].served <= k < tr[j].served
    ensures exists m :: i <= m < j && StartsPass(tr[m], steps[m]) && k < |tr[m].accepted|
    decreases j - i
  {
    if tr[i + 1].served <= k {
      ServedByPass(tr, steps, i + 1, j, k);
    } else {
      assert StartsPass(tr[i], steps[i]);
    }
  }

  /**
   No lost trigger. The channel a trigger got belongs to a loop that does not exit
   on an open client before a pass has started after the trigger.
   */
  lemma NoLostTrigger(tr: seq<Client>, steps: seq<Step>, i: nat, j: nat)
    requires Behaviour(tr, steps) && i < j < |steps|
    requires steps[i] == Trigger && !tr[i].done
    requires var l := tr[i + 1].accepted[|tr[i].accepted|]; steps[j] == LoopSection(l) && tr[j + 1].loops[l].Exited?
    requires !tr[j].done
    ensures exists m :: i < m < j && StartsPass(tr[m], steps[m])
  {
    var k := |tr[i].accepted|;
    Reachable(tr, steps, i);
    Reachable(tr, steps, j);
    Monotone(tr, steps, i + 1, j);
    assert !tr[j].pending;
    assert tr[i + 1].served <= k < tr[j].served;
    ServedByPass(tr, steps, i + 1, j, k);
  }

  /**
   An accepted trigger is served, or the client was closed, or the loop it waits
   for is alive and its next critical section starts a pass.
   */
  lemma TriggerIsAlive(tr: seq<Client>, steps: seq<Step>, i: nat, k: nat)
    requires Behaviour(tr, steps) && i < |tr| && k < |tr[i].accepted|
    ensures var c, l := tr[i], tr[i].accepted[k];
            || k < c.served
            || c.done
            || (l < |c.loops| && (c.loops[l].InPass? || (c.loops[l].AtTop? && StartsPass(c, LoopSection(l)))))
  {
    Reachable(tr, steps, i);
  }

  /** Close takes effect at once, and the next critical section of a loop on a closed client is its last. */
  lemma CloseEndsTheLoop(tr: seq<Client>, steps: seq<Step>, i: nat, j: nat, l: nat)
    requires Behaviour(tr, steps) && i < j < |steps| && steps[i] == Close && steps[j] == LoopSection(l)
    ensures tr[j].done && tr[j + 1].loops[l].Exited? && tr[j + 1].reconnectDone.None?
  {
    Monotone(tr, steps, i + 1, j);
  }

  /** A loop that has not exited can always take its next step. */
  lemma LoopsGoOn(c: Client, l: nat)
    requires l < |c.loops| && !c.loops[l].Exited?
    ensures Enabled(c, LoopSection(l)) || Enabled(c, PassReturns(l))
  {
  }

  /** No pass without a reason: each one starts after a trigger that no earlier pass has served. */
  lemma NoIdlePass(tr: seq<Client>, steps: seq<Step>, i: nat)
    requires Behaviour(tr, steps) && i < |steps| && StartsPass(tr[i], steps[i])
    ensures tr[i].served < |tr[i].accepted| && tr[i + 1].served == |tr[i].accepted|
  {
    Reachable(tr, steps, i);
  }

  function Passes(tr: seq<Client>, steps: seq<Step>, n: nat): nat
    requires n <= |steps| <= |tr|
  {
    if n == 0 then 0 else Passes(tr, steps, n - 1) + if StartsPass(tr[n - 1], steps[n - 1]) then 1 else 0
  }

  /** There are never more passes than accepted triggers. */
  lemma {:induction false} PassesBounded(tr: seq<Client>, steps: seq<Step>, n: nat)
    requires Behaviour(tr, steps) && n <= |steps|
    ensures Passes(tr, steps, n) <= tr[n].served <= |tr[n].accepted|
  {
    Reachable(tr, steps, n);
    if n > 0 {
      PassesBounded(tr, steps, n - 1);
      Monotone(tr, steps, n - 1, n);
      if StartsPass(tr[n - 1], steps[n - 1]) {
        NoIdlePass(tr, steps, n - 1);
      }
    }
  }
}
