/**
 The client's session pool (transport/client.go): connect(), sessionNum() and
 stop() against sessions that close or are reset at any time. Steps are the
 c.Lock critical sections and the calls made outside of them; any number of
 goroutines connect at once.
 */
module ClientPool {
  import opened Options

  /** A session as clientSessionActive sees it; reset leaves an open done but no Connection. */
  datatype Session = Session(conn: bool, closed: bool, ran: bool)

  predicate Active(x: Session) { x.conn && !x.closed }

  datatype Pc =
    | Dialed(ss: nat)          // dial returned a session; newSession and run() follow
    | Returned(ss: nat)        // run() returned inside connect()
    | MustClose(ss: nat)       // refused by the pool, ss.Close() is next
    | Stopping(left: set<nat>) // stop() closes the sessions it took over
    | Gone

  datatype Client = Client(
    number: nat,
    done: bool,                  // closed under the same lock that takes ssMap
    ssMap: Option<set<nat>>,     // nil once stop() took it
    sessions: seq<Session>,
    threads: seq<Pc>)

  datatype Step =
    | Dial                       // a goroutine enters connect() and dials successfully
    | CallbackFails(t: nat)      // NewSessionCallback returned an error
    | RunReturns(t: nat)
    | Admit(t: nat)              // the critical section of connect()
    | CloseRefused(t: nat)
    | SessionNum                 // prune and count
    | Stop                       // the critical section of stop()
    | StopNext(t: nat, ss: nat)  // stop() closes its next session
    | SessionCloses(ss: nat)     // peer, application or heartbeat
    | SessionReset(ss: nat)      // a reset worker cleared the session

  ghost predicate Init(c: Client) {
    c.number > 0 && c == Client(c.number, false, Some({}), [], [])
  }

  predicate Enabled(c: Client, step: Step) {
    match step
    case CallbackFails(t) => t < |c.threads| && c.threads[t].Dialed?
    case RunReturns(t) => t < |c.threads| && c.threads[t].Dialed? && c.threads[t].ss < |c.sessions|
    case Admit(t) => t < |c.threads| && c.threads[t].Returned? && c.threads[t].ss < |c.sessions|
    case CloseRefused(t) => t < |c.threads| && c.threads[t].MustClose? && c.threads[t].ss < |c.sessions|
    case Stop => !c.done
    case StopNext(t, ss) => t < |c.threads| && c.threads[t].Stopping? && ss in c.threads[t].left && ss < |c.sessions|
    case SessionCloses(ss) => ss < |c.sessions|
    case SessionReset(ss) => ss < |c.sessions|
    case _ => true
  }

  /** The loop that deletes inactive sessions from the pool. */
  ghost function Prune(pool: set<nat>, sessions: seq<Session>): set<nat> {
    set x | x in pool && x < |sessions| && Active(sessions[x])
  }

  function Closed(c: Client, ss: nat): seq<Session>
    requires ss < |c.sessions|
  {
    c.sessions[ss := c.sessions[ss].(closed := true)]
  }

  ghost function ApplyAdmit(c: Client, t: nat, ss: nat): Client
    requires t < |c.threads| && ss < |c.sessions|
  {
    if c.ssMap.None? then c.(threads := c.threads[t := MustClose(ss)])
    else if !Active(c.sessions[ss]) then c.(threads := c.threads[t := Gone])
    else
      var pool := Prune(c.ssMap.value, c.sessions);
      if c.number <= |pool| then c.(ssMap := Some(pool), threads := c.threads[t := MustClose(ss)])
      else c.(ssMap := Some(pool + {ss}), threads := c.threads[t := Gone])
  }

  ghost function Apply(c: Client, step: Step): Client
    requires Enabled(c, step)
  {
    match step
    case Dial =>
      c.(sessions := c.sessions + [Session(true, false, false)], threads := c.threads + [Dialed(|c.sessions|)])
    case CallbackFails(t) => c.(threads := c.threads[t := Gone])
    case RunReturns(t) =>
      var ss := c.threads[t].ss;
      c.(sessions := c.sessions[ss := c.sessions[ss].(ran := true)], threads := c.threads[t := Returned(ss)])
    case Admit(t) => ApplyAdmit(c, t, c.threads[t].ss)
    case CloseRefused(t) => c.(sessions := Closed(c, c.threads[t].ss), threads := c.threads[t := Gone])
    case SessionNum => if c.ssMap.Some? then c.(ssMap := Some(Prune(c.ssMap.value, c.sessions))) else c
    case Stop =>
      c.(done := true, ssMap := None,
         threads := c.threads + [Stopping(if c.ssMap.Some? then c.ssMap.value else {})])
    case StopNext(t, ss) =>
      c.(sessions := Closed(c, ss), threads := c.threads[t := Stopping(c.threads[t].left - {ss})])
    case SessionCloses(ss) => c.(sessions := Closed(c, ss))
    case SessionReset(ss) => c.(sessions := c.sessions[ss := c.sessions[ss].(conn := false, closed := false)])
  }

  ghost predicate Behaviour(tr: seq<Client>, steps: seq<Step>) {
    && |tr| == |steps| + 1
    && Init(tr[0])
    && forall i | 0 <= i < |steps| :: Enabled(tr[i], steps[i]) && tr[i + 1] == Apply(tr[i], steps[i])
  }

  /** Goroutine pc will still look at session ss or close it. */
  predicate Owes(pc: Pc, ss: nat) {
    match pc
    case Returned(x) => x == ss
    case MustClose(x) => x == ss
    case Stopping(left) => ss in left
    case _ => false
  }

  ghost predicate Owed(c: Client, ss: nat) {
    exists t :: 0 <= t < |c.threads| && Owes(c.threads[t], ss)
  }

  ghost predicate Accounted(c: Client, ss: nat)
    requires ss < |c.sessions|
  {
    || (c.ssMap.Some? && ss in c.ssMap.value)
    || !Active(c.sessions[ss])
    || Owed(c, ss)
  }

  ghost predicate Inv(c: Client) {
    && c.number > 0
    && (c.ssMap.Some? ==> |c.ssMap.value| <= c.number)
    && (c.done <==> c.ssMap.None?)
    && (forall t | 0 <= t < |c.threads| && (c.threads[t].Dialed? || c.threads[t].Returned? || c.threads[t].MustClose?) ::
          c.threads[t].ss < |c.sessions|)
    && (forall ss | 0 <= ss < |c.sessions| && c.sessions[ss].ran :: Accounted(c, ss))
  }

  lemma PruneSmaller(pool: set<nat>, sessions: seq<Session>)
    ensures |Prune(pool, sessions)| <= |pool|
  {
    assert Prune(pool, sessions) <= pool;
    SubsetSize(Prune(pool, sessions), pool);
  }

  lemma {:induction false} SubsetSize(a: set<nat>, b: set<nat>)
    requires a <= b
    ensures |a| <= |b|
  {
    if a != {} {
      var x :| x in a;
      SubsetSize(a - {x}, b - {x});
    }
  }

  lemma StillOwed(c: Client, ss: nat, t: nat)
    requires t < |c.threads| && Owes(c.threads[t], ss)
    ensures Owed(c, ss)
  {
  }

  /** The critical section of connect() leaves every session that ran accounted for. */
  lemma AdmitAccounts(c: Client, t: nat, ss: nat)
    requires Inv(c) && Enabled(c, Admit(t)) && ss < |c.sessions| && c.sessions[ss].ran
    ensures Accounted(Apply(c, Admit(t)), ss)
  {
    var c' := Apply(c, Admit(t));
    var mine := c.threads[t].ss;
    if Owed(c, ss) && !(c.ssMap.Some? && ss in c.ssMap.value) && Active(c.sessions[ss]) {
      var u :| 0 <= u < |c.threads| && Owes(c.threads[u], ss);
      if u != t {
        StillOwed(c', ss, u);
      } else if c'.threads[t].MustClose? {
        StillOwed(c', ss, t);
      }
    }
  }

  lemma StopAccounts(c: Client, ss: nat)
    requires Inv(c) && Enabled(c, Stop) && ss < |c.sessions| && c.sessions[ss].ran
    ensures Accounted(Apply(c, Stop), ss)
  {
    var c' := Apply(c, Stop);
    if c.ssMap.Some? && ss in c.ssMap.value {
      StillOwed(c', ss, |c.threads|);
    } else if Active(c.sessions[ss]) {
      var u :| 0 <= u < |c.threads| && Owes(c.threads[u], ss);
      StillOwed(c', ss, u);
    }
  }

  lemma OtherAccounts(c: Client, step: Step, ss: nat)
    requires Inv(c) && Enabled(c, step) && !step.Admit? && !step.Stop?
    requires ss < |c.sessions| && c.sessions[ss].ran
    ensures Accounted(Apply(c, step), ss)
  {
    var c' := Apply(c, step);
    if Active(c'.sessions[ss]) && !(c'.ssMap.Some? && ss in c'.ssMap.value) {
      var u :| 0 <= u < |c.threads| && Owes(c.threads[u], ss);
      StillOwed(c', ss, u);
    }
  }

  /** The session a connect() just ran is still in that goroutine's hands. */
  lemma NewlyRan(c: Client, step: Step, ss: nat)
    requires Inv(c) && Enabled(c, step) && ss < |Apply(c, step).sessions|
    requires Apply(c, step).sessions[ss].ran && (ss < |c.sessions| ==> !c.sessions[ss].ran)
    ensures Accounted(Apply(c, step), ss)
  {
    StillOwed(Apply(c, step), ss, step.t);
  }

  lemma StepKeeps(c: Client, step: Step)
    requires Inv(c) && Enabled(c, step)
    ensures Inv(Apply(c, step))
  {
    var c' := Apply(c, step);
    if c.ssMap.Some? { PruneSmaller(c.ssMap.value, c.sessions); }
    forall ss | 0 <= ss < |c'.sessions| && c'.sessions[ss].ran ensures Accounted(c', ss) {
      if ss >= |c.sessions| || !c.sessions[ss].ran {
        NewlyRan(c, step, ss);
      } else if step.Admit? {
        AdmitAccounts(c, step.t, ss);
      } else if step.Stop? {
        StopAccounts(c, ss);
      } else {
        OtherAccounts(c, step, ss);
      }
    }
    hide Accounted;
  }

  lemma {:induction false} Reachable(tr: seq<Client>, steps: seq<Step>, i: nat)
    requires Behaviour(tr, steps) && i < |tr|
    ensures Inv(tr[i])
  {
    if i > 0 {
      Reachable(tr, steps, i - 1);
      StepKeeps(tr[i - 1], steps[i - 1]);
    }
  }

  /** The pool never holds more than `number` sessions. */
  lemma PoolBounded(tr: seq<Client>, steps: seq<Step>, i: nat)
    requires Behaviour(tr, steps) && i < |tr|
    ensures tr[i].ssMap.Some? ==> |tr[i].ssMap.value| <= tr[0].number
  {
    Reachable(tr, steps, i);
    NumberFixed(tr, steps, i);
  }

  lemma {:induction false} NumberFixed(tr: seq<Client>, steps: seq<Step>, i: nat)
    requires Behaviour(tr, steps) && i < |tr|
    ensures tr[i].number == tr[0].number
  {
    if i > 0 { NumberFixed(tr, steps, i - 1); }
  }

  /**
   No leak: a session whose run() returned inside connect() is in the pool, dead,
   or some connect() or stop() in flight still has to decide on it or close it.
   */
  lemma NoLeak(tr: seq<Client>, steps: seq<Step>, i: nat, ss: nat)
    requires Behaviour(tr, steps) && i < |tr| && ss < |tr[i].sessions| && tr[i].sessions[ss].ran
    ensures Accounted(tr[i], ss)
  {
    Reachable(tr, steps, i);
  }

  /** Once the client is closed and its goroutines are through, no session it ran is alive. */
  lemma ClosedClientHasNoLiveSession(tr: seq<Client>, steps: seq<Step>, i: nat, ss: nat)
    requires Behaviour(tr, steps) && i < |tr| && ss < |tr[i].sessions| && tr[i].sessions[ss].ran
    requires tr[i].done
    requires forall t | 0 <= t < |tr[i].threads| :: tr[i].threads[t].Gone? || tr[i].threads[t] == Stopping({})
    ensures !Active(tr[i].sessions[ss])
  {
    Reachable(tr, steps, i);
    assert Accounted(tr[i], ss);
    assert forall t | 0 <= t < |tr[i].threads| :: !Owes(tr[i].threads[t], ss);
  }

  /**
   connect() turns a live session away exactly if the client is closed or the pool
   already holds `number` live ones; otherwise the session is in the pool, among
   live sessions only.
   */
  lemma RefusedExactly(tr: seq<Client>, steps: seq<Step>, i: nat, t: nat)
    requires Behaviour(tr, steps) && i < |steps| && steps[i] == Admit(t)
    requires Active(tr[i].sessions[tr[i].threads[t].ss])
    ensures tr[i].ssMap.None? <==> tr[i].done
    ensures var c, c', ss := tr[i], tr[i + 1], tr[i].threads[t].ss;
            var refused := c.ssMap.None? || |Prune(c.ssMap.value, c.sessions)| >= tr[0].number;
            && (c'.threads[t] == MustClose(ss) <==> refused)
            && (!refused ==> c'.ssMap.Some? && ss in c'.ssMap.value
                             && forall x | x in c'.ssMap.value :: x < |c'.sessions| && Active(c'.sessions[x]))
  {
    Reachable(tr, steps, i);
    NumberFixed(tr, steps, i);
  }

  /** After stop() took the pool nothing is admitted again: the map stays nil. */
  lemma {:induction false} NothingAdmittedAfterStop(tr: seq<Client>, steps: seq<Step>, i: nat, j: nat)
    requires Behaviour(tr, steps) && i <= j < |tr| && tr[i].done
    ensures tr[j].done && tr[j].ssMap.None?
    decreases j - i
  {
    Reachable(tr, steps, i);
    if i < j { NothingAdmittedAfterStop(tr, steps, i + 1, j); }
  }

  /** A dead session stays dead: no close or reset revives it, so pruning it is final. */
  lemma {:induction false} DeadStaysDead(tr: seq<Client>, steps: seq<Step>, i: nat, j: nat, ss: nat)
    requires Behaviour(tr, steps) && i <= j < |tr| && ss < |tr[i].sessions| && !Active(tr[i].sessions[ss])
    ensures ss < |tr[j].sessions| && !Active(tr[j].sessions[ss])
    decreases j - i
  {
    if i < j { DeadStaysDead(tr, steps, i + 1, j, ss); }
  }

  /** sessionNum leaves exactly the live sessions of the pool. */
  lemma PrunedExactly(tr: seq<Client>, steps: seq<Step>, i: nat, ss: nat)
    requires Behaviour(tr, steps) && i < |steps| && steps[i] == SessionNum && tr[i].ssMap.Some?
    ensures tr[i + 1].ssMap.Some?
    ensures ss in tr[i + 1].ssMap.value <==> ss in tr[i].ssMap.value && ss < |tr[i].sessions| && Active(tr[i].sessions[ss])
  {
  }

  /** stop() takes the whole pool, once and for all, and owes each of its sessions a close. */
  lemma StopTakesThePool(tr: seq<Client>, steps: seq<Step>, i: nat)
    requires Behaviour(tr, steps) && i < |steps| && steps[i] == Stop
    ensures tr[i + 1].done && tr[i + 1].ssMap.None? && tr[i].ssMap.Some?
    ensures |tr[i + 1].threads| == |tr[i].threads| + 1 && tr[i + 1].threads[|tr[i].threads|] == Stopping(tr[i].ssMap.value)
  {
    Reachable(tr, steps, i);
  }

  /** What a goroutine of the client does next: nobody waits for anybody. */
  function NextStep(c: Client, t: nat, ss: nat): Step
    requires t < |c.threads| && !c.threads[t].Gone?
  {
    match c.threads[t]
    case Dialed(_) => RunReturns(t)
    case Returned(_) => Admit(t)
    case MustClose(_) => CloseRefused(t)
    case Stopping(_) => StopNext(t, ss)
  }

  /** Every goroutine of the client can go on until it is through, and stop() with every session it took over. */
  lemma NobodyIsStuck(tr: seq<Client>, steps: seq<Step>, i: nat, t: nat, ss: nat)
    requires Behaviour(tr, steps) && i < |tr| && t < |tr[i].threads| && !tr[i].threads[t].Gone?
    requires tr[i].threads[t].Stopping? ==> ss in tr[i].threads[t].left && ss < |tr[i].sessions|
    ensures Enabled(tr[i], NextStep(tr[i], t, ss))
  {
    Reachable(tr, steps, i);
  }

  /** A session that died during run() is neither pooled nor closed again. */
  lemma DeadNotAdmitted(tr: seq<Client>, steps: seq<Step>, i: nat, t: nat)
    requires Behaviour(tr, steps) && i < |steps| && steps[i] == Admit(t) && !tr[i].done
    requires !Active(tr[i].sessions[tr[i].threads[t].ss])
    ensures tr[i + 1] == tr[i].(threads := tr[i].threads[t := Gone])
  {
    Reachable(tr, steps, i);
  }
}
