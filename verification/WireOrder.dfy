/**
 All public write entry points of a session under packetLock (transport/session.go).
 Any number of goroutines write at once; each Connection.Send is one atomic
 append to the wire. The steps are lock operations, sends, and WritePkg's
 installation and restoration of its temporary write timeout.
 */
module WireOrder {
  import opened Options
  import opened Sequences
  import opened Bytes
  import opened WritePath

  /** What the session's Connection is: a batch goes out in one send, message by message, or merged. */
  datatype Kind = Tcp | Websocket | Other

  datatype Call =
    | WriteBytes(pkg: seq<Byte>)
    | Send(pkg: seq<Byte>)
    | WritePkg(pkg: seq<Byte>, timeout: int)
    | WriteBytesArray(pkgs: seq<seq<Byte>>)

  function Payload(call: Call): seq<Byte> {
    if call.WriteBytesArray? then Concat(call.pkgs) else call.pkg
  }

  /** What a call sends, which side of packetLock it takes, and its temporary timeout. */
  datatype Plan = Plan(frags: seq<seq<Byte>>, exclusive: bool, timeout: Option<int>)

  function PlanBytes(kind: Kind, pkg: seq<Byte>): Plan {
    Plan(if kind.Websocket? then [pkg] else Fragments(pkg), |pkg| > MAX_PACKET, None)
  }

  function PlanOf(kind: Kind, call: Call): Plan {
    match call
    case WriteBytes(pkg) => PlanBytes(kind, pkg)
    case Send(pkg) => Plan([pkg], false, None)
    case WritePkg(pkg, timeout) =>
      if 0 < timeout then Plan([pkg], true, Some(timeout)) else Plan([pkg], false, None)
    case WriteBytesArray(pkgs) =>
      if |pkgs| == 1 then PlanBytes(kind, pkgs[0])
      else match kind
        case Tcp => Plan([Concat(pkgs)], false, None)
        case Websocket => Plan(pkgs, true, None)
        case Other => PlanBytes(kind, Concat(pkgs))
  }

  /** More than one send, or a changed timeout, always goes with the write side of the lock. */
  lemma PlansAreSafe(kind: Kind, call: Call)
    ensures var p := PlanOf(kind, call);
            && (|p.frags| > 1 || p.timeout.Some? ==> p.exclusive)
            && Concat(p.frags) == Payload(call)
  {
    match call {
      case WriteBytes(pkg) => BytesPlan(kind, pkg);
      case Send(pkg) => ConcatOne(pkg);
      case WritePkg(pkg, _) => ConcatOne(pkg);
      case WriteBytesArray(pkgs) =>
        if |pkgs| == 1 {
          BytesPlan(kind, pkgs[0]);
          assert pkgs == [pkgs[0]];
          ConcatOne(pkgs[0]);
        } else {
          ConcatOne(Concat(pkgs));
          BytesPlan(kind, Concat(pkgs));
        }
    }
  }

  /** What a raw connection gets of WriteBytes, or of a merged batch: full fragments of 16 KiB and a last one. */
  lemma RawFragments(kind: Kind, call: Call)
    requires !kind.Websocket? && (call.WriteBytes? || (call.WriteBytesArray? && (|call.pkgs| == 1 || kind.Other?)))
    ensures var p, n := PlanOf(kind, call), |Payload(call)|;
            && |p.frags| == (n + 16383) / 16384
            && (forall i | 0 <= i < |p.frags| :: 0 < |p.frags[i]| <= 16384)
            && (forall i | 0 <= i < |p.frags| - 1 :: |p.frags[i]| == 16384)
            && (p.exclusive <==> n > 16384)
  {
    if call.WriteBytesArray? && |call.pkgs| == 1 {
      assert call.pkgs == [call.pkgs[0]];
      ConcatOne(call.pkgs[0]);
    }
    FragmentsSizes(Payload(call));
  }

  lemma BytesPlan(kind: Kind, pkg: seq<Byte>)
    ensures var p := PlanBytes(kind, pkg); (|p.frags| > 1 ==> p.exclusive) && Concat(p.frags) == pkg
  {
    FragmentsJoin(pkg);
    FragmentsSizes(pkg);
    ConcatOne(pkg);
  }

  datatype Pc =
    | Waiting
    | Locked
    | Sending(k: nat, saved: Option<int>, count: nat)
    | Closing(saved: Option<int>, count: nat, ok: bool)
    | Returned(count: nat, ok: bool)

  datatype Writer = Writer(call: Call, pc: Pc)

  /** One append to the wire: by whom, what, and under which write timeout. */
  datatype Piece = Piece(t: nat, bytes: seq<Byte>, timeout: int)

  datatype State = State(
    kind: Kind,
    base: int,               // the connection's own write timeout
    wTimeout: int,           // the timeout in force
    readers: set<nat>,
    writer: Option<nat>,
    threads: seq<Writer>,
    wire: seq<Piece>)

  datatype Step =
    | Start(call: Call)
    | Lock(t: nat)
    | Begin(t: nat)          // install the temporary timeout, if any
    | SendOk(t: nat)
    | SendFails(t: nat, n: nat)
    | Refuse(t: nat)         // no connection, or a websocket payload above the limit
    | Finish(t: nat)
    | Restore(t: nat)
    | Unlock(t: nat)

  ghost predicate Init(s: State) {
    s == State(s.kind, s.base, s.base, {}, None, [], [])
  }

  function Plans(s: State, t: nat): Plan
    requires t < |s.threads|
  {
    PlanOf(s.kind, s.threads[t].call)
  }

  predicate Enabled(s: State, step: Step) {
    match step
    case Start(_) => true
    case Lock(t) =>
      && t < |s.threads| && s.threads[t].pc.Waiting?
      && s.writer.None? && (Plans(s, t).exclusive ==> s.readers == {})
    case Begin(t) => t < |s.threads| && s.threads[t].pc.Locked?
    case SendOk(t) => t < |s.threads| && s.threads[t].pc.Sending? && s.threads[t].pc.k < |Plans(s, t).frags|
    case SendFails(t, n) =>
      && t < |s.threads| && s.threads[t].pc.Sending? && s.threads[t].pc.k < |Plans(s, t).frags|
      && n <= |Plans(s, t).frags[s.threads[t].pc.k]| && (s.kind.Websocket? ==> n == 0)
    case Refuse(t) =>
      t < |s.threads| && (s.threads[t].pc.Locked? || (s.threads[t].pc.Sending? && s.threads[t].pc.k < |Plans(s, t).frags|))
    case Finish(t) => t < |s.threads| && s.threads[t].pc.Sending? && s.threads[t].pc.k == |Plans(s, t).frags|
    case Restore(t) => t < |s.threads| && s.threads[t].pc.Closing? && s.threads[t].pc.saved.Some?
    case Unlock(t) => t < |s.threads| && s.threads[t].pc.Closing? && s.threads[t].pc.saved.None?
  }

  function To(s: State, t: nat, pc: Pc): seq<Writer>
    requires t < |s.threads|
  {
    s.threads[t := s.threads[t].(pc := pc)]
  }

  function Apply(s: State, step: Step): State
    requires Enabled(s, step)
  {
    match step
    case Start(call) => s.(threads := s.threads + [Writer(call, Waiting)])
    case Lock(t) =>
      if Plans(s, t).exclusive then s.(writer := Some(t), threads := To(s, t, Locked))
      else s.(readers := s.readers + {t}, threads := To(s, t, Locked))
    case Begin(t) =>
      var p := Plans(s, t);
      if p.timeout.Some?
      then s.(wTimeout := p.timeout.value, threads := To(s, t, Sending(0, Some(s.wTimeout), 0)))
      else s.(threads := To(s, t, Sending(0, None, 0)))
    case SendOk(t) =>
      var pc, f := s.threads[t].pc, Plans(s, t).frags[s.threads[t].pc.k];
      s.(wire := s.wire + [Piece(t, f, s.wTimeout)], threads := To(s, t, Sending(pc.k + 1, pc.saved, pc.count + |f|)))
    case SendFails(t, n) =>
      var pc, f := s.threads[t].pc, Plans(s, t).frags[s.threads[t].pc.k];
      s.(wire := s.wire + [Piece(t, f[..n], s.wTimeout)], threads := To(s, t, Closing(pc.saved, pc.count + n, false)))
    case Refuse(t) =>
      var pc := s.threads[t].pc;
      s.(threads := To(s, t, if pc.Locked? then Closing(None, 0, false) else Closing(pc.saved, pc.count, false)))
    case Finish(t) => s.(threads := To(s, t, Closing(s.threads[t].pc.saved, s.threads[t].pc.count, true)))
    case Restore(t) =>
      var pc := s.threads[t].pc;
      s.(wTimeout := pc.saved.value, threads := To(s, t, Closing(None, pc.count, pc.ok)))
    case Unlock(t) =>
      var pc := s.threads[t].pc;
      s.(readers := s.readers - {t}, writer := if s.writer == Some(t) then None else s.writer,
         threads := To(s, t, Returned(pc.count, pc.ok)))
  }

  ghost predicate Behaviour(tr: seq<State>, steps: seq<Step>) {
    && |tr| == |steps| + 1
    && Init(tr[0])
    && forall i | 0 <= i < |steps| :: Enabled(tr[i], steps[i]) && tr[i + 1] == Apply(tr[i], steps[i])
  }

  // ---- The invariant ----

  predicate HoldsLock(pc: Pc) { pc.Locked? || pc.Sending? || pc.Closing? }

  function Saved(pc: Pc): Option<int> {
    if pc.Sending? || pc.Closing? then pc.saved else None
  }

  /** What goroutine t has put on the wire, in order. */
  function Own(wire: seq<Piece>, t: nat): seq<Byte> {
    if wire == [] then []
    else
      var last := wire[|wire| - 1];
      Own(wire[..|wire| - 1], t) + if last.t == t then last.bytes else []
  }

  predicate Touches(wire: seq<Piece>, t: nat) {
    exists i :: 0 <= i < |wire| && wire[i].t == t
  }

  /** Between two pieces of one goroutine there is no piece of another. */
  predicate Contiguous(wire: seq<Piece>) {
    forall i, j, k | 0 <= i < j < k < |wire| && wire[i].t == wire[k].t :: wire[j].t == wire[i].t
  }

  /** Goroutine t against the lock. */
  predicate LockOK(s: State, t: nat)
    requires t < |s.threads|
  {
    var pc, p := s.threads[t].pc, Plans(s, t);
    && (t in s.readers <==> HoldsLock(pc) && !p.exclusive)
    && (s.writer == Some(t) <==> HoldsLock(pc) && p.exclusive)
  }

  predicate TimeoutOK(s: State, t: nat)
    requires t < |s.threads|
  {
    Saved(s.threads[t].pc).Some? ==>
      s.writer == Some(t) && Saved(s.threads[t].pc) == Some(s.base) && Plans(s, t).timeout == Some(s.wTimeout)
  }

  /** What t has sent so far is the matching part of its payload. */
  predicate SentOK(s: State, t: nat)
    requires t < |s.threads|
  {
    var pc, p, own := s.threads[t].pc, Plans(s, t), Own(s.wire, t);
    match pc
    case Waiting => !Touches(s.wire, t) && own == []
    case Locked => !Touches(s.wire, t) && own == []
    case Sending(k, saved, count) =>
      && k <= |p.frags| && own == Concat(p.frags[..k]) && count == |own|
      && saved.Some? == p.timeout.Some?
      && (k == 0 ==> !Touches(s.wire, t))
      && (k > 0 && p.exclusive ==> s.wire != [] && s.wire[|s.wire| - 1].t == t)
    case Closing(_, count, ok) => Reported(s.threads[t].call, own, count, ok)
    case Returned(count, ok) => Reported(s.threads[t].call, own, count, ok)
  }

  /** The reported count is exactly what is out, a prefix of the payload; success means all of it. */
  predicate Reported(call: Call, own: seq<Byte>, count: nat, ok: bool) {
    count == |own| <= |Payload(call)| && own == Payload(call)[..count] && (ok ==> own == Payload(call))
  }

  /** The lock and the timeout in force. */
  ghost predicate LockState(s: State) {
    && (s.writer.Some? ==> s.readers == {} && s.writer.value < |s.threads|)
    && (forall t | t in s.readers :: t < |s.threads|)
    && (s.wTimeout != s.base ==> s.writer.Some? && Saved(s.threads[s.writer.value].pc).Some?)
  }

  ghost predicate Inv(s: State) {
    && LockState(s)
    && (forall i | 0 <= i < |s.wire| :: s.wire[i].t < |s.threads|)
    && (forall i | 0 <= i < |s.wire| :: s.wire[i].timeout ==
          (if Plans(s, s.wire[i].t).timeout.Some? then Plans(s, s.wire[i].t).timeout.value else s.base))
    && Contiguous(s.wire)
    && (forall t | 0 <= t < |s.threads| :: LockOK(s, t))
    && (forall t | 0 <= t < |s.threads| :: TimeoutOK(s, t))
    && (forall t | 0 <= t < |s.threads| :: SentOK(s, t))
  }

  // ---- One append to the wire ----

  lemma Appended(wire: seq<Piece>, p: Piece, t: nat)
    ensures Own(wire + [p], t) == Own(wire, t) + (if p.t == t then p.bytes else [])
    ensures Touches(wire + [p], t) <==> Touches(wire, t) || p.t == t
  {
    var w := wire + [p];
    assert w[..|w| - 1] == wire && w[|w| - 1] == p;
    if Touches(wire, t) {
      var i :| 0 <= i < |wire| && wire[i].t == t;
      assert w[i].t == t;
    }
  }

  lemma StaysContiguous(wire: seq<Piece>, p: Piece)
    requires Contiguous(wire)
    requires Touches(wire, p.t) ==> wire[|wire| - 1].t == p.t
    ensures Contiguous(wire + [p])
  {
    var w := wire + [p];
    forall i, j, k | 0 <= i < j < k < |w| && w[i].t == w[k].t
      ensures w[j].t == w[i].t
    {
      if k == |wire| {
        assert wire[i].t == p.t;
        assert j == |wire| - 1 || wire[j].t == wire[i].t;
      }
    }
  }

  lemma PartOf(frags: seq<seq<Byte>>, k: nat, n: nat)
    requires k <= |frags| && (k == |frags| ==> n == 0) && (k < |frags| ==> n <= |frags[k]|)
    ensures var own := Concat(frags[..k]) + (if k < |frags| then frags[k][..n] else []);
            |own| <= |Concat(frags)| && own == Concat(frags)[..|own|]
  {
    assert frags == frags[..k] + frags[k..];
    ConcatJoin(frags[..k], frags[k..]);
  }

  // ---- Every step keeps the invariant ----

  /** Who holds the lock shuts out an exclusive holder. */
  lemma Excluded(s: State, t: nat, u: nat)
    requires Inv(s) && t < |s.threads| && u < |s.threads| && t != u
    requires HoldsLock(s.threads[t].pc) && HoldsLock(s.threads[u].pc)
    ensures !Plans(s, u).exclusive && !Plans(s, t).exclusive
  {
    assert LockOK(s, t) && LockOK(s, u);
  }

  lemma TimeoutInForce(s: State, t: nat)
    requires Inv(s) && t < |s.threads| && s.threads[t].pc.Sending?
    ensures s.wTimeout == if Plans(s, t).timeout.Some? then Plans(s, t).timeout.value else s.base
  {
    assert LockOK(s, t) && TimeoutOK(s, t) && SentOK(s, t);
  }

  ghost predicate ThreadOK(s: State, t: nat)
    requires t < |s.threads|
  {
    LockOK(s, t) && TimeoutOK(s, t) && SentOK(s, t)
  }

  lemma AppendOther(s: State, step: Step, u: nat)
    requires Inv(s) && Enabled(s, step) && (step.SendOk? || step.SendFails?)
    requires u < |s.threads| && u != step.t
    ensures ThreadOK(Apply(s, step), u)
  {
    hide PlanOf, Payload, Own, Touches, Concat, Contiguous;
    assert LockOK(s, step.t) && LockOK(s, u) && TimeoutOK(s, u) && SentOK(s, u);
    Appended(s.wire, Apply(s, step).wire[|s.wire|], u);
    if HoldsLock(s.threads[u].pc) {
      Excluded(s, step.t, u);
    }
  }

  lemma SendOkSelf(s: State, t: nat)
    requires Enabled(s, SendOk(t)) && ThreadOK(s, t)
    ensures ThreadOK(Apply(s, SendOk(t)), t)
  {
    hide PlanOf, Payload, Own, Touches, Concat;
    var s' := Apply(s, SendOk(t));
    PlansAreSafe(s.kind, s.threads[t].call);
    Appended(s.wire, s'.wire[|s.wire|], t);
    NextPackage(Plans(s, t).frags, s.threads[t].pc.k);
    assert LockOK(s', t) && TimeoutOK(s', t);
  }

  lemma SendFailsSelf(s: State, t: nat, n: nat)
    requires Enabled(s, SendFails(t, n)) && ThreadOK(s, t)
    ensures ThreadOK(Apply(s, SendFails(t, n)), t)
  {
    hide PlanOf, Payload, Own, Touches, Concat;
    var s' := Apply(s, SendFails(t, n));
    PlansAreSafe(s.kind, s.threads[t].call);
    Appended(s.wire, s'.wire[|s.wire|], t);
    PartOf(Plans(s, t).frags, s.threads[t].pc.k, n);
    assert LockOK(s', t) && TimeoutOK(s', t);
  }

  lemma WireKeeps(s: State, step: Step)
    requires Inv(s) && Enabled(s, step) && (step.SendOk? || step.SendFails?)
    ensures Contiguous(Apply(s, step).wire)
  {
    var t := step.t;
    assert LockOK(s, t) && SentOK(s, t);
    PlansAreSafe(s.kind, s.threads[t].call);
    StaysContiguous(s.wire, Apply(s, step).wire[|s.wire|]);
  }

  lemma AppendKeeps(s: State, step: Step)
    requires Inv(s) && Enabled(s, step) && (step.SendOk? || step.SendFails?)
    ensures Inv(Apply(s, step))
  {
    var s' := Apply(s, step);
    assert LockOK(s, step.t);
    TimeoutInForce(s, step.t);
    WireKeeps(s, step);
    forall u | 0 <= u < |s'.threads|
      ensures LockOK(s', u) && TimeoutOK(s', u) && SentOK(s', u)
    {
      if u == step.t {
        assert LockOK(s, u) && TimeoutOK(s, u) && SentOK(s, u);
        if step.SendOk? { SendOkSelf(s, u); } else { SendFailsSelf(s, u, step.n); }
      } else {
        AppendOther(s, step, u);
      }
    }
  }

  lemma QuietOther(s: State, step: Step, u: nat)
    requires Inv(s) && Enabled(s, step) && !step.SendOk? && !step.SendFails?
    requires u < |s.threads| && (!step.Start? ==> u != step.t)
    ensures ThreadOK(Apply(s, step), u)
  {
    hide PlanOf, Payload, Own, Touches, Concat, Contiguous;
    assert LockOK(s, u) && TimeoutOK(s, u) && SentOK(s, u);
    if !step.Start? {
      assert LockOK(s, step.t) && TimeoutOK(s, step.t);
    }
  }

  lemma LockSelf(s: State, step: Step)
    requires Enabled(s, step) && (step.Lock? || step.Begin? || step.Restore? || step.Unlock?) && ThreadOK(s, step.t)
    requires s.writer.None? || s.readers == {}
    requires step.Begin? ==> (s.wTimeout == s.base || s.writer != Some(step.t))
    requires step.Begin? && Plans(s, step.t).timeout.Some? ==> Plans(s, step.t).exclusive
    ensures ThreadOK(Apply(s, step), step.t)
  {
    hide PlanOf, Payload, Own, Touches, Concat;
    var s', t := Apply(s, step), step.t;
    assert LockOK(s', t);
    if step.Begin? {
      assert Plans(s, t).frags[..0] == [];
      NothingSent();
    }
  }

  lemma CloseSelf(s: State, step: Step)
    requires Enabled(s, step) && (step.Refuse? || step.Finish?) && ThreadOK(s, step.t)
    ensures ThreadOK(Apply(s, step), step.t)
  {
    hide PlanOf, Payload, Own, Touches, Concat;
    var s', t := Apply(s, step), step.t;
    PlansAreSafe(s.kind, s.threads[t].call);
    if s.threads[t].pc.Sending? {
      var frags := Plans(s, t).frags;
      PartOf(frags, s.threads[t].pc.k, 0);
      assert frags[..|frags|] == frags;
    }
    assert LockOK(s', t) && TimeoutOK(s', t);
  }

  lemma QuietSelf(s: State, step: Step)
    requires Inv(s) && Enabled(s, step) && !step.Start? && !step.SendOk? && !step.SendFails?
    ensures ThreadOK(Apply(s, step), step.t)
  {
    var t := step.t;
    assert LockOK(s, t) && TimeoutOK(s, t) && SentOK(s, t);
    if step.Refuse? || step.Finish? {
      CloseSelf(s, step);
    } else {
      PlansAreSafe(s.kind, s.threads[t].call);
      LockSelf(s, step);
    }
  }

  lemma StartSelf(s: State, call: Call)
    requires Inv(s)
    ensures ThreadOK(Apply(s, Start(call)), |s.threads|)
  {
    Unheard(s.wire, |s.threads|);
    hide PlanOf, Payload, Own, Touches, Concat, Contiguous;
    assert LockOK(Apply(s, Start(call)), |s.threads|);
  }

  lemma QuietLock(s: State, step: Step)
    requires LockState(s) && Enabled(s, step) && !step.SendOk? && !step.SendFails?
    requires !step.Start? ==> ThreadOK(s, step.t)
    requires !step.Start? && Plans(s, step.t).timeout.Some? ==> Plans(s, step.t).exclusive
    ensures LockState(Apply(s, step))
  {
    hide PlanOf, SentOK;
  }

  lemma QuietThread(s: State, step: Step, u: nat)
    requires Inv(s) && Enabled(s, step) && !step.SendOk? && !step.SendFails?
    requires u < |Apply(s, step).threads|
    ensures ThreadOK(Apply(s, step), u)
  {
    if u == |s.threads| {
      StartSelf(s, step.call);
    } else if step.Start? || u != step.t {
      QuietOther(s, step, u);
    } else {
      QuietSelf(s, step);
    }
  }

  lemma QuietKeeps(s: State, step: Step)
    requires Inv(s) && Enabled(s, step) && !step.SendOk? && !step.SendFails?
    ensures Inv(Apply(s, step))
  {
    hide PlanOf, Payload, Own, Touches, Concat, Contiguous, LockOK, TimeoutOK, SentOK;
    var s' := Apply(s, step);
    if !step.Start? {
      assert LockOK(s, step.t) && TimeoutOK(s, step.t) && SentOK(s, step.t);
      PlansAreSafe(s.kind, s.threads[step.t].call);
    }
    QuietLock(s, step);
    forall u | 0 <= u < |s'.threads|
      ensures LockOK(s', u) && TimeoutOK(s', u) && SentOK(s', u)
    {
      QuietThread(s, step, u);
    }
  }

  lemma {:induction false} Unheard(wire: seq<Piece>, t: nat)
    requires forall i | 0 <= i < |wire| :: wire[i].t < t
    ensures Own(wire, t) == [] && !Touches(wire, t)
  {
    if wire != [] {
      Unheard(wire[..|wire| - 1], t);
    }
  }

  lemma {:induction false} Reachable(tr: seq<State>, steps: seq<Step>, i: nat)
    requires Behaviour(tr, steps) && i < |tr|
    ensures Inv(tr[i])
  {
    if i > 0 {
      Reachable(tr, steps, i - 1);
      var step := steps[i - 1];
      if step.SendOk? || step.SendFails? {
        AppendKeeps(tr[i - 1], step);
      } else {
        QuietKeeps(tr[i - 1], step);
      }
    }
  }

  // ---- Results over every run ----

  /** The byte stream the peer sees. */
  function Stream(wire: seq<Piece>): seq<Byte> {
    if wire == [] then [] else Stream(wire[..|wire| - 1]) + wire[|wire| - 1].bytes
  }

  /** The pieces of t are exactly those numbered a to b, so its bytes stand together in the stream. */
  ghost predicate Block(wire: seq<Piece>, t: nat, a: nat, b: nat) {
    && a <= b <= |wire|
    && (forall i | 0 <= i < |wire| :: wire[i].t == t <==> a <= i < b)
    && Stream(wire) == Stream(wire[..a]) + Own(wire, t) + Stream(wire[b..])
  }

  lemma Longer(wire: seq<Piece>, p: Piece)
    ensures Stream(wire + [p]) == Stream(wire) + p.bytes
  {
    assert (wire + [p])[..|wire|] == wire;
  }

  lemma Shifted(wire: seq<Piece>, p: Piece, a: nat, b: nat)
    requires a <= b <= |wire|
    ensures (wire + [p])[..a] == wire[..a]
    ensures Stream((wire + [p])[b..]) == Stream(wire[b..]) + p.bytes
    ensures Stream(wire + [p]) == Stream(wire) + p.bytes
  {
    hide Stream;
    assert (wire + [p])[b..] == wire[b..] + [p];
    Longer(wire[b..], p);
    Longer(wire, p);
  }

  lemma BlockPassedBy(wire: seq<Piece>, p: Piece, t: nat, a: nat, b: nat)
    requires Block(wire, t, a, b) && p.t != t
    ensures Block(wire + [p], t, a, b)
  {
    hide Stream, Own;
    Appended(wire, p, t);
    Shifted(wire, p, a, b);
    Assoc(Stream(wire[..a]) + Own(wire, t), Stream(wire[b..]), p.bytes);
    assert Own(wire, t) + [] == Own(wire, t);
  }

  lemma BlockStarts(wire: seq<Piece>, p: Piece, t: nat, a: nat)
    requires Block(wire, t, a, a) && p.t == t
    ensures Block(wire + [p], t, |wire|, |wire| + 1)
  {
    NoneOf(wire, t);
    Appended(wire, p, t);
    Shifted(wire, p, |wire|, |wire|);
    var w := wire + [p];
    assert wire[..|wire|] == wire && w[|w|..] == [];
    Ends(w, p.bytes);
    hide Stream, Own;
    assert Stream(w) == Stream(w[..|wire|]) + Own(w, t) + Stream(w[|w|..]);
  }

  lemma Ends(w: seq<Piece>, own: seq<Byte>)
    ensures Stream([]) == [] && Stream(w[|w|..]) == [] && [] + own == own
    ensures forall x: seq<Byte> :: x + [] == x
  {
  }

  lemma BlockGrows(wire: seq<Piece>, p: Piece, t: nat, a: nat)
    requires Block(wire, t, a, |wire|) && p.t == t
    ensures Block(wire + [p], t, a, |wire| + 1)
  {
    hide Stream, Own;
    var w := wire + [p];
    Appended(wire, p, t);
    Shifted(wire, p, a, |wire|);
    Ends(w, []);
    Ends(wire, []);
    Assoc(Stream(wire[..a]), Own(wire, t), p.bytes);
  }

  lemma NoGap(wire: seq<Piece>, p: Piece, t: nat, b: nat)
    requires Contiguous(wire + [p]) && 0 < b <= |wire| && wire[b - 1].t == t && p.t == t
    ensures b < |wire| ==> wire[b].t == t
  {
    var w := wire + [p];
    assert w[b - 1] == wire[b - 1] && w[|wire|] == p && (b < |wire| ==> w[b] == wire[b]);
  }

  lemma ExtendBlock(wire: seq<Piece>, p: Piece, t: nat, a: nat, b: nat)
    requires Block(wire, t, a, b) && Contiguous(wire + [p])
    ensures exists c: nat, d: nat :: Block(wire + [p], t, c, d)
  {
    if p.t != t {
      BlockPassedBy(wire, p, t, a, b);
    } else if a == b {
      BlockStarts(wire, p, t, a);
    } else {
      NoGap(wire, p, t, b);
      BlockGrows(wire, p, t, a);
    }
  }

  lemma {:induction false} NoneOf(wire: seq<Piece>, t: nat)
    requires forall i | 0 <= i < |wire| :: wire[i].t != t
    ensures Own(wire, t) == []
  {
    if wire != [] {
      NoneOf(wire[..|wire| - 1], t);
    }
  }

  lemma {:induction false} HasBlock(wire: seq<Piece>, t: nat)
    requires Contiguous(wire)
    ensures exists a: nat, b: nat :: Block(wire, t, a, b)
  {
    if wire == [] {
      assert Block(wire, t, 0, 0);
    } else {
      var init, p := wire[..|wire| - 1], wire[|wire| - 1];
      assert wire == init + [p];
      HasBlock(init, t);
      var a: nat, b: nat :| Block(init, t, a, b);
      ExtendBlock(init, p, t, a, b);
    }
  }

  /**
   No public write ever lands inside another: in every reachable state the bytes
   of each call stand together in the stream, and once the call has returned they
   are its payload up to the reported count, the whole payload on success.
   */
  lemma WritesStayWhole(tr: seq<State>, steps: seq<Step>, i: nat, t: nat)
    requires Behaviour(tr, steps) && i < |tr| && t < |tr[i].threads|
    ensures exists a: nat, b: nat :: Block(tr[i].wire, t, a, b)
    ensures tr[i].threads[t].pc.Returned? ==>
              Reported(tr[i].threads[t].call, Own(tr[i].wire, t), tr[i].threads[t].pc.count, tr[i].threads[t].pc.ok)
  {
    Reachable(tr, steps, i);
    HasBlock(tr[i].wire, t);
    assert SentOK(tr[i], t);
  }

  /** The goroutines in the order of their blocks on the wire. */
  function Order(wire: seq<Piece>): seq<nat> {
    if wire == [] then []
    else
      var before, t := Order(wire[..|wire| - 1]), wire[|wire| - 1].t;
      if t in before then before else before + [t]
  }

  /** Each goroutine stands in the order once, exactly if it has put something on the wire. */
  ghost predicate OrderOK(wire: seq<Piece>, order: seq<nat>) {
    && (forall t: nat :: t in order <==> Touches(wire, t))
    && (forall i, j | 0 <= i < j < |order| :: order[i] != order[j])
  }

  lemma {:induction false} OrderListsAll(wire: seq<Piece>)
    ensures OrderOK(wire, Order(wire))
  {
    if wire != [] {
      var init, p := wire[..|wire| - 1], wire[|wire| - 1];
      OrderListsAll(init);
      assert wire == init + [p];
      forall t: nat ensures t in Order(wire) <==> Touches(wire, t) {
        Appended(init, p, t);
      }
    }
  }

  /** What each goroutine of the order has put on the wire. */
  function Owns(wire: seq<Piece>, order: seq<nat>): (r: seq<seq<Byte>>)
    ensures |r| == |order| && forall i | 0 <= i < |order| :: r[i] == Own(wire, order[i])
  {
    if order == [] then [] else Owns(wire, order[..|order| - 1]) + [Own(wire, order[|order| - 1])]
  }

  /** With whole blocks the last goroutine of the order wrote the last piece. */
  lemma {:induction false} LastInOrder(wire: seq<Piece>)
    requires Contiguous(wire) && wire != []
    ensures Order(wire) != [] && Order(wire)[|Order(wire)| - 1] == wire[|wire| - 1].t
  {
    var init, p := wire[..|wire| - 1], wire[|wire| - 1];
    OrderListsAll(init);
    if p.t in Order(init) {
      LastInOrder(init);
      PieceBefore(wire);
    }
  }

  lemma PieceBefore(wire: seq<Piece>)
    requires Contiguous(wire) && |wire| > 0 && Touches(wire[..|wire| - 1], wire[|wire| - 1].t)
    ensures |wire| > 1 && wire[|wire| - 2].t == wire[|wire| - 1].t
  {
    var init := wire[..|wire| - 1];
    var i :| 0 <= i < |init| && init[i].t == wire[|wire| - 1].t;
    assert wire[i].t == wire[|wire| - 1].t;
    assert i == |wire| - 2 || wire[|wire| - 2].t == wire[i].t;
  }

  lemma OwnsElsewhere(init: seq<Piece>, p: Piece, order: seq<nat>)
    requires p.t !in order
    ensures Owns(init + [p], order) == Owns(init, order)
  {
    forall i | 0 <= i < |order| ensures Own(init + [p], order[i]) == Own(init, order[i]) {
      Appended(init, p, order[i]);
    }
  }

  lemma ConcatLast(chunks: seq<seq<Byte>>, last: seq<Byte>)
    ensures Concat(chunks + [last]) == Concat(chunks) + last
  {
    ConcatJoin(chunks, [last]);
    ConcatOne(last);
  }

  lemma OwnsLast(wire: seq<Piece>, order: seq<nat>, t: nat)
    ensures Owns(wire, order + [t]) == Owns(wire, order) + [Own(wire, t)]
  {
    assert (order + [t])[..|order|] == order;
  }

  /** Appending a piece of t when t is the last of the order, or new. */
  lemma StreamGrows(init: seq<Piece>, p: Piece, before: seq<nat>)
    requires p.t !in before && Stream(init) == Concat(Owns(init, before)) + Own(init, p.t)
    ensures Stream(init + [p]) == Concat(Owns(init + [p], before + [p.t]))
  {
    var w := init + [p];
    Longer(init, p);
    Appended(init, p, p.t);
    OwnsElsewhere(init, p, before);
    hide Stream, Own, Owns, Concat;
    OwnsLast(w, before, p.t);
    ConcatLast(Owns(w, before), Own(w, p.t));
    Assoc(Concat(Owns(init, before)), Own(init, p.t), p.bytes);
  }

  lemma NewWriter(init: seq<Piece>, p: Piece)
    requires Stream(init) == Concat(Owns(init, Order(init))) && p.t !in Order(init)
    ensures Stream(init + [p]) == Concat(Owns(init + [p], Order(init) + [p.t]))
  {
    OrderListsAll(init);
    assert !Touches(init, p.t);
    assert forall i | 0 <= i < |init| :: init[i].t != p.t;
    NoneOf(init, p.t);
    hide Stream, Owns, Concat;
    assert Stream(init) + [] == Stream(init);
    StreamGrows(init, p, Order(init));
  }

  lemma SameWriter(init: seq<Piece>, p: Piece, order: seq<nat>)
    requires Stream(init) == Concat(Owns(init, order)) && order != [] && order[|order| - 1] == p.t && OrderOK(init, order)
    ensures Stream(init + [p]) == Concat(Owns(init + [p], order))
  {
    var before := order[..|order| - 1];
    assert order == before + [p.t];
    assert p.t !in before;
    hide Stream, Own, Owns, Concat, OrderOK;
    OwnsLast(init, before, p.t);
    ConcatLast(Owns(init, before), Own(init, p.t));
    StreamGrows(init, p, before);
  }

  /** The stream is the calls' bytes one after the other. */
  lemma {:induction false} StreamIsOwns(wire: seq<Piece>)
    requires Contiguous(wire)
    ensures Stream(wire) == Concat(Owns(wire, Order(wire)))
  {
    if wire != [] {
      var init, p := wire[..|wire| - 1], wire[|wire| - 1];
      assert wire == init + [p];
      StreamIsOwns(init);
      if p.t in Order(init) {
        OrderListsAll(init);
        PieceBefore(wire);
        LastInOrder(init);
        SameWriter(init, p, Order(init));
      } else {
        NewWriter(init, p);
      }
    }
  }

  /**
   In every reachable state the stream is the concatenation of what the calls put
   on the wire, each call once, in the order of their blocks.
   */
  lemma StreamIsCalls(tr: seq<State>, steps: seq<Step>, i: nat)
    requires Behaviour(tr, steps) && i < |tr|
    ensures OrderOK(tr[i].wire, Order(tr[i].wire))
    ensures Stream(tr[i].wire) == Concat(Owns(tr[i].wire, Order(tr[i].wire)))
    ensures forall t | t in Order(tr[i].wire) :: t < |tr[i].threads|
  {
    Reachable(tr, steps, i);
    OrderListsAll(tr[i].wire);
    StreamIsOwns(tr[i].wire);
  }

  /**
   A temporary write timeout is seen by the WritePkg that asked for it and by no
   other call, and the connection has its own timeout back whenever nobody holds
   the write lock.
   */
  lemma TimeoutsStayPrivate(tr: seq<State>, steps: seq<Step>, i: nat, j: nat)
    requires Behaviour(tr, steps) && i < |tr| && j < |tr[i].wire|
    ensures var p := tr[i].wire[j];
            p.t < |tr[i].threads|
            && var call := tr[i].threads[p.t].call;
               p.timeout == if call.WritePkg? && 0 < call.timeout then call.timeout else tr[i].base
    ensures tr[i].writer.None? ==> tr[i].wTimeout == tr[i].base
  {
    Reachable(tr, steps, i);
    assert tr[i].wire[j].t < |tr[i].threads|;
  }

  // ---- Nobody waits for ever ----

  /** The step goroutine t is ready for when every send works. */
  function NextStep(s: State, t: nat): Step
    requires t < |s.threads|
  {
    match s.threads[t].pc
    case Waiting => Lock(t)
    case Locked => Begin(t)
    case Sending(k, _, _) => if k < |Plans(s, t).frags| then SendOk(t) else Finish(t)
    case Closing(saved, _, _) => if saved.Some? then Restore(t) else Unlock(t)
    case Returned(_, _) => Unlock(t)
  }

  lemma HolderSteps(s: State, t: nat)
    requires Inv(s) && t < |s.threads| && HoldsLock(s.threads[t].pc)
    ensures Enabled(s, NextStep(s, t))
  {
    assert SentOK(s, t);
  }

  /** As long as a call has not returned, some call can take its next step: its own, or one that holds the lock. */
  lemma WritersGoOn(tr: seq<State>, steps: seq<Step>, i: nat, t: nat) returns (u: nat)
    requires Behaviour(tr, steps) && i < |tr| && t < |tr[i].threads| && !tr[i].threads[t].pc.Returned?
    ensures u < |tr[i].threads| && !tr[i].threads[u].pc.Returned? && Enabled(tr[i], NextStep(tr[i], u))
    ensures u == t || HoldsLock(tr[i].threads[u].pc)
  {
    var s := tr[i];
    Reachable(tr, steps, i);
    u := t;
    if s.threads[t].pc.Waiting? {
      if s.writer.Some? {
        u := s.writer.value;
        assert LockOK(s, u);
        HolderSteps(s, u);
      } else if Plans(s, t).exclusive && s.readers != {} {
        u :| u in s.readers;
        assert LockOK(s, u);
        HolderSteps(s, u);
      }
    } else {
      HolderSteps(s, t);
    }
  }

  /** A call whose sends all work reports success and its whole payload. */
  lemma SendsSucceed(s: State, t: nat)
    requires Inv(s) && t < |s.threads| && s.threads[t].pc.Sending? && s.threads[t].pc.k == |Plans(s, t).frags|
    ensures var pc := Apply(s, Finish(t)).threads[t].pc; pc.Closing? && pc.ok && pc.count == |Payload(s.threads[t].call)|
  {
    assert SentOK(s, t);
    PlansAreSafe(s.kind, s.threads[t].call);
    assert Plans(s, t).frags[..|Plans(s, t).frags|] == Plans(s, t).frags;
  }
}
