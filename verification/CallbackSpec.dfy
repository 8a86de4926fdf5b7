/**
 What the close-callback list means (transport/callback.go): a sequence of
 entries, and an insertion-ordered map as the independent reference.
 */
module CallbackSpec {
  import opened Options

  /** A Go value used as handler or key; comparing an uncomparable one would panic. */
  datatype Value = Nil | Comparable(id: int) | Uncomparable(id: int)

  datatype Entry = Entry(handler: Value, key: Value, call: nat)

  datatype Op =
    | Add(handler: Value, key: Value, callback: Option<nat>)
    | Remove(handler: Value, key: Value)

  predicate Usable(handler: Value, key: Value) { !handler.Uncomparable? && !key.Uncomparable? }

  predicate Matches(e: Entry, handler: Value, key: Value) { e.handler == handler && e.key == key }

  /** Position of the first entry with this handler and key, or the length. */
  function Find(entries: seq<Entry>, handler: Value, key: Value): (i: nat)
    ensures i <= |entries| && (i < |entries| ==> Matches(entries[i], handler, key))
    ensures forall j | 0 <= j < i :: !Matches(entries[j], handler, key)
  {
    if entries == [] || Matches(entries[0], handler, key) then 0 else 1 + Find(entries[1..], handler, key)
  }

  function Cut<T>(s: seq<T>, i: nat): (r: seq<T>)
    requires i < |s|
    ensures |r| == |s| - 1 && forall j | 0 <= j < |r| :: r[j] == s[if j < i then j else j + 1]
  {
    s[..i] + s[i + 1..]
  }

  function Apply(entries: seq<Entry>, op: Op): seq<Entry> {
    var i := Find(entries, op.handler, op.key);
    if !Usable(op.handler, op.key) || (op.Add? && op.callback.None?) then entries
    else match op
      case Add(handler, key, callback) =>
        if i < |entries| then entries[i := Entry(handler, key, callback.value)]
        else entries + [Entry(handler, key, callback.value)]
      case Remove(_, _) =>
        if i < |entries| then Cut(entries, i) else entries
  }

  function ApplyAll(ops: seq<Op>): seq<Entry> {
    if ops == [] then [] else Apply(ApplyAll(ops[..|ops| - 1]), ops[|ops| - 1])
  }

  /** Keys are distinct, and none of them would panic when compared. */
  predicate Distinct(entries: seq<Entry>) {
    && (forall i | 0 <= i < |entries| :: Usable(entries[i].handler, entries[i].key))
    && (forall i, j | 0 <= i < j < |entries| :: !Matches(entries[j], entries[i].handler, entries[i].key))
  }

  // ---- The reference: an insertion-ordered map ----

  datatype OrderedMap = OrderedMap(order: seq<(Value, Value)>, calls: map<(Value, Value), nat>)

  function Without(order: seq<(Value, Value)>, k: (Value, Value)): seq<(Value, Value)> {
    if order == [] then []
    else if order[0] == k then Without(order[1..], k)
    else [order[0]] + Without(order[1..], k)
  }

  function Put(m: OrderedMap, k: (Value, Value), call: nat): OrderedMap {
    OrderedMap(if k in m.calls then m.order else m.order + [k], m.calls[k := call])
  }

  function Drop(m: OrderedMap, k: (Value, Value)): OrderedMap {
    OrderedMap(Without(m.order, k), m.calls - {k})
  }

  function MapApply(m: OrderedMap, op: Op): OrderedMap {
    if !Usable(op.handler, op.key) then m
    else match op
      case Add(h, k, callback) => if callback.None? then m else Put(m, (h, k), callback.value)
      case Remove(h, k) => Drop(m, (h, k))
  }

  function MapApplyAll(ops: seq<Op>): OrderedMap {
    if ops == [] then OrderedMap([], map[]) else MapApply(MapApplyAll(ops[..|ops| - 1]), ops[|ops| - 1])
  }

  /** The list holds the map's keys in their order, each with the map's value, and nothing else. */
  ghost predicate Represents(entries: seq<Entry>, m: OrderedMap) {
    && |entries| == |m.order|
    && (forall i | 0 <= i < |entries| :: (entries[i].handler, entries[i].key) == m.order[i])
    && (forall i | 0 <= i < |entries| :: m.order[i] in m.calls && m.calls[m.order[i]] == entries[i].call)
    && (forall k | k in m.calls :: k in m.order)
  }

  lemma {:induction false} WithoutAbsent(order: seq<(Value, Value)>, k: (Value, Value))
    requires k !in order
    ensures Without(order, k) == order
  {
    if order != [] {
      WithoutAbsent(order[1..], k);
    }
  }

  lemma {:induction false} WithoutAt(order: seq<(Value, Value)>, i: nat)
    requires i < |order| && order[i] !in order[..i] && order[i] !in order[i + 1..]
    ensures Without(order, order[i]) == Cut(order, i)
  {
    if i == 0 {
      WithoutAbsent(order[1..], order[0]);
      assert order[..0] + order[1..] == order[1..];
    } else {
      var rest := order[1..];
      assert rest[..i - 1] == order[..i][1..] && rest[i..] == order[i + 1..];
      WithoutAt(rest, i - 1);
      assert order[..i] + order[i + 1..] == [order[0]] + (rest[..i - 1] + rest[i..]);
    }
  }

  lemma KeyPresent(entries: seq<Entry>, m: OrderedMap, h: Value, k: Value)
    requires Represents(entries, m)
    ensures (h, k) in m.calls <==> Find(entries, h, k) < |entries|
    ensures (h, k) in m.order <==> Find(entries, h, k) < |entries|
  {
    var i := Find(entries, h, k);
    if i < |entries| {
      assert m.order[i] == (h, k);
    }
  }

  lemma ReplaceRefines(entries: seq<Entry>, m: OrderedMap, i: nat, call: nat)
    requires Represents(entries, m) && Distinct(entries) && i < |entries|
    ensures var entries' := entries[i := entries[i].(call := call)];
            Represents(entries', OrderedMap(m.order, m.calls[m.order[i] := call])) && Distinct(entries')
  {
    forall j | 0 <= j < |entries| && j != i ensures m.order[j] != m.order[i] {
      Apart(entries, m, i, j);
    }
  }

  lemma AppendRefines(entries: seq<Entry>, m: OrderedMap, e: Entry)
    requires Represents(entries, m) && Distinct(entries) && Usable(e.handler, e.key) && (e.handler, e.key) !in m.order
    ensures Represents(entries + [e], Put(m, (e.handler, e.key), e.call)) && Distinct(entries + [e])
  {
    var m' := Put(m, (e.handler, e.key), e.call);
    assert m'.order[|entries|] == (e.handler, e.key);
    forall x | x in m'.calls ensures x in m'.order {
      assert x in m.order || x == m'.order[|entries|];
    }
    forall i | 0 <= i < |entries| ensures !Matches(e, entries[i].handler, entries[i].key) {
      assert m.order[i] in m.order;
    }
  }

  lemma Apart(entries: seq<Entry>, m: OrderedMap, i: nat, j: nat)
    requires Represents(entries, m) && Distinct(entries) && i < |entries| && j < |entries| && i != j
    ensures m.order[i] != m.order[j]
  {
    assert i < j ==> !Matches(entries[j], entries[i].handler, entries[i].key);
    assert j < i ==> !Matches(entries[i], entries[j].handler, entries[j].key);
  }

  lemma CutDistinct(entries: seq<Entry>, i: nat)
    requires Distinct(entries) && i < |entries|
    ensures Distinct(Cut(entries, i))
  {
    hide Cut;
  }

  lemma CutRefines(entries: seq<Entry>, m: OrderedMap, i: nat)
    requires Represents(entries, m) && Distinct(entries) && i < |entries|
    ensures Represents(Cut(entries, i), OrderedMap(Cut(m.order, i), m.calls - {m.order[i]}))
  {
    hide Cut;
    var order := Cut(m.order, i);
    forall j | 0 <= j < |entries| && j != i ensures m.order[j] != m.order[i] {
      Apart(entries, m, i, j);
    }
    hide Distinct;
    forall x | x in m.calls - {m.order[i]} ensures x in order {
      var j :| 0 <= j < |m.order| && m.order[j] == x;
      assert order[if j < i then j else j - 1] == x;
    }
  }

  lemma CutOrder(entries: seq<Entry>, m: OrderedMap, i: nat)
    requires Represents(entries, m) && Distinct(entries) && i < |entries|
    ensures Without(m.order, m.order[i]) == Cut(m.order, i)
  {
    forall j | 0 <= j < |entries| && j != i ensures m.order[j] != m.order[i] {
      Apart(entries, m, i, j);
    }
    WithoutAt(m.order, i);
  }

  lemma StepRefines(entries: seq<Entry>, m: OrderedMap, op: Op)
    requires Represents(entries, m) && Distinct(entries)
    ensures Represents(Apply(entries, op), MapApply(m, op)) && Distinct(Apply(entries, op))
  {
    var i := Find(entries, op.handler, op.key);
    KeyPresent(entries, m, op.handler, op.key);
    hide Find, Represents, Distinct, Without, Cut;
    if Usable(op.handler, op.key) && (op.Add? ==> op.callback.Some?) {
      if op.Add? && i < |entries| {
        At(entries, m, i);
        ReplaceRefines(entries, m, i, op.callback.value);
      } else if op.Add? {
        AppendRefines(entries, m, Entry(op.handler, op.key, op.callback.value));
      } else if i < |entries| {
        At(entries, m, i);
        CutRefines(entries, m, i);
        CutOrder(entries, m, i);
        CutDistinct(entries, i);
      } else {
        WithoutAbsent(m.order, (op.handler, op.key));
        assert m.calls - {(op.handler, op.key)} == m.calls;
      }
    }
  }

  lemma At(entries: seq<Entry>, m: OrderedMap, i: nat)
    requires Represents(entries, m) && i < |entries|
    ensures i < |m.order| && m.order[i] == (entries[i].handler, entries[i].key)
  {
  }

  /** For every sequence of operations the list and the insertion-ordered map agree. */
  lemma {:induction false} RefinesOrderedMap(ops: seq<Op>)
    ensures Represents(ApplyAll(ops), MapApplyAll(ops)) && Distinct(ApplyAll(ops))
  {
    if ops != [] {
      var before, op := ops[..|ops| - 1], ops[|ops| - 1];
      RefinesOrderedMap(before);
      StepRefines(ApplyAll(before), MapApplyAll(before), op);
    }
  }
}
