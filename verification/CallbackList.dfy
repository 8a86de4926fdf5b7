/**
 The singly linked callback list of transport/callback.go, on the heap, proved
 against its sequence of entries.
 */
module CallbackList {
  import opened Options
  import opened CallbackSpec

  class Node {
    const handler: Value
    const key: Value
    var call: nat
    var next: Node?

    constructor (handler: Value, key: Value, call: nat)
      ensures this.handler == handler && this.key == key && this.call == call && next == null
    {
      this.handler, this.key, this.call, next := handler, key, call, null;
    }
  }

  /** The node after position i of a chain. */
  function After(nodes: seq<Node>, i: nat): Node? {
    if i + 1 < |nodes| then nodes[i + 1] else null
  }

  lemma CutAfter(nodes: seq<Node>, i: nat, j: nat)
    requires i < |nodes| && j < |nodes| - 1
    ensures After(Cut(nodes, i), j) ==
            if j + 1 == i then After(nodes, i) else After(nodes, if j < i then j else j + 1)
  {
    hide Cut;
  }

  /** Node i of the spine carries entry i and points to node i + 1. */
  ghost predicate Linked(nodes: seq<Node>, entries: seq<Entry>)
    reads nodes
  {
    && |nodes| == |entries|
    && (forall i | 0 <= i < |nodes| :: Entry(nodes[i].handler, nodes[i].key, nodes[i].call) == entries[i])
    && (forall i | 0 <= i < |nodes| :: nodes[i].next == After(nodes, i))
    && (forall i, j | 0 <= i < j < |nodes| :: nodes[i] != nodes[j])
  }

  lemma LinkedLength(nodes: seq<Node>, entries: seq<Entry>)
    requires Linked(nodes, entries)
    ensures |nodes| == |entries|
  {
  }

  lemma {:induction false} FindIs(entries: seq<Entry>, handler: Value, key: Value, i: nat)
    requires i <= |entries| && forall j | 0 <= j < i :: !Matches(entries[j], handler, key)
    requires i < |entries| ==> Matches(entries[i], handler, key)
    ensures Find(entries, handler, key) == i
  {
    if i > 0 {
      assert !Matches(entries[0], handler, key);
      FindIs(entries[1..], handler, key, i - 1);
    }
  }

  /** What Linked says of one node. */
  lemma LinkAt(nodes: seq<Node>, entries: seq<Entry>, i: nat)
    requires Linked(nodes, entries) && i < |nodes|
    ensures Entry(nodes[i].handler, nodes[i].key, nodes[i].call) == entries[i]
    ensures nodes[i].next == After(nodes, i)
  {
  }

  /** The cut node is the first or the last one exactly at the ends. */
  lemma EndsOf(nodes: seq<Node>, entries: seq<Entry>, i: nat)
    requires Linked(nodes, entries) && i < |nodes|
    ensures nodes[0] == nodes[i] <==> i == 0
    ensures nodes[|nodes| - 1] == nodes[i] <==> i == |nodes| - 1
    ensures |nodes| == |entries|
    ensures i == 0 ==> After(nodes, 0) == (if |nodes| > 1 then Cut(nodes, i)[0] else null)
    ensures |nodes| > 1 && i > 0 ==> nodes[0] == Cut(nodes, i)[0]
    ensures |nodes| > 1 && i == |nodes| - 1 ==> nodes[i - 1] == Cut(nodes, i)[|nodes| - 2]
    ensures |nodes| > 1 && i < |nodes| - 1 ==> nodes[|nodes| - 1] == Cut(nodes, i)[|nodes| - 2]
  {
  }

  lemma LinkedTail(nodes: seq<Node>, entries: seq<Entry>)
    requires Linked(nodes, entries) && nodes != []
    ensures Linked(Cut(nodes, 0), Cut(entries, 0))
  {
    hide Cut;
    forall j | 0 <= j < |nodes| - 1
      ensures Cut(nodes, 0)[j].next == After(Cut(nodes, 0), j)
    {
      CutAfter(nodes, 0, j);
    }
  }

  /** Let the predecessor bypass node i: the rest of the chain stays linked. */
  method Skip(prev: Node, cb: Node, ghost nodes: seq<Node>, ghost entries: seq<Entry>, ghost i: nat)
    requires Linked(nodes, entries) && 0 < i < |nodes| && prev == nodes[i - 1] && cb == nodes[i]
    modifies prev
    ensures Linked(Cut(nodes, i), Cut(entries, i))
  {
    prev.next := cb.next;
    hide Cut, After;
    forall j | 0 <= j < |nodes| - 1
      ensures Cut(nodes, i)[j].next == After(Cut(nodes, i), j)
    {
      CutAfter(nodes, i, j);
    }
  }

  class Callbacks {
    var first: Node?
    var last: Node?
    var cbNum: int
    ghost var nodes: seq<Node>
    ghost var entries: seq<Entry>

    /** first and last are the true ends of the chain and cbNum its true length. */
    ghost predicate Valid()
      reads this, nodes
    {
      && Linked(nodes, entries)
      && cbNum == |nodes|
      && first == (if nodes == [] then null else nodes[0])
      && last == (if nodes == [] then null else nodes[|nodes| - 1])
    }

    constructor ()
      ensures Valid() && entries == [] && nodes == []
    {
      first, last, cbNum, nodes, entries := null, null, 0, [], [];
    }

    /** The walk both Add and Remove begin with: the first node with this handler and key, and its predecessor. */
    method Search(handler: Value, key: Value) returns (prev: Node?, cb: Node?, ghost i: nat)
      requires Valid()
      ensures i == Find(entries, handler, key)
      ensures cb == (if i < |nodes| then nodes[i] else null)
      ensures cb != null ==> prev == (if i == 0 then null else nodes[i - 1])
    {
      hide Linked, Find;
      LinkedLength(nodes, entries);
      prev, cb, i := null, first, 0;
      while cb != null
        invariant i <= |nodes| && cb == (if i < |nodes| then nodes[i] else null)
        invariant prev == (if i == 0 then null else nodes[i - 1])
        invariant forall j | 0 <= j < i :: !Matches(entries[j], handler, key)
        decreases |nodes| - i
      {
        LinkAt(nodes, entries, i);
        if cb.handler == handler && cb.key == key {
          break;
        }
        prev, cb := cb, cb.next;
        i := i + 1;
      }
      FindIs(entries, handler, key, i);
    }

    method Replace(ghost i: nat, cb: Node, call: nat)
      requires Valid() && i < |nodes| && cb == nodes[i]
      modifies cb`call, this`entries
      ensures Valid() && entries == old(entries)[i := old(entries)[i].(call := call)]
    {
      cb.call := call;
      entries := entries[i := entries[i].(call := call)];
    }

    method Append(handler: Value, key: Value, call: nat)
      requires Valid()
      modifies this, last
      ensures Valid() && entries == old(entries) + [Entry(handler, key, call)]
      ensures |nodes| == |old(nodes)| + 1 && nodes[..|old(nodes)|] == old(nodes) && fresh(nodes[|old(nodes)|])
    {
      var item := new Node(handler, key, call);
      if first == null {
        first := item;
      } else {
        last.next := item;
      }
      last := item;
      cbNum := cbNum + 1;
      nodes := nodes + [item];
      entries := entries + [Entry(handler, key, call)];
    }

    method Unlink(prev: Node?, cb: Node, ghost i: nat)
      requires Valid() && i < |nodes| && cb == nodes[i] && prev == (if i == 0 then null else nodes[i - 1])
      modifies this, prev
      ensures Valid() && entries == Cut(old(entries), i) && nodes == Cut(old(nodes), i)
    {
      hide Linked, Cut, After;
      LinkAt(nodes, entries, i);
      EndsOf(nodes, entries, i);
      ghost var cutNodes, cutEntries := Cut(nodes, i), Cut(entries, i);
      if first == cb {
        LinkedTail(nodes, entries);
        first := cb.next;
      } else if prev != null {
        Skip(prev, cb, nodes, entries, i);
      }
      assert Linked(cutNodes, cutEntries);
      if last == cb {
        last := prev;
      }
      cbNum, nodes, entries := cbNum - 1, cutNodes, cutEntries;
    }

    method Add(handler: Value, key: Value, callback: Option<nat>)
      requires Valid()
      modifies this, nodes
      ensures Valid() && entries == Apply(old(entries), CallbackSpec.Add(handler, key, callback))
      ensures forall n | n in nodes :: n in old(nodes) || fresh(n)
    {
      hide Find, Linked;
      if callback.None? || !Usable(handler, key) {
        return;
      }
      var _, cb, i := Search(handler, key);
      LinkedLength(nodes, entries);
      if cb != null {
        Replace(i, cb, callback.value);
      } else {
        Append(handler, key, callback.value);
        assert forall n | n in nodes :: n in nodes[..|old(nodes)|] || n == nodes[|old(nodes)|];
      }
    }

    method Remove(handler: Value, key: Value)
      requires Valid()
      modifies this, nodes
      ensures Valid() && entries == Apply(old(entries), CallbackSpec.Remove(handler, key))
      ensures forall n | n in nodes :: n in old(nodes)
    {
      hide Find, Linked;
      if !Usable(handler, key) {
        return;
      }
      var prev, cb, i := Search(handler, key);
      LinkedLength(nodes, entries);
      if cb != null {
        Unlink(prev, cb, i);
      }
    }

    /** Runs the callbacks in order; a callback that panics is the last one run. */
    method Invoke(panics: set<nat>) returns (ran: seq<nat>)
      requires Valid()
      ensures |ran| <= |entries| && forall j | 0 <= j < |ran| :: ran[j] == entries[j].call
      ensures forall j | 0 <= j < |ran| - 1 :: ran[j] !in panics
      ensures |ran| < |entries| ==> ran != [] && ran[|ran| - 1] in panics
    {
      ran := [];
      var cb := first;
      while cb != null
        invariant |ran| <= |entries| && cb == (if |ran| < |nodes| then nodes[|ran|] else null)
        invariant forall j | 0 <= j < |ran| :: ran[j] == entries[j].call && ran[j] !in panics
        decreases |nodes| - |ran|
      {
        assert Entry(nodes[|ran|].handler, nodes[|ran|].key, nodes[|ran|].call) == entries[|ran|];
        ran := ran + [cb.call];
        if cb.call in panics {
          return;
        }
        cb := cb.next;
      }
    }

    method Len() returns (n: int)
      requires Valid()
      ensures n == |entries|
    {
      n := cbNum;
    }
  }
}
