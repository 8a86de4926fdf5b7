/**
 session.WriteBytes and WriteBytesArray over one Connection (transport/session.go):
 fragmentation on raw connections, whole messages on websockets, and the count
 that is reported when a send fails half way.
 */
module WritePath {
  import opened Sequences
  import opened Bytes

  const MAX_PACKET := 16 * 1024

  /** The pieces in which a raw connection gets a package. */
  function Fragments(pkg: seq<Byte>): seq<seq<Byte>>
    decreases |pkg|
  {
    if pkg == [] then []
    else if |pkg| <= MAX_PACKET then [pkg]
    else [pkg[..MAX_PACKET]] + Fragments(pkg[MAX_PACKET..])
  }

  lemma {:induction false} FragmentsJoin(pkg: seq<Byte>)
    ensures Concat(Fragments(pkg)) == pkg
    decreases |pkg|
  {
    if |pkg| > MAX_PACKET {
      FragmentsJoin(pkg[MAX_PACKET..]);
      var fs := Fragments(pkg);
      assert fs[1..] == Fragments(pkg[MAX_PACKET..]);
      assert pkg == pkg[..MAX_PACKET] + pkg[MAX_PACKET..];
    } else if pkg != [] {
      assert [pkg][1..] == [];
      assert pkg + [] == pkg;
    }
  }

  /** Every fragment is non-empty and within the limit, and there are ceil(len / 16384) of them. */
  lemma {:induction false} FragmentsSizes(pkg: seq<Byte>)
    ensures |Fragments(pkg)| == (|pkg| + 16383) / 16384
    ensures forall i | 0 <= i < |Fragments(pkg)| :: 0 < |Fragments(pkg)[i]| <= 16384
    ensures forall i | 0 <= i < |Fragments(pkg)| - 1 :: |Fragments(pkg)[i]| == 16384
    decreases |pkg|
  {
    if |pkg| > MAX_PACKET {
      FragmentsSizes(pkg[MAX_PACKET..]);
    }
  }

  /**
   A Connection as its callers see it. `sent` holds what each Send put on the
   wire; `faults` says for every Send, from the first on, how many bytes get out
   before an error (a negative number, or none: no error). A websocket delivers a
   whole message or nothing.
   */
  class Connection {
    const websocket: bool
    const faults: seq<int>
    var sent: seq<seq<Byte>>

    constructor (websocket: bool, faults: seq<int>)
      ensures this.websocket == websocket && sent == [] && this.faults == faults
    {
      this.websocket, sent, this.faults := websocket, [], faults;
    }

    ghost function Wire(): seq<Byte>
      reads this
    {
      Concat(sent)
    }

    /** The sends numbered from, ..., from + count - 1 work. */
    predicate Works(from: nat, count: nat) {
      forall i | from <= i < from + count && i < |faults| :: faults[i] < 0
    }

    method Send(p: seq<Byte>) returns (n: nat, ok: bool)
      modifies this
      ensures n <= |p| && (ok ==> n == |p|) && (!ok && websocket ==> n == 0)
      ensures ok <==> Works(old(|sent|), 1)
      ensures sent == old(sent) + [p[..n]]
    {
      var f := if |sent| < |faults| then faults[|sent|] else -1;
      ok := f < 0;
      n := if ok then |p| else if websocket then 0 else if f > |p| then |p| else f;
      sent := sent + [p[..n]];
    }
  }

  /** The bytes sent so far, one more piece, and the part of the package they make up. */
  lemma OneMore(old_sent: seq<seq<Byte>>, done: seq<seq<Byte>>, pkg: seq<Byte>, k: nat, n: nat)
    requires k + n <= |pkg| && Concat(done) == pkg[..k]
    ensures Concat(done + [pkg[k..][..n]]) == pkg[..k + n]
    ensures old_sent + done + [pkg[k..][..n]] == old_sent + (done + [pkg[k..][..n]])
    ensures Concat(old_sent + (done + [pkg[k..][..n]])) == Concat(old_sent) + pkg[..k + n]
  {
    var piece := pkg[k..][..n];
    ConcatJoin(done, [piece]);
    ConcatOne(piece);
    TakeMore(pkg, k, n);
    Assoc(old_sent, done, [piece]);
    ConcatJoin(old_sent, done + [piece]);
  }

  lemma NothingSent()
    ensures Concat<Byte>([]) == []
  {
  }

  lemma NextFragment(done: seq<seq<Byte>>, pkg: seq<Byte>, k: nat)
    requires k + MAX_PACKET < |pkg| && done + Fragments(pkg[k..]) == Fragments(pkg)
    ensures (done + [pkg[k..][..MAX_PACKET]]) + Fragments(pkg[k + MAX_PACKET..]) == Fragments(pkg)
  {
    var rest := pkg[k..];
    TakeMore(pkg, k, MAX_PACKET);
    Assoc(done, [rest[..MAX_PACKET]], Fragments(rest[MAX_PACKET..]));
  }

  lemma LastFragment(done: seq<seq<Byte>>, pkg: seq<Byte>, k: nat)
    requires k <= |pkg| <= k + MAX_PACKET && done + Fragments(pkg[k..]) == Fragments(pkg)
    ensures k < |pkg| ==> done + [pkg[k..]] == Fragments(pkg)
    ensures k == |pkg| ==> done == Fragments(pkg)
  {
  }

  lemma MoreToCome(rest: seq<Byte>)
    requires rest != []
    ensures Fragments(rest) != []
  {
  }

  /** The fragment loop of WriteBytes on a raw connection. */
  method WriteFragments(conn: Connection, pkg: seq<Byte>) returns (n: nat, ok: bool)
    modifies conn
    ensures n <= |pkg| && (ok ==> n == |pkg|)
    ensures conn.Wire() == old(conn.Wire()) + pkg[..n]
    ensures ok ==> conn.sent == old(conn.sent) + Fragments(pkg)
    ensures ok <==> conn.Works(old(|conn.sent|), |Fragments(pkg)|)
  {
    var left, total, written := |pkg|, |pkg|, 0;
    hide Fragments, Concat;
    ghost var done := [];
    NothingSent();
    assert conn.sent + [] == conn.sent && pkg[0..] == pkg && done + Fragments(pkg) == Fragments(pkg);
    while left > MAX_PACKET
      invariant 0 <= written <= |pkg| && left == |pkg| - written && (pkg != [] ==> left > 0)
      invariant conn.sent == old(conn.sent) + done
      invariant Concat(done) == pkg[..written]
      invariant done + Fragments(pkg[written..]) == Fragments(pkg)
      invariant conn.Works(old(|conn.sent|), |done|)
    {
      MoreToCome(pkg[written..]);
      var piece := pkg[written..][..MAX_PACKET];
      var k, sentAll := conn.Send(piece);
      assert piece[..k] == pkg[written..][..k];
      OneMore(old(conn.sent), done, pkg, written, k);
      if !sentAll {
        return written + k, false;
      }
      NextFragment(done, pkg, written);
      done := done + [piece];
      left := left - MAX_PACKET;
      written := written + MAX_PACKET;
    }
    LastFragment(done, pkg, written);
    if left == 0 {
      assert conn.Wire() + [] == conn.Wire();
      return written, true;
    }
    var tail := pkg[written..];
    MoreToCome(tail);
    var k, sentAll := conn.Send(tail);
    OneMore(old(conn.sent), done, pkg, written, k);
    if !sentAll {
      return written + k, false;
    }
    assert tail[..k] == tail;
    Assoc(old(conn.sent), done, [tail]);
    return total, true;
  }

  /** session.WriteBytes; a nil connection is a closed session. */
  method WriteBytes(conn: Connection?, limit: nat, pkg: seq<Byte>) returns (n: nat, ok: bool)
    modifies conn
    ensures n <= |pkg| && (ok ==> conn != null && n == |pkg|)
    ensures conn == null ==> n == 0 && !ok
    ensures conn != null ==> conn.Wire() == old(conn.Wire()) + pkg[..n]
    ensures ok && conn.websocket ==> conn.sent == old(conn.sent) + [pkg]
    ensures ok && !conn.websocket ==> conn.sent == old(conn.sent) + Fragments(pkg)
    ensures conn != null && conn.websocket && limit > 0 && |pkg| > limit ==> !ok && conn.sent == old(conn.sent)
    ensures conn != null ==>
              (ok <==> if conn.websocket then (limit == 0 || |pkg| <= limit) && conn.Works(old(|conn.sent|), 1)
                       else conn.Works(old(|conn.sent|), |Fragments(pkg)|))
  {
    if conn == null {
      return 0, false;
    }
    if conn.websocket {
      if limit > 0 && |pkg| > limit {
        assert conn.Wire() + [] == conn.Wire();
        return 0, false;
      }
      n, ok := conn.Send(pkg);
      ConcatJoin(old(conn.sent), [pkg[..n]]);
      ConcatOne(pkg[..n]);
      if ok { assert pkg[..n] == pkg; }
      return;
    }
    n, ok := WriteFragments(conn, pkg);
  }

  /** session.WriteBytesArray on a websocket: one message per package, counted until the first failure. */
  method WriteBatchWebsocket(conn: Connection, limit: nat, pkgs: seq<seq<Byte>>) returns (total: nat, ok: bool)
    requires conn.websocket
    modifies conn
    ensures total <= |Concat(pkgs)| && conn.Wire() == old(conn.Wire()) + Concat(pkgs)[..total]
    ensures ok ==> total == |Concat(pkgs)| && conn.sent == old(conn.sent) + pkgs
    ensures ok <==> conn.Works(old(|conn.sent|), |pkgs|) && forall i | 0 <= i < |pkgs| :: limit == 0 || |pkgs[i]| <= limit
  {
    total := 0;
    assert pkgs[..0] == [] && old(conn.sent) + [] == old(conn.sent);
    for i := 0 to |pkgs|
      invariant conn.sent == old(conn.sent) + pkgs[..i]
      invariant total == |Concat(pkgs[..i])|
      invariant forall j | 0 <= j < i :: limit == 0 || |pkgs[j]| <= limit
      invariant conn.Works(old(|conn.sent|), i)
    {
      ConcatPrefix(pkgs, i);
      ConcatJoin(old(conn.sent), pkgs[..i]);
      if limit > 0 && |pkgs[i]| > limit {
        return total, false;
      }
      ghost var before := conn.sent;
      var lg, sentAll := conn.Send(pkgs[i]);
      ConcatJoin(before, [pkgs[i][..lg]]);
      ConcatOne(pkgs[i][..lg]);
      total := total + lg;
      if !sentAll {
        assert Concat(before) + [] == Concat(before);
        return total, false;
      }
      assert pkgs[i][..lg] == pkgs[i];
      assert pkgs[..i + 1] == pkgs[..i] + [pkgs[i]];
      ConcatJoin(pkgs[..i], [pkgs[i]]);
      Assoc(old(conn.sent), pkgs[..i], [pkgs[i]]);
    }
    assert pkgs[..|pkgs|] == pkgs;
    ConcatJoin(old(conn.sent), pkgs);
    assert Concat(pkgs)[..total] == Concat(pkgs);
    ok := true;
  }

  /** session.WriteBytesArray on any other connection: copy the packages into one buffer and write that. */
  method WriteBatchMerged(conn: Connection?, limit: nat, pkgs: seq<seq<Byte>>) returns (n: nat, ok: bool)
    modifies conn
    ensures n <= |Concat(pkgs)| && (ok ==> conn != null && n == |Concat(pkgs)|)
    ensures conn == null ==> n == 0 && !ok
    ensures conn != null ==> conn.Wire() == old(conn.Wire()) + Concat(pkgs)[..n]
    ensures ok && !conn.websocket ==> conn.sent == old(conn.sent) + Fragments(Concat(pkgs))
    ensures conn != null && !conn.websocket ==> (ok <==> conn.Works(old(|conn.sent|), |Fragments(Concat(pkgs))|))
  {
    var arr := Merge(pkgs);
    n, ok := WriteBytes(conn, limit, arr[..]);
  }

  method Merge(pkgs: seq<seq<Byte>>) returns (arr: array<Byte>)
    ensures fresh(arr) && arr[..] == Concat(pkgs)
  {
    hide Concat;
    var length := 0;
    assert pkgs[..0] == [];
    NothingSent();
    for i := 0 to |pkgs|
      invariant length == |Concat(pkgs[..i])|
    {
      NextPackage(pkgs, i);
      length := length + |pkgs[i]|;
    }
    arr := new Byte[length];
    assert pkgs[..|pkgs|] == pkgs;
    var l := 0;
    for i := 0 to |pkgs|
      invariant fresh(arr) && l == |Concat(pkgs[..i])| <= arr.Length == |Concat(pkgs)| && arr[..l] == Concat(pkgs[..i])
    {
      NextPackage(pkgs, i);
      ConcatPrefix(pkgs, i + 1);
      ghost var before := arr[..l];
      forall j | 0 <= j < |pkgs[i]| { arr[l + j] := pkgs[i][j]; }
      assert arr[..l] == before;
      assert arr[l..l + |pkgs[i]|] == pkgs[i];
      assert arr[..l + |pkgs[i]|] == arr[..l] + arr[l..l + |pkgs[i]|];
      l := l + |pkgs[i]|;
    }
    assert arr[..l] == arr[..];
  }

  lemma NextPackage<T>(pkgs: seq<seq<T>>, i: nat)
    requires i < |pkgs|
    ensures Concat(pkgs[..i + 1]) == Concat(pkgs[..i]) + pkgs[i]
  {
    assert pkgs[..i + 1] == pkgs[..i] + [pkgs[i]];
    ConcatJoin(pkgs[..i], [pkgs[i]]);
    ConcatOne(pkgs[i]);
  }

  lemma {:induction false} ConcatPrefix<T>(pkgs: seq<seq<T>>, i: nat)
    requires i <= |pkgs|
    ensures |Concat(pkgs[..i])| <= |Concat(pkgs)| && Concat(pkgs)[..|Concat(pkgs[..i])|] == Concat(pkgs[..i])
  {
    ConcatJoin(pkgs[..i], pkgs[i..]);
    assert pkgs == pkgs[..i] + pkgs[i..];
  }
}
