/** obus_list.h on the heap: circular doubly linked lists through nodes inside the entries. Each
    operation rewrites a few pointers; the ring of nodes it leaves is the sequence one expects. */
module IntrusiveList {

  /** A node that is in no list carries poison, here null. */
  class Node {
    var next: Node?
    var prev: Node?

    constructor ()
      ensures next == null && prev == null
    {
      next, prev := null, null;
    }
  }

  function Succ(i: nat, n: nat): (j: nat)
    requires i < n
    ensures j < n
  {
    if i + 1 == n then 0 else i + 1
  }

  ghost predicate Distinct(ns: seq<Node>) { forall i, j :: 0 <= i < j < |ns| ==> ns[i] != ns[j] }

  ghost predicate Linked(ns: seq<Node>, i: nat)
    requires i < |ns|
    reads ns
  {
    ns[i].next == ns[Succ(i, |ns|)] && ns[Succ(i, |ns|)].prev == ns[i]
  }

  /** The nodes of a list in order, its head first. */
  ghost predicate Ring(ns: seq<Node>)
    reads ns
  {
    |ns| > 0 && Distinct(ns) && forall i :: 0 <= i < |ns| ==> Linked(ns, i)
  }

  method Init(list: Node)
    modifies list
    ensures Ring([list])
  {
    list.next, list.prev := list, list;
    assert Linked([list], 0);
  }

  method IsEmpty(list: Node, ghost ns: seq<Node>) returns (r: bool)
    requires Ring(ns) && list == ns[0]
    ensures r == (|ns| == 1)
  {
    assert Linked(ns, 0);
    r := list.next == list;
  }

  /** Inserting before the node at i; before the head means at the end. */
  function InsertedBefore(ns: seq<Node>, i: nat, novel: Node): seq<Node>
    requires i < |ns|
  {
    if i == 0 then ns + [novel] else ns[..i] + [novel] + ns[i..]
  }

  lemma InsertedLinks(ns: seq<Node>, i: nat, novel: Node)
    requires i < |ns| && Distinct(ns) && novel !in ns
    ensures var r := InsertedBefore(ns, i, novel); Distinct(r) && |r| == |ns| + 1
  {
  }

  /** obus_list_add_before. */
  method AddBefore(node: Node, novel: Node, ghost ns: seq<Node>, ghost i: nat)
    requires Ring(ns) && i < |ns| && ns[i] == node && novel !in ns
    modifies ns, novel
    ensures Ring(InsertedBefore(ns, i, novel))
  {
    ghost var p := if i == 0 then |ns| - 1 else i - 1;
    assert Linked(ns, p) && Succ(p, |ns|) == i;
    var prev := node.prev;
    node.prev := novel;
    novel.next := node;
    novel.prev := prev;
    prev.next := novel;
    ghost var r := InsertedBefore(ns, i, novel);
    InsertedLinks(ns, i, novel);
    forall j | 0 <= j < |r|
      ensures Linked(r, j)
    {
      if j < if i == 0 then |ns| else i {
        assert old(Linked(ns, j)) && r[j] == ns[j];
      } else if i > 0 && j > i {
        assert old(Linked(ns, j - 1)) && r[j] == ns[j - 1];
      }
    }
  }

  /** Taking out the node at i. */
  function Deleted(ns: seq<Node>, i: nat): seq<Node>
    requires i < |ns|
  {
    ns[..i] + ns[i + 1..]
  }

  /** obus_list_del of a node other than the head. */
  method Del(node: Node, ghost ns: seq<Node>, ghost i: nat)
    requires Ring(ns) && 0 < i < |ns| && ns[i] == node
    modifies ns
    ensures Ring(Deleted(ns, i)) && node.next == null && node.prev == null
  {
    assert Linked(ns, i - 1) && Linked(ns, i) && Succ(i - 1, |ns|) == i;
    var prev, next := node.prev, node.next;
    next.prev := prev;
    prev.next := next;
    node.next, node.prev := null, null;
    ghost var r := Deleted(ns, i);
    assert Distinct(r);
    forall j | 0 <= j < |r|
      ensures Linked(r, j)
    {
      if j < i {
        assert old(Linked(ns, j)) && r[j] == ns[j];
      } else {
        assert old(Linked(ns, j + 1)) && r[j] == ns[j + 1];
      }
    }
  }

  /** obus_list_walk_forward: every entry in order, the head left out. */
  method Walk(list: Node, ghost ns: seq<Node>) returns (seen: seq<Node>)
    requires Ring(ns) && list == ns[0]
    ensures [list] + seen == ns
  {
    seen := [];
    assert Linked(ns, 0);
    var pos := list.next;
    ghost var i := 0;
    while pos != list
      invariant 0 <= i < |ns| && seen == ns[1..i + 1] && pos == ns[Succ(i, |ns|)]
      decreases |ns| - i
    {
      i := i + 1;
      assert Linked(ns, i);
      seen := seen + [pos];
      pos := pos.next;
    }
  }

  function Without(ns: seq<Node>, going: set<Node>): seq<Node> {
    if ns == [] then [] else (if ns[0] in going then [] else [ns[0]]) + Without(ns[1..], going)
  }

  lemma {:induction false} WithoutSplit(a: seq<Node>, b: seq<Node>, going: set<Node>)
    ensures Without(a + b, going) == Without(a, going) + Without(b, going)
  {
    if a == [] {
      assert a + b == b;
    } else {
      assert (a + b)[1..] == a[1..] + b;
      WithoutSplit(a[1..], b, going);
    }
  }

  lemma {:induction false} WithoutMembers(a: seq<Node>, going: set<Node>)
    ensures forall j :: 0 <= j < |Without(a, going)| ==> Without(a, going)[j] in a && Without(a, going)[j] !in going
  {
    if a != [] {
      WithoutMembers(a[1..], going);
      var r, w := Without(a[1..], going), Without(a, going);
      forall j | 0 <= j < |w|
        ensures w[j] in a && w[j] !in going
      {
        if a[0] in going || j > 0 {
          assert w[j] == r[if a[0] in going then j else j - 1];
        }
      }
    }
  }

  /** The list after the first n nodes were looked at. */
  function Swept(ns: seq<Node>, n: nat, going: set<Node>): seq<Node>
    requires n <= |ns|
  {
    Without(ns[..n], going) + ns[n..]
  }

  lemma SweptStep(ns: seq<Node>, n: nat, going: set<Node>)
    requires n < |ns| && Distinct(ns)
    ensures var k := |Without(ns[..n], going)|;
            k < |Swept(ns, n, going)| && Swept(ns, n, going)[k] == ns[n] &&
            (ns[n] in going ==> Swept(ns, n + 1, going) == Deleted(Swept(ns, n, going), k) && |Without(ns[..n + 1], going)| == k) &&
            (ns[n] !in going ==> Swept(ns, n + 1, going) == Swept(ns, n, going) && |Without(ns[..n + 1], going)| == k + 1)
  {
    assert ns[..n + 1] == ns[..n] + [ns[n]];
    WithoutSplit(ns[..n], [ns[n]], going);
    WithoutOne(ns[n], going);
    hide Without;
    assert ns[n..] == [ns[n]] + ns[n + 1..];
  }

  lemma WithoutOne(x: Node, going: set<Node>)
    ensures Without([x], going) == if x in going then [] else [x]
  {
  }

  lemma SweptMembers(ns: seq<Node>, n: nat, going: set<Node>)
    requires n < |ns| && Distinct(ns)
    ensures forall j :: 0 <= j < |Swept(ns, n, going)| ==> Swept(ns, n, going)[j] in ns
    ensures forall m :: 0 <= m < n && ns[m] in going ==> ns[m] !in Swept(ns, n, going)
  {
    hide Without;
    WithoutMembers(ns[..n], going);
    var s, w := Swept(ns, n, going), Without(ns[..n], going);
    forall j | 0 <= j < |s|
      ensures s[j] in ns
    {
      if j < |w| {
        assert s[j] == w[j] && w[j] in ns[..n];
      } else {
        assert s[j] == ns[n + j - |w|];
      }
    }
  }

  /** obus_list_walk_forward_safe with deletion, as obus_bus_abort_call and the teardown loops use
      it: the entries to go leave the list, unlinked, and the others keep their order. */
  method Sweep(list: Node, going: set<Node>, ghost ns: seq<Node>)
    requires Ring(ns) && list == ns[0] && list !in going
    modifies ns
    ensures Ring(Without(ns, going))
    ensures forall x :: x in ns && x in going ==> x.next == null && x.prev == null
  {
    assert Linked(ns, 0);
    var pos := list.next;
    ghost var n := 1;
    SweepStarts(ns, going);
    while pos != list
      invariant 1 <= n <= |ns| && Ring(Swept(ns, n, going)) && pos == if n < |ns| then ns[n] else list
      invariant 0 < |Without(ns[..n], going)| && Swept(ns, n, going)[0] == list
      invariant forall m :: 0 <= m < n && ns[m] in going ==> ns[m].next == null && ns[m].prev == null
      decreases |ns| - n
    {
      ghost var kept, k := Swept(ns, n, going), |Without(ns[..n], going)|;
      SweptStep(ns, n, going);
      SweptMembers(ns, n, going);
      assert Linked(kept, k);
      var tmp := pos.next;
      SweptNext(ns, n, going);
      if pos in going {
        Del(pos, kept, k);
      }
      pos := tmp;
      n := n + 1;
    }
    assert ns[..n] == ns && ns[n..] == [];
    assert Swept(ns, n, going) == Without(ns, going);
  }

  lemma SweepStarts(ns: seq<Node>, going: set<Node>)
    requires |ns| > 0 && ns[0] !in going
    ensures Without(ns[..1], going) == [ns[0]] && Swept(ns, 1, going) == ns
  {
    assert ns[..1] == [ns[0]] && Without([], going) == [];
    assert ns == [ns[0]] + ns[1..];
  }

  /** Behind the node looked at comes the next one of the original list, or the head. */
  lemma SweptNext(ns: seq<Node>, n: nat, going: set<Node>)
    requires n < |ns|
    ensures var k, s := |Without(ns[..n], going)|, Swept(ns, n, going);
            k < |s| && s[Succ(k, |s|)] == if n + 1 < |ns| then ns[n + 1] else s[0]
  {
  }
}
