/** Copying string arrays with pointer hand-over (obus_field_array_copy): which heap strings are
    owned by whom, and which are freed. */
module StringArrays {
  import opened Values

  /** A char pointer: NULL, the static empty string, or a heap string. */
  type Ptr = nat
  const NULL: Ptr := 0
  const EMPTY: Ptr := 1

  predicate OnHeap(p: Ptr) { p > EMPTY }

  ghost predicate InHeap(a: seq<Ptr>, live: map<Ptr, seq<byte>>) {
    forall i :: 0 <= i < |a| && OnHeap(a[i]) ==> a[i] in live
  }

  /** No heap string occurs twice: the array owns each of its strings. */
  ghost predicate Owns(a: seq<Ptr>) {
    forall i, j :: 0 <= i < j < |a| && OnHeap(a[i]) ==> a[i] != a[j]
  }

  ghost predicate Apart(a: seq<Ptr>, b: seq<Ptr>) {
    forall i, j :: 0 <= i < |a| && 0 <= j < |b| && OnHeap(a[i]) ==> a[i] != b[j]
  }

  /** The text behind a pointer; NULL counts as empty. */
  function Content(live: map<Ptr, seq<byte>>, p: Ptr): seq<byte> {
    if OnHeap(p) && p in live then live[p] else []
  }

  ghost function HeapOf(a: seq<Ptr>): set<Ptr> { set i | 0 <= i < |a| && OnHeap(a[i]) :: a[i] }

  class Heap {
    var live: map<Ptr, seq<byte>>
    var next: Ptr

    ghost predicate Valid()
      reads this
    {
      next > EMPTY && forall p :: p in live ==> OnHeap(p) && p < next
    }

    constructor ()
      ensures Valid() && live == map[]
    {
      live, next := map[], EMPTY + 1;
    }

    method Dup(text: seq<byte>) returns (p: Ptr)
      requires Valid()
      modifies this
      ensures Valid() && OnHeap(p) && p !in old(live) && p >= old(next) && live == old(live)[p := text] && next > p
    {
      p := next;
      live := live[p := text];
      next := next + 1;
    }

    /** obus_copy_value on a string slot that holds the empty string. */
    method CopyValue(src: Ptr) returns (p: Ptr)
      requires Valid() && (OnHeap(src) ==> src in live)
      modifies this
      ensures Valid() && old(next) <= next
      ensures Content(live, p) == Content(old(live), src)
      ensures OnHeap(p) ==> OnHeap(src) && p >= old(next) && p < next && p !in old(live) && live == old(live)[p := old(live)[src]]
      ensures !OnHeap(p) ==> p == EMPTY && live == old(live)
    {
      if src != NULL && src != EMPTY {
        p := Dup(live[src]);
      } else {
        p := EMPTY;
      }
    }

    /** obus_field_array_ref_value: if the old array holds this very pointer, take it over. */
    method HandOver(dst: seq<Ptr>, p: Ptr) returns (found: bool, dst': seq<Ptr>)
      ensures found == (p in dst) && |dst'| == |dst|
      ensures !found ==> dst' == dst
      ensures found ==> exists j :: 0 <= j < |dst| && dst[j] == p && dst' == dst[j := NULL]
    {
      for j := 0 to |dst|
        invariant p !in dst[..j]
      {
        if dst[j] == p {
          return true, dst[j := NULL];
        }
      }
      return false, dst;
    }

    method FreeAll(a: seq<Ptr>)
      requires Valid()
      modifies this`live
      ensures Valid() && live == old(live) - HeapOf(a)
    {
      for i := 0 to |a|
        invariant Valid() && live == old(live) - HeapOf(a[..i])
      {
        if a[i] != EMPTY {
          live := live - {a[i]};
        }
        HeapOfNext(a, i);
      }
      assert a[..|a|] == a;
    }

    /** The copy loop: r is the new array, d what is left of the old one. */
    method CopyItems(src: seq<Ptr>, dst: seq<Ptr>) returns (r: seq<Ptr>, d: seq<Ptr>)
      requires Valid() && InHeap(src, live) && InHeap(dst, live) && Owns(dst)
      modifies this
      ensures Valid() && |r| == |src| && Grown(old(live), live)
      ensures Kept(d, dst, r) && Moved(old(live), live, dst, d, r, old(next))
      ensures forall k :: 0 <= k < |src| ==> Content(live, r[k]) == Content(old(live), src[k])
      ensures forall k :: 0 <= k < |src| && OnHeap(src[k]) ==> src[k] !in d
    {
      hide Kept, Moved, Owns, Content, Grown, HeapOf;
      r, d := [], dst;
      NothingMoved(live, dst, next);
      var i := 0;
      while i < |src|
        invariant 0 <= i <= |src| && |r| == i && Valid()
        invariant Grown(old(live), live) && old(next) <= next
        invariant Kept(d, dst, r) && Moved(old(live), live, dst, d, r, old(next))
        invariant forall k :: 0 <= k < i ==> Content(live, r[k]) == Content(old(live), src[k])
        invariant forall k :: 0 <= k < i && OnHeap(src[k]) ==> src[k] !in d
      {
        var p;
        p, d := CopyItem(src[i], dst, d, r, old(live), old(next));
        r := r + [p];
        i := i + 1;
      }
    }

    /** One item: taken over from the old array, or duplicated. */
    method CopyItem(s: Ptr, ghost dst: seq<Ptr>, d: seq<Ptr>, ghost r: seq<Ptr>, ghost live0: map<Ptr, seq<byte>>, ghost next0: Ptr) returns (p: Ptr, d': seq<Ptr>)
      requires Valid() && (OnHeap(s) ==> s in live0) && InHeap(dst, live0) && next0 <= next
      requires Grown(live0, live) && Kept(d, dst, r) && Moved(live0, live, dst, d, r, next0)
      modifies this
      ensures Valid() && next0 <= next && Grown(live0, live) && Grown(old(live), live)
      ensures Kept(d', dst, r + [p]) && Moved(live0, live, dst, d', r + [p], next0)
      ensures Content(live, p) == Content(live0, s)
      ensures OnHeap(s) ==> s !in d'
      ensures forall q :: q in d' ==> q in d || q == NULL
      ensures forall k :: 0 <= k < |r| ==> Content(live, r[k]) == Content(old(live), r[k])
    {
      var found;
      found, d' := HandOver(d, s);
      if found {
        ghost var j :| 0 <= j < |d| && d[j] == s && d' == d[j := NULL];
        HandedOver(live0, live, dst, d, r, j, next0);
        p := s;
      } else {
        p := CopyValue(s);
        Copied(live0, old(live), live, dst, d, r, p, next0);
        forall k | 0 <= k < |r|
          ensures Content(live, r[k]) == Content(old(live), r[k])
        {
          InHeapOf(r, r[k]);
        }
      }
    }

    /** obus_field_array_copy on strings, for distinct item arrays. The new array reads as a deep
        copy of the source; it owns its strings; no string of the source is freed; and the heap
        changes by exactly the old array's strings going and the new array's coming. */
    method ArrayCopy(src: seq<Ptr>, dst: seq<Ptr>) returns (r: seq<Ptr>)
      requires Valid() && InHeap(src, live) && InHeap(dst, live) && Owns(dst)
      modifies this
      ensures Valid() && |r| == |src|
      ensures forall i :: 0 <= i < |src| ==> Content(live, r[i]) == Content(old(live), src[i])
      ensures InHeap(r, live) && Owns(r)
      ensures forall p :: p in src && OnHeap(p) ==> p in live && live[p] == old(live)[p]
      ensures forall p :: p in old(live) && p !in dst ==> p in live && live[p] == old(live)[p]
      ensures live.Keys == (old(live).Keys - HeapOf(dst)) + HeapOf(r)
    {
      var d;
      r, d := CopyItems(src, dst);
      Settled(old(live), live, src, dst, d, r, old(next));
      ghost var full := live;
      FreeAll(d);
      forall i | 0 <= i < |r| && OnHeap(r[i])
        ensures r[i] in live && live[r[i]] == full[r[i]]
      {
        InHeapOf(r, r[i]);
      }
    }
  }

  // ---- the loop's invariant, piece by piece ----

  /** Nothing that was live is gone or changed. */
  ghost predicate Grown(before: map<Ptr, seq<byte>>, now: map<Ptr, seq<byte>>) {
    forall p :: p in before ==> p in now && now[p] == before[p]
  }

  /** What is left of the old array owns its strings, apart from the new array's. */
  ghost predicate Kept(d: seq<Ptr>, dst: seq<Ptr>, r: seq<Ptr>) {
    Owns(d) && Owns(r) && Apart(d, r) && forall j :: 0 <= j < |d| ==> d[j] == NULL || d[j] in dst
  }

  /** Strings of the old array are still in it or were handed over; the new array's others are new. */
  ghost predicate Moved(before: map<Ptr, seq<byte>>, now: map<Ptr, seq<byte>>, dst: seq<Ptr>, d: seq<Ptr>, r: seq<Ptr>, next: Ptr) {
    HeapOf(dst) <= HeapOf(d) + HeapOf(r) &&
    now.Keys == before.Keys + HeapOf(r) &&
    (forall p :: p in HeapOf(r) ==> p in HeapOf(dst) || p >= next) &&
    (forall p :: p in before ==> p < next)
  }

  lemma HeapOfNext(a: seq<Ptr>, i: nat)
    requires i < |a|
    ensures HeapOf(a[..i + 1]) == HeapOf(a[..i]) + (if OnHeap(a[i]) then {a[i]} else {})
  {
    assert a[..i + 1] == a[..i] + [a[i]];
    HeapOfAppend(a[..i], a[i]);
  }

  lemma HeapOfAppend(a: seq<Ptr>, p: Ptr)
    ensures HeapOf(a + [p]) == HeapOf(a) + (if OnHeap(p) then {p} else {})
  {
    var b := a + [p];
    forall q
      ensures q in HeapOf(b) <==> q in HeapOf(a) || (OnHeap(p) && q == p)
    {
      if q in HeapOf(a) {
        var i :| 0 <= i < |a| && OnHeap(a[i]) && a[i] == q;
        assert b[i] == q;
      }
      if OnHeap(p) && q == p {
        assert b[|a|] == q;
      }
    }
  }

  lemma InHeapOf(a: seq<Ptr>, p: Ptr)
    ensures p in HeapOf(a) <==> OnHeap(p) && p in a
  {
  }

  lemma NothingMoved(live: map<Ptr, seq<byte>>, dst: seq<Ptr>, next: Ptr)
    requires Owns(dst) && forall p :: p in live ==> p < next
    ensures Grown(live, live) && Kept(dst, dst, []) && Moved(live, live, dst, dst, [], next)
  {
    assert HeapOf([]) == {};
  }

  lemma HandedOver(before: map<Ptr, seq<byte>>, now: map<Ptr, seq<byte>>, dst: seq<Ptr>, d: seq<Ptr>, r: seq<Ptr>, j: nat, next: Ptr)
    requires j < |d| && Kept(d, dst, r) && Moved(before, now, dst, d, r, next) && InHeap(dst, before) && Grown(before, now)
    ensures Kept(d[j := NULL], dst, r + [d[j]]) && Moved(before, now, dst, d[j := NULL], r + [d[j]], next)
    ensures OnHeap(d[j]) ==> d[j] !in d[j := NULL]
  {
    var p, d' := d[j], d[j := NULL];
    HeapOfAppend(r, p);
    forall q | q in HeapOf(dst)
      ensures q in HeapOf(d') + HeapOf(r + [p])
    {
      if q in HeapOf(d) && q != p {
        var k :| 0 <= k < |d| && OnHeap(d[k]) && d[k] == q;
        assert d'[k] == q;
      }
    }
    if OnHeap(p) {
      assert p in dst;
      InHeapOf(dst, p);
    }
  }

  lemma Copied(before: map<Ptr, seq<byte>>, was: map<Ptr, seq<byte>>, now: map<Ptr, seq<byte>>, dst: seq<Ptr>, d: seq<Ptr>, r: seq<Ptr>, p: Ptr, next: Ptr)
    requires Kept(d, dst, r) && Moved(before, was, dst, d, r, next) && Grown(before, was) && InHeap(dst, before)
    requires OnHeap(p) ==> p !in was && p >= next && now.Keys == was.Keys + {p}
    requires !OnHeap(p) ==> now.Keys == was.Keys
    ensures Kept(d, dst, r + [p]) && Moved(before, now, dst, d, r + [p], next)
  {
    HeapOfAppend(r, p);
    if OnHeap(p) {
      forall k | 0 <= k < |r|
        ensures r[k] != p
      {
        InHeapOf(r, r[k]);
      }
      forall k | 0 <= k < |d|
        ensures d[k] != p
      {
        if OnHeap(d[k]) {
          assert d[k] in dst;
        }
      }
    }
  }

  /** After the loop only the old array's abandoned strings remain to be freed. */
  lemma Settled(before: map<Ptr, seq<byte>>, now: map<Ptr, seq<byte>>, src: seq<Ptr>, dst: seq<Ptr>, d: seq<Ptr>, r: seq<Ptr>, next: Ptr)
    requires Kept(d, dst, r) && Moved(before, now, dst, d, r, next) && Grown(before, now)
    requires InHeap(src, before) && InHeap(dst, before)
    requires forall k :: 0 <= k < |src| && OnHeap(src[k]) ==> src[k] !in d
    ensures HeapOf(d) !! HeapOf(r) && HeapOf(d) <= HeapOf(dst)
    ensures now.Keys - HeapOf(d) == (before.Keys - HeapOf(dst)) + HeapOf(r)
    ensures forall p :: p in src && OnHeap(p) ==> p !in HeapOf(d)
    ensures InHeap(r, now)
  {
    forall p | p in HeapOf(d)
      ensures p !in HeapOf(r) && p in HeapOf(dst)
    {
      var k :| 0 <= k < |d| && OnHeap(d[k]) && d[k] == p;
      InHeapOf(dst, p);
      InHeapOf(r, p);
    }
    forall p
      ensures p in now.Keys - HeapOf(d) <==> p in (before.Keys - HeapOf(dst)) + HeapOf(r)
    {
    }
    forall i | 0 <= i < |r| && OnHeap(r[i])
      ensures r[i] in now
    {
      InHeapOf(r, r[i]);
      assert r[i] in HeapOf(r);
    }
  }

  // ---- the same item array on both sides ----

  /** If source and destination are the same item array, taking a pointer over clears the very
      slot it is then read from: every text is lost, and the copy reads as a deep copy if and only
      if there was no text to copy. */
  method ArrayCopyOntoItself(live: map<Ptr, seq<byte>>, a: seq<Ptr>) returns (r: seq<Ptr>)
    requires Owns(a)
    ensures |r| == |a| && forall i :: 0 <= i < |a| ==> !OnHeap(r[i])
    ensures (forall i :: 0 <= i < |a| ==> Content(live, r[i]) == Content(live, a[i])) <==>
            (forall i :: 0 <= i < |a| ==> Content(live, a[i]) == [])
  {
    r := [];
    var d: seq<Ptr> := a;
    var i := 0;
    while i < |a|
      invariant 0 <= i <= |a| && |r| == i && |d| == |a| && Owns(d)
      invariant forall k :: 0 <= k < i ==> !OnHeap(r[k]) && !OnHeap(d[k])
    {
      var p := d[i];
      var j := 0;
      while d[j] != p
        invariant 0 <= j <= i
        decreases i - j
      {
        j := j + 1;
      }
      d := d[j := NULL];
      r := r + [d[i]];
      i := i + 1;
    }
  }
}
