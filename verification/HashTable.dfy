/** The chained hash of obus_hash.c with its list of all entries, against a plain
    insertion-ordered association list. */
module HashTable {
  import opened Values

  datatype Entry<V> = Entry(key: u32, data: V, isConst: bool)

  /** Keys are looked up first to last; |s| when absent. */
  function IndexOf<V>(s: seq<Entry<V>>, key: u32): (i: nat)
    ensures i <= |s|
    ensures i < |s| ==> s[i].key == key
    ensures forall j :: 0 <= j < i ==> s[j].key != key
  {
    if s == [] || s[0].key == key then 0 else 1 + IndexOf(s[1..], key)
  }

  function Cut<V>(s: seq<Entry<V>>, i: nat): seq<Entry<V>> {
    if i < |s| then s[..i] + s[i + 1..] else s
  }

  // ---- the plain map, in insertion order ----

  datatype Op<V> = Insert(entry: Entry<V>) | Remove(key: u32) | Lookup(key: u32)
  datatype Result<V> = Done | Exists | Missing | Found(entry: Entry<V>)
  datatype State<S, V> = State(s: S, results: seq<Result<V>>)

  function MapInsert<V>(m: seq<Entry<V>>, e: Entry<V>): seq<Entry<V>> {
    if IndexOf(m, e.key) < |m| then m else m + [e]
  }

  function MapRemove<V>(m: seq<Entry<V>>, key: u32): seq<Entry<V>> { Cut(m, IndexOf(m, key)) }

  function MapFind<V>(m: seq<Entry<V>>, key: u32): Option<Entry<V>> {
    var i := IndexOf(m, key);
    if i < |m| then Some(m[i]) else None
  }

  function MapDo<V>(m: seq<Entry<V>>, op: Op<V>): (r: (seq<Entry<V>>, Result<V>)) {
    match op
    case Insert(e) => (MapInsert(m, e), if MapFind(m, e.key).Some? then Exists else Done)
    case Remove(k) => (MapRemove(m, k), if MapFind(m, k).Some? then Done else Missing)
    case Lookup(k) => (m, var f := MapFind(m, k); if f.Some? then Found(f.value) else Missing)
  }

  function MapRun<V>(m: seq<Entry<V>>, ops: seq<Op<V>>): State<seq<Entry<V>>, V>
    decreases |ops|
  {
    if ops == [] then State(m, [])
    else
      var r := MapDo(m, ops[0]);
      var t := MapRun(r.0, ops[1..]);
      t.(results := [r.1] + t.results)
  }

  ghost predicate Holds<V>(m: seq<Entry<V>>, key: u32) {
    exists i :: 0 <= i < |m| && m[i].key == key
  }

  /** The list is a map: a held key is never inserted again, a new one goes to the end; removing
      takes out the one entry of the key and keeps the order; a lookup finds the entry of the key. */
  lemma MapDoIs<V(!new)>(m: seq<Entry<V>>, op: Op<V>)
    requires DistinctKeys(m)
    ensures var r := MapDo(m, op);
            DistinctKeys(r.0) &&
            match op
            case Insert(e) => r == if Holds(m, e.key) then (m, Exists) else (m + [e], Done)
            case Remove(k) =>
              (r.1 == if Holds(m, k) then Done else Missing) && (!Holds(m, k) ==> r.0 == m) &&
              (Holds(m, k) ==> exists i :: 0 <= i < |m| && m[i].key == k && r.0 == m[..i] + m[i + 1..])
            case Lookup(k) =>
              r.0 == m && (Holds(m, k) <==> r.1.Found?) && (!r.1.Found? ==> r.1 == Missing) &&
              (r.1.Found? ==> r.1.entry in m && r.1.entry.key == k)
  {
    hide Holds, DistinctKeys;
    match op
    case Insert(e) => IndexTells(m, e.key); AppendNew(m, e);
    case Remove(k) => IndexTells(m, k); CutIn(m, k);
    case Lookup(k) => IndexTells(m, k);
  }

  lemma IndexTells<V(!new)>(m: seq<Entry<V>>, key: u32)
    ensures IndexOf(m, key) < |m| <==> Holds(m, key)
  {
  }

  lemma AppendNew<V(!new)>(m: seq<Entry<V>>, e: Entry<V>)
    requires DistinctKeys(m)
    ensures !Holds(m, e.key) ==> DistinctKeys(m + [e])
  {
  }

  // ---- the table ----

  function Mult33(x: nat): nat { (x * 32 + x) % 0x1_0000_0000 }

  /** obus_hash_32: djb2 over the four key bytes, in 32-bit arithmetic. */
  function Hash32(key: u32): nat {
    var h0 := (Mult33(5381) + key % 0x100) % 0x1_0000_0000;
    var h1 := (Mult33(h0) + key / 0x100 % 0x100) % 0x1_0000_0000;
    var h2 := (Mult33(h1) + key / 0x1_0000 % 0x100) % 0x1_0000_0000;
    (Mult33(h2) + key / 0x100_0000) % 0x1_0000_0000
  }

  /** buckets: chains, newest first; entries: the list of all entries, oldest first. */
  datatype Table<V> = Table(buckets: seq<seq<Entry<V>>>, entries: seq<Entry<V>>)

  function Slot(n: nat, key: u32): (i: nat)
    requires n > 0
    ensures i < n
  {
    Hash32(key) % n
  }

  ghost predicate DistinctKeys<V>(s: seq<Entry<V>>) {
    forall i, j :: 0 <= i < j < |s| ==> s[i].key != s[j].key
  }

  /** Each chain holds exactly the listed entries that hash to it. */
  ghost predicate TableOk<V(!new)>(t: Table<V>) {
    |t.buckets| > 0 && DistinctKeys(t.entries) &&
    (forall b :: 0 <= b < |t.buckets| ==> ChainOk(t, b))
  }

  ghost predicate ChainOk<V(!new)>(t: Table<V>, b: nat)
    requires b < |t.buckets|
  {
    DistinctKeys(t.buckets[b]) &&
    forall e :: e in t.buckets[b] <==> e in t.entries && Slot(|t.buckets|, e.key) == b
  }

  function Chain<V>(t: Table<V>, key: u32): seq<Entry<V>>
    requires |t.buckets| > 0
  {
    t.buckets[Slot(|t.buckets|, key)]
  }

  function TableInsert<V>(t: Table<V>, e: Entry<V>): Table<V>
    requires |t.buckets| > 0
  {
    var c := Chain(t, e.key);
    if IndexOf(c, e.key) < |c| then t
    else Table(t.buckets[Slot(|t.buckets|, e.key) := [e] + c], t.entries + [e])
  }

  function TableRemove<V>(t: Table<V>, key: u32): Table<V>
    requires |t.buckets| > 0
  {
    var c := Chain(t, key);
    var i := IndexOf(c, key);
    if i == |c| then t
    else Table(t.buckets[Slot(|t.buckets|, key) := Cut(c, i)], Cut(t.entries, IndexOf(t.entries, key)))
  }

  function TableFind<V>(t: Table<V>, key: u32): Option<Entry<V>>
    requires |t.buckets| > 0
  {
    MapFind(Chain(t, key), key)
  }

  function TableDo<V>(t: Table<V>, op: Op<V>): (r: (Table<V>, Result<V>))
    requires |t.buckets| > 0
    ensures |r.0.buckets| == |t.buckets|
  {
    match op
    case Insert(e) => (TableInsert(t, e), if TableFind(t, e.key).Some? then Exists else Done)
    case Remove(k) => (TableRemove(t, k), if TableFind(t, k).Some? then Done else Missing)
    case Lookup(k) => (t, var f := TableFind(t, k); if f.Some? then Found(f.value) else Missing)
  }

  function TableRun<V>(t: Table<V>, ops: seq<Op<V>>): State<Table<V>, V>
    requires |t.buckets| > 0
    decreases |ops|
  {
    if ops == [] then State(t, [])
    else
      var r := TableDo(t, ops[0]);
      var u := TableRun(r.0, ops[1..]);
      u.(results := [r.1] + u.results)
  }

  // ---- refinement ----

  lemma FoundIn<V(!new)>(s: seq<Entry<V>>, e: Entry<V>)
    requires DistinctKeys(s) && e in s
    ensures MapFind(s, e.key) == Some(e)
  {
  }

  /** Searching one chain is searching all entries. */
  lemma FindAgrees<V(!new)>(t: Table<V>, key: u32)
    requires TableOk(t)
    ensures TableFind(t, key) == MapFind(t.entries, key)
  {
    var b := Slot(|t.buckets|, key);
    assert ChainOk(t, b);
    var f, g := TableFind(t, key), MapFind(t.entries, key);
    if f.Some? {
      assert f.value in t.buckets[b];
      FoundIn(t.entries, f.value);
    }
    if g.Some? {
      assert g.value in t.entries;
      FoundIn(t.buckets[b], g.value);
    }
  }

  lemma OtherChainsKept<V(!new)>(t: Table<V>, t': Table<V>, b: nat, key: u32)
    requires TableOk(t) && |t'.buckets| == |t.buckets| && b < |t.buckets| && b != Slot(|t.buckets|, key)
    requires t'.buckets[b] == t.buckets[b]
    requires forall e: Entry<V> :: e.key != key ==> (e in t'.entries <==> e in t.entries)
    ensures ChainOk(t', b)
  {
    assert ChainOk(t, b);
  }

  lemma AddedChain<V(!new)>(t: Table<V>, e: Entry<V>)
    requires TableOk(t) && TableFind(t, e.key).None?
    ensures ChainOk(TableInsert(t, e), Slot(|t.buckets|, e.key))
  {
    var b := Slot(|t.buckets|, e.key);
    var t' := TableInsert(t, e);
    assert ChainOk(t, b);
    var c := t.buckets[b];
    assert t'.buckets[b] == [e] + c;
    forall x
      ensures x in t'.buckets[b] <==> x in t'.entries && Slot(|t'.buckets|, x.key) == b
    {
      assert x in [e] + c <==> x == e || x in c;
      assert x in t.entries + [e] <==> x in t.entries || x == e;
    }
  }

  lemma InsertKeeps<V(!new)>(t: Table<V>, e: Entry<V>)
    requires TableOk(t)
    ensures TableOk(TableInsert(t, e))
    ensures TableInsert(t, e).entries == MapInsert(t.entries, e)
  {
    FindAgrees(t, e.key);
    var t' := TableInsert(t, e);
    if TableFind(t, e.key).None? {
      forall b | 0 <= b < |t'.buckets|
        ensures ChainOk(t', b)
      {
        if b == Slot(|t.buckets|, e.key) {
          AddedChain(t, e);
        } else {
          OtherChainsKept(t, t', b, e.key);
        }
      }
    }
  }

  /** Cutting out position i of entries with distinct keys. */
  lemma CutAt<V(!new)>(s: seq<Entry<V>>, i: nat)
    requires DistinctKeys(s) && i < |s|
    ensures DistinctKeys(Cut(s, i)) && forall e :: e in Cut(s, i) <==> e in s && e.key != s[i].key
  {
    var r := Cut(s, i);
    assert |r| == |s| - 1;
    assert forall a :: 0 <= a < i ==> r[a] == s[a];
    assert forall a :: i <= a < |r| ==> r[a] == s[a + 1];
    forall e | e in s && e.key != s[i].key
      ensures e in r
    {
      var j :| 0 <= j < |s| && s[j] == e;
      assert r[if j < i then j else j - 1] == e;
    }
  }

  lemma CutIn<V(!new)>(s: seq<Entry<V>>, key: u32)
    requires DistinctKeys(s)
    ensures var r := Cut(s, IndexOf(s, key));
            DistinctKeys(r) && forall e :: e in r <==> e in s && e.key != key
  {
    hide DistinctKeys, IndexOf;
    var i := IndexOf(s, key);
    if i < |s| {
      CutAt(s, i);
    }
  }

  lemma RemoveKeeps<V(!new)>(t: Table<V>, key: u32)
    requires TableOk(t)
    ensures TableOk(TableRemove(t, key))
    ensures TableRemove(t, key).entries == MapRemove(t.entries, key)
  {
    FindAgrees(t, key);
    var t' := TableRemove(t, key);
    var s := Slot(|t.buckets|, key);
    assert ChainOk(t, s);
    CutIn(t.entries, key);
    CutIn(t.buckets[s], key);
    if TableFind(t, key).Some? {
      forall b | 0 <= b < |t'.buckets|
        ensures ChainOk(t', b)
      {
        if b != s {
          OtherChainsKept(t, t', b, key);
        }
      }
    }
  }

  lemma DoRefines<V(!new)>(t: Table<V>, op: Op<V>)
    requires TableOk(t)
    ensures var r := TableDo(t, op);
            TableOk(r.0) && MapDo(t.entries, op) == (r.0.entries, r.1)
  {
    hide TableOk, TableInsert, TableRemove, TableFind, MapInsert, MapRemove, MapFind;
    match op
    case Insert(e) => InsertKeeps(t, e); FindAgrees(t, e.key);
    case Remove(k) => RemoveKeeps(t, k); FindAgrees(t, k);
    case Lookup(k) => FindAgrees(t, k);
  }

  /** Under every sequence of operations the table answers as the plain map does, and its entry
      list is the map's content in insertion order. */
  lemma {:induction false} Refines<V(!new)>(t: Table<V>, ops: seq<Op<V>>)
    requires TableOk(t)
    ensures var r := TableRun(t, ops);
            TableOk(r.s) && State(r.s.entries, r.results) == MapRun(t.entries, ops)
    decreases |ops|
  {
    hide TableDo, MapDo, TableOk;
    assert |t.buckets| > 0 by {
      HasBuckets(t);
    }
    if ops != [] {
      DoRefines(t, ops[0]);
      Refines(TableDo(t, ops[0]).0, ops[1..]);
    }
  }

  lemma HasBuckets<V(!new)>(t: Table<V>)
    requires TableOk(t)
    ensures |t.buckets| > 0
  {
  }

  // ---- tables as the constructor makes them ----

  const PRIMES: seq<u32> := [
    1, 2, 3, 7, 13, 31, 61, 127, 251, 509, 1021, 2039, 4093, 8191, 16381, 32749, 65521, 131071,
    262139, 524287, 1048573, 2097143, 4194301, 8388593, 16777213, 33554393, 67108859, 134217689,
    268435399, 536870909, 1073741789, 2147483647]

  /** The first tabulated prime above the wanted size from position i on, or the last one. */
  function PrimeAbove(size: nat, i: nat): (n: nat)
    requires i < |PRIMES|
    ensures n > 0
    decreases |PRIMES| - i
  {
    if PRIMES[i] <= size && i + 1 < |PRIMES| then PrimeAbove(size, i + 1) else PRIMES[i]
  }

  function NewTable<V>(size: nat): Table<V> { Table(seq(PrimeAbove(size, 0), i => []), []) }

  lemma NewTableOk<V(!new)>(size: nat)
    ensures TableOk(NewTable<V>(size))
  {
  }

  lemma {:induction false} RunKeepsBuckets<V(!new)>(t: Table<V>, ops: seq<Op<V>>)
    requires |t.buckets| > 0
    ensures |TableRun(t, ops).s.buckets| == |t.buckets|
    decreases |ops|
  {
    if ops != [] {
      RunKeepsBuckets(TableDo(t, ops[0]).0, ops[1..]);
    }
  }

  /** A table created for any size, zero included, and then used in any way: it always has the
      number of buckets it was created with, which is never zero, and answers as a plain map that
      started empty. */
  lemma EveryTableRefines<V(!new)>(size: nat, ops: seq<Op<V>>)
    ensures var r := TableRun(NewTable<V>(size), ops);
            |r.s.buckets| == PrimeAbove(size, 0) > 0 && State(r.s.entries, r.results) == MapRun([], ops)
  {
    hide TableRun, MapRun, TableOk;
    NewTableOk<V>(size);
    RunKeepsBuckets(NewTable<V>(size), ops);
    Refines(NewTable<V>(size), ops);
  }

  // ---- the table as the object the code mutates ----

  class Hash<V(!new)> {
    var buckets: seq<seq<Entry<V>>>
    var entries: seq<Entry<V>>

    ghost function Value(): Table<V>
      reads this
    {
      Table(buckets, entries)
    }

    ghost predicate Valid()
      reads this
    {
      TableOk(Value())
    }

    /** Bucket count: the smallest tabulated prime above the wanted size, or the largest of all. */
    static method BucketCount(size: nat) returns (n: nat)
      ensures n == PrimeAbove(size, 0) && n in PRIMES
      ensures n > size || n == PRIMES[|PRIMES| - 1]
      ensures forall p :: p in PRIMES && p > size ==> n <= p
    {
      var i := 0;
      while PRIMES[i] <= size && i + 1 < |PRIMES|
        invariant 0 <= i < |PRIMES| && PrimeAbove(size, i) == PrimeAbove(size, 0)
        invariant forall j :: 0 <= j < i ==> PRIMES[j] <= size
        decreases |PRIMES| - i
      {
        i := i + 1;
      }
      n := PRIMES[i];
      SmallestAbove(size, i);
    }

    constructor (size: nat)
      ensures Valid() && Value() == NewTable(size)
    {
      NewTableOk<V>(size);
      var n := BucketCount(size);
      buckets, entries := seq(n, i => []), [];
    }

    /** Walks a chain for a key. */
    method Seek(key: u32) returns (slot: nat, i: nat)
      requires |buckets| > 0
      ensures slot == Slot(|buckets|, key) && i == IndexOf(buckets[slot], key)
    {
      slot := Hash32(key) % |buckets|;
      i := 0;
      while i < |buckets[slot]| && buckets[slot][i].key != key
        invariant 0 <= i <= |buckets[slot]|
        invariant i + IndexOf(buckets[slot][i..], key) == IndexOf(buckets[slot], key)
      {
        assert buckets[slot][i..][0] == buckets[slot][i];
        assert buckets[slot][i..][1..] == buckets[slot][i + 1..];
        i := i + 1;
      }
    }

    /** false: the key is taken and nothing changed. */
    method Insert(key: u32, data: V, isConst: bool) returns (ok: bool)
      requires Valid()
      modifies this
      ensures Valid() && ok == MapFind(old(entries), key).None?
      ensures Value() == TableInsert(old(Value()), Entry(key, data, isConst))
      ensures entries == MapInsert(old(entries), Entry(key, data, isConst))
      ensures ok <==> !Holds(old(entries), key)
      ensures entries == if ok then old(entries) + [Entry(key, data, isConst)] else old(entries)
    {
      InsertKeeps(Value(), Entry(key, data, isConst));
      FindAgrees(Value(), key);
      var slot, i := Seek(key);
      ok := i == |buckets[slot]|;
      if ok {
        var e := Entry(key, data, isConst);
        buckets := buckets[slot := [e] + buckets[slot]];
        entries := entries + [e];
      }
    }

    /** obus_hash_lookup: constant entries are refused. */
    method Lookup(key: u32) returns (r: Option<V>)
      requires Valid()
      ensures var f := MapFind(entries, key);
              r == if f.Some? && !f.value.isConst then Some(f.value.data) else None
      ensures r.Some? <==> exists i :: 0 <= i < |entries| && entries[i].key == key && !entries[i].isConst
      ensures forall i :: 0 <= i < |entries| && entries[i].key == key && !entries[i].isConst ==> r == Some(entries[i].data)
    {
      FindAgrees(Value(), key);
      var slot, i := Seek(key);
      if i == |buckets[slot]| || buckets[slot][i].isConst {
        return None;
      }
      return Some(buckets[slot][i].data);
    }

    method Remove(key: u32) returns (ok: bool)
      requires Valid()
      modifies this
      ensures Valid() && ok == MapFind(old(entries), key).Some?
      ensures Value() == TableRemove(old(Value()), key)
      ensures entries == MapRemove(old(entries), key)
      ensures ok <==> Holds(old(entries), key)
      ensures forall e :: e in entries <==> e in old(entries) && e.key != key
    {
      CutIn(entries, key);
      RemoveKeeps(Value(), key);
      FindAgrees(Value(), key);
      var slot, i := Seek(key);
      ok := i < |buckets[slot]|;
      if ok {
        buckets := buckets[slot := buckets[slot][..i] + buckets[slot][i + 1..]];
        var j := IndexOf(entries, key);
        entries := entries[..j] + entries[j + 1..];
      }
    }
  }

  lemma SmallestAbove(size: nat, i: nat)
    requires i < |PRIMES| && forall j :: 0 <= j < i ==> PRIMES[j] <= size
    ensures forall p :: p in PRIMES && p > size ==> PRIMES[i] <= p
  {
    PrimesIncrease();
    forall p | p in PRIMES && p > size
      ensures PRIMES[i] <= p
    {
      var j :| 0 <= j < |PRIMES| && PRIMES[j] == p;
      assert i <= j;
    }
  }

  lemma PrimesIncrease()
    ensures forall i, j :: 0 <= i < j < |PRIMES| ==> PRIMES[i] < PRIMES[j]
  {
    var steps := forall i :: 0 <= i < |PRIMES| - 1 ==> PRIMES[i] < PRIMES[i + 1];
    assert steps;
    forall i, j | 0 <= i < j < |PRIMES|
      ensures PRIMES[i] < PRIMES[j]
    {
      StepsAddUp(PRIMES, i, j);
    }
  }

  lemma {:induction false} StepsAddUp(s: seq<u32>, i: nat, j: nat)
    requires i < j < |s| && forall k :: 0 <= k < |s| - 1 ==> s[k] < s[k + 1]
    ensures s[i] < s[j]
    decreases j - i
  {
    assert s[j - 1] < s[j - 1 + 1];
    if i < j - 1 {
      StepsAddUp(s, i, j - 1);
    }
  }
}
