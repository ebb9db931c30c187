/** The server's objects: those in the handle table and the list of registered ones, with
    the local effect of each server call; and why broadcasting the matching packet keeps a
    replica equal to the registered list. */
module ObjectStore {
  import opened Values
  import opened Lists
  import opened Bus

  /** objs: the handle table, registered or not; reg: the registered list, oldest first. */
  datatype Store = Store(objs: map<Handle, Obj>, reg: seq<Handle>)

  ghost predicate StoreOk(st: Store) {
    NoDup(st.reg) &&
    (forall h :: h in st.reg ==> h in st.objs) &&
    (forall h :: h in st.objs ==> h != INVALID_HANDLE && st.objs[h].uid != INVALID_UID && Normal(st.objs[h].info))
  }

  /** What every connected client should hold. */
  function Registered(st: Store): Objects {
    Objects(st.reg, map h | h in st.reg && h in st.objs :: st.objs[h])
  }

  function ItemOf(st: Store, h: Handle): Item
    requires h in st.objs
  {
    Item(h, st.objs[h].uid, st.objs[h].info)
  }

  function RefOf(st: Store, h: Handle): Ref
    requires h in st.objs
  {
    Ref(h, st.objs[h].uid)
  }

  function ItemsOf(st: Store, hs: seq<Handle>): (r: seq<Item>)
    requires forall h :: h in hs ==> h in st.objs
  {
    seq(|hs|, i requires 0 <= i < |hs| => ItemOf(st, hs[i]))
  }

  function RefsOf(st: Store, hs: seq<Handle>): (r: seq<Ref>)
    requires forall h :: h in hs ==> h in st.objs
  {
    seq(|hs|, i requires 0 <= i < |hs| => RefOf(st, hs[i]))
  }

  // ---- single operations ----

  function Enlist(st: Store, h: Handle): Store { st.(reg := st.reg + [h]) }

  function Delist(st: Store, h: Handle): Store { st.(reg := Without(st.reg, h)) }

  /** obus_event_commit on the server's own object. */
  function Commit(st: Store, e: Event): Store
    requires e.handle in st.objs
  {
    st.(objs := st.objs[e.handle := Obj(st.objs[e.handle].uid, Merge(st.objs[e.handle].info, e.info))])
  }

  lemma EnlistMatches(st: Store, h: Handle)
    requires StoreOk(st) && h in st.objs && h !in st.reg
    ensures StoreOk(Enlist(st, h))
    ensures FreshItem(Registered(st), ItemOf(st, h))
    ensures Add(Registered(st), ItemOf(st, h)) == Registered(Enlist(st, h))
  {
    CopyForgetsWire(st.objs[h].info);
    assert Add(Registered(st), ItemOf(st, h)).at == Registered(Enlist(st, h)).at;
  }

  lemma DelistMatches(st: Store, h: Handle)
    requires StoreOk(st) && h in st.reg
    ensures StoreOk(Delist(st, h))
    ensures Held(Registered(st), h, st.objs[h].uid)
    ensures Remove(Registered(st), h) == Registered(Delist(st, h))
  {
    WithoutNoDup(st.reg, h);
    assert Remove(Registered(st), h).at == Registered(Delist(st, h)).at;
  }

  lemma CommitOk(st: Store, e: Event)
    requires StoreOk(st) && e.handle in st.objs
    ensures StoreOk(Commit(st, e))
  {
    MergeKeepsNormal(st.objs[e.handle].info, e.info);
  }

  lemma CommitMatches(st: Store, e: Event)
    requires StoreOk(st) && e.handle in st.reg && e.uid == st.objs[e.handle].uid
    ensures Held(Registered(st), e.handle, e.uid)
    ensures Update(Registered(st), e) == Registered(Commit(st, e))
  {
    CopyForgetsWire(e.info);
    assert Update(Registered(st), e).at == Registered(Commit(st, e)).at;
  }

  // ---- a whole bus event ----

  function EnlistAll(st: Store, hs: seq<Handle>): Store { st.(reg := st.reg + hs) }

  function CommitAll(st: Store, es: seq<Event>): Store
    decreases |es|
  {
    if es == [] then st
    else if es[0].handle in st.objs then CommitAll(Commit(st, es[0]), es[1..])
    else CommitAll(st, es[1..])
  }

  function DelistAll(st: Store, hs: seq<Handle>): Store
    decreases |hs|
  {
    if hs == [] then st else DelistAll(Delist(st, hs[0]), hs[1..])
  }

  ghost predicate EventsFit(st: Store, es: seq<Event>) {
    forall i :: 0 <= i < |es| ==> es[i].handle in st.reg && es[i].handle in st.objs && es[i].uid == st.objs[es[i].handle].uid
  }

  lemma ItemsAreFresh(st: Store, hs: seq<Handle>)
    requires StoreOk(st) && NoDup(hs)
    requires forall h :: h in hs ==> h in st.objs && h !in st.reg
    ensures FreshItems(Registered(st), ItemsOf(st, hs))
  {
    forall i | 0 <= i < |hs|
      ensures FreshItem(Registered(st), ItemsOf(st, hs)[i])
    {
      assert hs[i] in hs;
    }
  }

  lemma RestStaysOut(st: Store, hs: seq<Handle>)
    requires NoDup(hs) && hs != []
    requires forall h :: h in hs ==> h in st.objs && h !in st.reg
    ensures NoDup(hs[1..])
    ensures forall h :: h in hs[1..] ==> h in st.objs && h !in Enlist(st, hs[0]).reg
  {
  }

  lemma EnlistAllOk(st: Store, hs: seq<Handle>)
    requires StoreOk(st) && NoDup(hs)
    requires forall h :: h in hs ==> h in st.objs && h !in st.reg
    ensures StoreOk(EnlistAll(st, hs))
  {
    NoDupConcat(st.reg, hs);
  }

  lemma EnlistFirst(st: Store, hs: seq<Handle>)
    requires StoreOk(st) && hs != []
    requires forall h :: h in hs ==> h in st.objs && h !in st.reg
    ensures AddAll(Registered(st), ItemsOf(st, hs))
         == AddAll(Registered(Enlist(st, hs[0])), ItemsOf(Enlist(st, hs[0]), hs[1..]))
    ensures EnlistAll(Enlist(st, hs[0]), hs[1..]) == EnlistAll(st, hs)
  {
    EnlistMatches(st, hs[0]);
    var st1 := Enlist(st, hs[0]);
    assert ItemsOf(st, hs)[1..] == ItemsOf(st1, hs[1..]);
    assert st1.reg + hs[1..] == st.reg + hs;
  }

  lemma {:induction false} EnlistAllMatches(st: Store, hs: seq<Handle>)
    requires StoreOk(st) && NoDup(hs)
    requires forall h :: h in hs ==> h in st.objs && h !in st.reg
    ensures AddAll(Registered(st), ItemsOf(st, hs)) == Registered(EnlistAll(st, hs))
    decreases |hs|
  {
    if hs == [] {
      assert st.reg + hs == st.reg;
    } else {
      EnlistFirst(st, hs);
      RestStaysOut(st, hs);
      EnlistAllOk(st, [hs[0]]);
      EnlistAllMatches(Enlist(st, hs[0]), hs[1..]);
    }
  }

  lemma {:induction false} CommitAllMatches(st: Store, es: seq<Event>)
    requires StoreOk(st) && EventsFit(st, es)
    ensures StoreOk(CommitAll(st, es)) && CommitAll(st, es).reg == st.reg
    ensures CommitAll(st, es).objs.Keys == st.objs.Keys
    ensures forall h :: h in st.objs ==> CommitAll(st, es).objs[h].uid == st.objs[h].uid
    ensures HeldEvents(Registered(st), es)
    ensures UpdateAll(Registered(st), es) == Registered(CommitAll(st, es))
    decreases |es|
  {
    if es != [] {
      CommitOk(st, es[0]);
      CommitMatches(st, es[0]);
      CommitAllMatches(Commit(st, es[0]), es[1..]);
    }
  }

  lemma RefsAreHeld(st: Store, hs: seq<Handle>)
    requires StoreOk(st) && NoDup(hs)
    requires forall h :: h in hs ==> h in st.reg
    ensures HeldRefs(Registered(st), RefsOf(st, hs))
  {
    forall i | 0 <= i < |hs|
      ensures Held(Registered(st), hs[i], st.objs[hs[i]].uid)
    {
      assert hs[i] in hs;
    }
  }

  lemma RestStaysIn(st: Store, hs: seq<Handle>)
    requires NoDup(hs) && hs != []
    requires forall h :: h in hs ==> h in st.reg
    ensures NoDup(hs[1..])
    ensures forall h :: h in hs[1..] ==> h in Delist(st, hs[0]).reg
  {
  }

  lemma {:induction false} DelistAllMatches(st: Store, hs: seq<Handle>)
    requires StoreOk(st) && NoDup(hs)
    requires forall h :: h in hs ==> h in st.reg
    ensures StoreOk(DelistAll(st, hs)) && DelistAll(st, hs).objs == st.objs
    ensures RemoveAll(Registered(st), RefsOf(st, hs)) == Registered(DelistAll(st, hs))
    decreases |hs|
  {
    if hs != [] {
      DelistMatches(st, hs[0]);
      var st1 := Delist(st, hs[0]);
      RestStaysIn(st, hs);
      DelistAllMatches(st1, hs[1..]);
      assert RefsOf(st, hs)[1..] == RefsOf(st1, hs[1..]);
    }
  }

  /** Local effect of a bus event on the server. */
  function CommitBusEventAt(st: Store, adds: seq<Handle>, removes: seq<Handle>, events: seq<Event>): Store {
    DelistAll(CommitAll(EnlistAll(st, adds), events), removes)
  }

  /** What obus_server_check_bus_event and the assembly of the event (an object is attached
      at most once) guarantee. */
  ghost predicate BusEventFits(st: Store, adds: seq<Handle>, removes: seq<Handle>, events: seq<Event>) {
    NoDup(adds) && NoDup(removes) &&
    (forall h :: h in adds ==> h in st.objs && h !in st.reg) &&
    (forall h :: h in removes ==> h in st.reg && h in st.objs) &&
    EventsFit(st, events)
  }

  lemma BusEventApplies(st: Store, uid: u16, adds: seq<Handle>, removes: seq<Handle>, events: seq<Event>)
    requires StoreOk(st) && BusEventFits(st, adds, removes, events)
    ensures Applicable(View(Connected, Registered(st)), BusEventPkt(uid, ItemsOf(st, adds), RefsOf(st, removes), events))
  {
    ItemsAreFresh(st, adds);
    RefsAreHeld(st, removes);
    var b := Registered(st);
    forall i | 0 <= i < |events|
      ensures Held(b, events[i].handle, events[i].uid)
    {
    }
  }

  lemma BusEventMatches(st: Store, uid: u16, adds: seq<Handle>, removes: seq<Handle>, events: seq<Event>)
    requires StoreOk(st) && BusEventFits(st, adds, removes, events)
    ensures StoreOk(CommitBusEventAt(st, adds, removes, events))
    ensures Apply(View(Connected, Registered(st)), BusEventPkt(uid, ItemsOf(st, adds), RefsOf(st, removes), events))
         == View(Connected, Registered(CommitBusEventAt(st, adds, removes, events)))
  {
    hide StoreOk, NoDup, Registered, AddAll, UpdateAll, RemoveAll, CommitAll, DelistAll, ItemsOf, RefsOf, ResolveEvents, ResolveRefs;
    var st1 := EnlistAll(st, adds);
    var st2 := CommitAll(st1, events);
    EnlistAllOk(st, adds);
    EnlistAllMatches(st, adds);
    CommitAllMatches(st1, events);
    DelistAllMatches(st2, removes);
    SameRefs(st, st2, removes);
    BusEventApplies(st, uid, adds, removes, events);
    ResolveHeld(Registered(st), events);
    ResolveHeldRefs(Registered(st), RefsOf(st, removes));
  }

  lemma SameRefs(st: Store, st': Store, hs: seq<Handle>)
    requires forall h :: h in hs ==> h in st.objs && h in st'.objs && st'.objs[h].uid == st.objs[h].uid
    ensures RefsOf(st', hs) == RefsOf(st, hs)
  {
  }

  // ---- the snapshot sent to a new peer ----

  /** Replaying the snapshot into an empty replica gives the registered objects. */
  lemma SnapshotMatches(st: Store)
    requires StoreOk(st)
    ensures FreshItems(NO_OBJECTS, ItemsOf(st, st.reg))
    ensures AddAll(NO_OBJECTS, ItemsOf(st, st.reg)) == Registered(st)
  {
    hide AddAll, FreshItems;
    var empty := st.(reg := []);
    ItemsAreFresh(empty, st.reg);
    EnlistAllMatches(empty, st.reg);
    assert Registered(empty) == NO_OBJECTS;
    assert EnlistAll(empty, st.reg) == st;
    assert ItemsOf(empty, st.reg) == ItemsOf(st, st.reg);
  }
}
