/** A client's replica of the bus, the packets a server sends, and what each packet
    does to the replica. */
module Bus {
  import opened Values
  import opened Lists

  type Handle = u16

  const INVALID_HANDLE: Handle := 0
  const INVALID_UID: u16 := 0

  datatype Obj = Obj(uid: u16, info: Struct)

  /** The registered objects: list order and content by handle. */
  datatype Objects = Objects(order: seq<Handle>, at: map<Handle, Obj>)

  const NO_OBJECTS := Objects([], map[])

  datatype Item = Item(handle: Handle, uid: u16, info: Struct)
  datatype Ref = Ref(handle: Handle, uid: u16)
  datatype Event = Event(handle: Handle, uid: u16, event: u16, info: Struct)

  datatype Status =
    | InvalidStatus | Acked | Aborted | MethodDisabled | MethodNotSupported | InvalidArguments | Refused

  /** Packets from server to client. */
  datatype Down =
    | ConResp(accepted: bool, snapshot: seq<Item>)
    | AddPkt(item: Item)
    | RemovePkt(ref: Ref)
    | EventPkt(event: Event)
    | BusEventPkt(uid: u16, adds: seq<Item>, removes: seq<Ref>, events: seq<Event>)
    | AckPkt(call: Handle, status: Status)

  datatype Phase = Connecting | Connected | ConnectionRefused | Closed

  /** The part of a client that server packets act on. */
  datatype View = View(phase: Phase, bus: Objects)

  // ---- effect of one item, following obus_client.c ----

  /** obus_client_add_object: an object whose handle is taken is thrown away, and the
      decoder drops one with an invalid uid or handle. */
  function Add(b: Objects, it: Item): Objects {
    if it.handle == INVALID_HANDLE || it.uid == INVALID_UID || it.handle in b.at then b
    else Objects(b.order + [it.handle], b.at[it.handle := Obj(it.uid, WireStruct(it.info))])
  }

  function Remove(b: Objects, h: Handle): Objects {
    Objects(Without(b.order, h), b.at - {h})
  }

  /** The decoder only delivers an event on a held object of the announced type. */
  predicate Held(b: Objects, h: Handle, uid: u16) {
    h in b.at && b.at[h].uid == uid
  }

  function Update(b: Objects, e: Event): Objects {
    if Held(b, e.handle, e.uid)
    then b.(at := b.at[e.handle := Obj(e.uid, Merge(b.at[e.handle].info, WireStruct(e.info)))])
    else b
  }

  function AddAll(b: Objects, items: seq<Item>): Objects
    decreases |items|
  {
    if items == [] then b else AddAll(Add(b, items[0]), items[1..])
  }

  function UpdateAll(b: Objects, events: seq<Event>): Objects
    decreases |events|
  {
    if events == [] then b else UpdateAll(Update(b, events[0]), events[1..])
  }

  function RemoveAll(b: Objects, refs: seq<Ref>): Objects
    decreases |refs|
  {
    if refs == [] then b else RemoveAll(Remove(b, refs[0].handle), refs[1..])
  }

  /** Handles inside a bus event are looked up while it is decoded, so against the bus
      as it is before the event's own additions are committed. */
  function ResolveEvents(b: Objects, events: seq<Event>): seq<Event> {
    if events == [] then []
    else (if Held(b, events[0].handle, events[0].uid) then [events[0]] else []) + ResolveEvents(b, events[1..])
  }

  function ResolveRefs(b: Objects, refs: seq<Ref>): seq<Ref> {
    if refs == [] then []
    else (if refs[0].handle in b.at then [refs[0]] else []) + ResolveRefs(b, refs[1..])
  }

  /** obus_bus_event_decode, then obus_client_commit_bus_event. */
  function CommitBusEvent(b: Objects, adds: seq<Item>, removes: seq<Ref>, events: seq<Event>): Objects {
    RemoveAll(UpdateAll(AddAll(b, adds), ResolveEvents(b, events)), ResolveRefs(b, removes))
  }

  function Apply(v: View, p: Down): View {
    match p
    case ConResp(accepted, snapshot) =>
      if v.phase != Connecting then v
      else if !accepted then v.(phase := ConnectionRefused)
      else View(Connected, AddAll(v.bus, snapshot))
    case AddPkt(it) => v.(bus := Add(v.bus, it))
    case RemovePkt(r) => v.(bus := Remove(v.bus, r.handle))
    case EventPkt(e) => v.(bus := Update(v.bus, e))
    case BusEventPkt(_, adds, removes, events) => v.(bus := CommitBusEvent(v.bus, adds, removes, events))
    case AckPkt(_, _) => v
  }

  // ---- when a packet does what it announces ----

  ghost predicate FreshItem(b: Objects, it: Item) {
    it.handle != INVALID_HANDLE && it.uid != INVALID_UID && it.handle !in b.at
  }

  ghost predicate FreshItems(b: Objects, items: seq<Item>) {
    (forall i :: 0 <= i < |items| ==> FreshItem(b, items[i])) &&
    (forall i, j :: 0 <= i < j < |items| ==> items[i].handle != items[j].handle)
  }

  ghost predicate HeldRefs(b: Objects, refs: seq<Ref>) {
    (forall i :: 0 <= i < |refs| ==> Held(b, refs[i].handle, refs[i].uid)) &&
    (forall i, j :: 0 <= i < j < |refs| ==> refs[i].handle != refs[j].handle)
  }

  ghost predicate HeldEvents(b: Objects, events: seq<Event>) {
    forall i :: 0 <= i < |events| ==> Held(b, events[i].handle, events[i].uid)
  }

  /** The packet names held objects of the right type, or handles that are free: neither
      the duplicate-key branch nor the unchecked remove result is reached. */
  ghost predicate Applicable(v: View, p: Down) {
    match p
    case ConResp(accepted, snapshot) => v.phase == Connecting && FreshItems(v.bus, snapshot)
    case AddPkt(it) => v.phase == Connected && FreshItem(v.bus, it)
    case RemovePkt(r) => v.phase == Connected && Held(v.bus, r.handle, r.uid)
    case EventPkt(e) => v.phase == Connected && Held(v.bus, e.handle, e.uid)
    case BusEventPkt(_, adds, removes, events) =>
      v.phase == Connected && FreshItems(v.bus, adds) && HeldRefs(v.bus, removes) && HeldEvents(v.bus, events)
    case AckPkt(_, _) => true
  }

  function Replay(v: View, ps: seq<Down>): View
    decreases |ps|
  {
    if ps == [] then v else Replay(Apply(v, ps[0]), ps[1..])
  }

  ghost predicate ReplayOk(v: View, ps: seq<Down>)
    decreases |ps|
  {
    ps == [] || (Applicable(v, ps[0]) && ReplayOk(Apply(v, ps[0]), ps[1..]))
  }

  lemma {:induction false} ReplayAppend(v: View, ps: seq<Down>, p: Down)
    ensures Replay(v, ps + [p]) == Apply(Replay(v, ps), p)
    ensures ReplayOk(v, ps + [p]) <==> ReplayOk(v, ps) && Applicable(Replay(v, ps), p)
    decreases |ps|
  {
    if ps == [] {
      assert [p][1..] == [];
    } else {
      assert (ps + [p])[1..] == ps[1..] + [p];
      ReplayAppend(Apply(v, ps[0]), ps[1..], p);
    }
  }

  // ---- a bus event is its parts, one by one ----

  lemma {:induction false} ResolveHeld(b: Objects, events: seq<Event>)
    requires HeldEvents(b, events)
    ensures ResolveEvents(b, events) == events
  {
    if events != [] {
      ResolveHeld(b, events[1..]);
    }
  }

  lemma {:induction false} ResolveHeldRefs(b: Objects, refs: seq<Ref>)
    requires HeldRefs(b, refs)
    ensures ResolveRefs(b, refs) == refs
  {
    if refs != [] {
      ResolveHeldRefs(b, refs[1..]);
    }
  }

  function AddPkts(items: seq<Item>): seq<Down> { seq(|items|, i requires 0 <= i < |items| => AddPkt(items[i])) }
  function RemovePkts(refs: seq<Ref>): seq<Down> { seq(|refs|, i requires 0 <= i < |refs| => RemovePkt(refs[i])) }
  function EventPkts(es: seq<Event>): seq<Down> { seq(|es|, i requires 0 <= i < |es| => EventPkt(es[i])) }

  lemma {:induction false} ReplayConcat(v: View, ps: seq<Down>, qs: seq<Down>)
    ensures Replay(v, ps + qs) == Replay(Replay(v, ps), qs)
    ensures ReplayOk(v, ps + qs) <==> ReplayOk(v, ps) && ReplayOk(Replay(v, ps), qs)
    decreases |ps|
  {
    if ps == [] {
      assert ps + qs == qs;
    } else {
      assert (ps + qs)[1..] == ps[1..] + qs;
      ReplayConcat(Apply(v, ps[0]), ps[1..], qs);
    }
  }

  lemma {:induction false} ReplayAdds(v: View, items: seq<Item>)
    requires v.phase == Connected && FreshItems(v.bus, items)
    ensures ReplayOk(v, AddPkts(items))
    ensures Replay(v, AddPkts(items)) == v.(bus := AddAll(v.bus, items))
    decreases |items|
  {
    if items != [] {
      assert AddPkts(items)[1..] == AddPkts(items[1..]);
      ReplayAdds(Apply(v, AddPkt(items[0])), items[1..]);
    }
  }

  lemma {:induction false} ReplayEvents(v: View, es: seq<Event>)
    requires v.phase == Connected && HeldEvents(v.bus, es)
    ensures ReplayOk(v, EventPkts(es))
    ensures Replay(v, EventPkts(es)) == v.(bus := UpdateAll(v.bus, es))
    decreases |es|
  {
    if es != [] {
      assert EventPkts(es)[1..] == EventPkts(es[1..]);
      ReplayEvents(Apply(v, EventPkt(es[0])), es[1..]);
    }
  }

  lemma {:induction false} ReplayRemoves(v: View, refs: seq<Ref>)
    requires v.phase == Connected && HeldRefs(v.bus, refs)
    ensures ReplayOk(v, RemovePkts(refs))
    ensures Replay(v, RemovePkts(refs)) == v.(bus := RemoveAll(v.bus, refs))
    decreases |refs|
  {
    if refs != [] {
      assert RemovePkts(refs)[1..] == RemovePkts(refs[1..]);
      ReplayRemoves(Apply(v, RemovePkt(refs[0])), refs[1..]);
    }
  }

  lemma {:induction false} AddAllKeeps(b: Objects, items: seq<Item>, h: Handle)
    requires h in b.at
    ensures h in AddAll(b, items).at && AddAll(b, items).at[h] == b.at[h]
    decreases |items|
  {
    if items != [] {
      AddAllKeeps(Add(b, items[0]), items[1..], h);
    }
  }

  lemma {:induction false} UpdateAllKeepsTypes(b: Objects, es: seq<Event>, h: Handle)
    requires h in b.at
    ensures h in UpdateAll(b, es).at && UpdateAll(b, es).at[h].uid == b.at[h].uid
    decreases |es|
  {
    if es != [] {
      UpdateAllKeepsTypes(Update(b, es[0]), es[1..], h);
    }
  }

  /** An applicable bus event has the effect of its adds, then its events, then its
      removes sent as single packets, although its handles are resolved before the adds. */
  lemma BusEventIsSequence(v: View, uid: u16, adds: seq<Item>, removes: seq<Ref>, events: seq<Event>)
    requires Applicable(v, BusEventPkt(uid, adds, removes, events))
    ensures ReplayOk(v, AddPkts(adds) + EventPkts(events) + RemovePkts(removes))
    ensures Replay(v, AddPkts(adds) + EventPkts(events) + RemovePkts(removes))
         == Apply(v, BusEventPkt(uid, adds, removes, events))
  {
    var v1 := v.(bus := AddAll(v.bus, adds));
    var v2 := v1.(bus := UpdateAll(v1.bus, events));
    ResolveHeld(v.bus, events);
    ResolveHeldRefs(v.bus, removes);
    ReplayAdds(v, adds);
    forall i | 0 <= i < |events|
      ensures Held(v1.bus, events[i].handle, events[i].uid)
    {
      AddAllKeeps(v.bus, adds, events[i].handle);
    }
    ReplayEvents(v1, events);
    forall i | 0 <= i < |removes|
      ensures Held(v2.bus, removes[i].handle, removes[i].uid)
    {
      AddAllKeeps(v.bus, adds, removes[i].handle);
      UpdateAllKeepsTypes(v1.bus, events, removes[i].handle);
    }
    ReplayRemoves(v2, removes);
    ReplayConcat(v, AddPkts(adds), EventPkts(events));
    ReplayConcat(v, AddPkts(adds) + EventPkts(events), RemovePkts(removes));
  }

  // ---- an object only disappears through a removal ----

  ghost predicate RemovesHandle(p: Down, h: Handle) {
    (p.RemovePkt? && p.ref.handle == h) ||
    (p.BusEventPkt? && exists i :: 0 <= i < |p.removes| && p.removes[i].handle == h)
  }

  ghost predicate RemovedIn(ps: seq<Down>, h: Handle) {
    exists i :: 0 <= i < |ps| && RemovesHandle(ps[i], h)
  }

  lemma {:induction false} RemoveAllKeeps(b: Objects, refs: seq<Ref>, h: Handle)
    requires h in b.at && forall i :: 0 <= i < |refs| ==> refs[i].handle != h
    ensures h in RemoveAll(b, refs).at && RemoveAll(b, refs).at[h] == b.at[h]
    decreases |refs|
  {
    if refs != [] {
      RemoveAllKeeps(Remove(b, refs[0].handle), refs[1..], h);
    }
  }

  lemma ApplyKeeps(v: View, p: Down, h: Handle)
    requires v.phase == Connected && Applicable(v, p)
    requires h in v.bus.at && !RemovesHandle(p, h)
    ensures Apply(v, p).phase == Connected
    ensures h in Apply(v, p).bus.at && Apply(v, p).bus.at[h].uid == v.bus.at[h].uid
  {
    if p.BusEventPkt? {
      ResolveHeldRefs(v.bus, p.removes);
      var b1 := AddAll(v.bus, p.adds);
      var b2 := UpdateAll(b1, ResolveEvents(v.bus, p.events));
      AddAllKeeps(v.bus, p.adds, h);
      UpdateAllKeepsTypes(b1, ResolveEvents(v.bus, p.events), h);
      RemoveAllKeeps(b2, p.removes, h);
    }
  }

  lemma {:induction false} LostOnlyByRemoval(v: View, ps: seq<Down>, h: Handle)
    requires v.phase == Connected && ReplayOk(v, ps) && h in v.bus.at
    requires !Held(Replay(v, ps).bus, h, v.bus.at[h].uid)
    ensures RemovedIn(ps, h)
    decreases |ps|
  {
    if !RemovesHandle(ps[0], h) {
      ApplyKeeps(v, ps[0], h);
      LostOnlyByRemoval(Apply(v, ps[0]), ps[1..], h);
      var i :| 0 <= i < |ps[1..]| && RemovesHandle(ps[1..][i], h);
      assert RemovesHandle(ps[i + 1], h);
    }
  }
}
