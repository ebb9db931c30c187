/** The generated C types, as an invariant of runs: the application fills structs whose fields
    have the types of their descriptors, so every packet in flight fits its schema. */
module Typed {
  import opened Values
  import opened Lists
  import opened Codec
  import opened Bus
  import opened ObjectStore
  import opened ServerSpec
  import opened Runs
  import opened Packets

  /** A struct of the type the schema gives this object type. */
  ghost predicate TypedInfo(api: Api, uid: u16, info: Struct) {
    uid in api.objects && DescOk(api.objects[uid]) && FitsStruct(api.objects[uid], info)
  }

  ghost predicate TypedItems(api: Api, items: seq<Item>) {
    forall i :: 0 <= i < |items| ==> TypedInfo(api, items[i].uid, items[i].info)
  }

  ghost predicate TypedEvent(api: Api, e: Event) { TypedInfo(api, e.uid, e.info) && EventDeclared(api, e) }

  ghost predicate TypedEvents(api: Api, es: seq<Event>) {
    forall i :: 0 <= i < |es| ==> TypedEvent(api, es[i])
  }

  ghost predicate TypedDown(api: Api, busEvents: set<u16>, p: Down) {
    match p
    case ConResp(_, snapshot) => |snapshot| <= 0x1_0000 && TypedItems(api, snapshot)
    case AddPkt(it) => TypedInfo(api, it.uid, it.info)
    case EventPkt(e) => TypedEvent(api, e)
    case BusEventPkt(uid, adds, removes, events) =>
      uid != INVALID_UID && uid in busEvents && |adds| <= 0x1_0000 && |removes| <= 0x1_0000 && |events| < 0x1_0000_0000 &&
      TypedItems(api, adds) && TypedEvents(api, events)
    case _ => true
  }

  ghost predicate TypedSchema(api: Api, sc: Schema) {
    forall u :: u in sc.classes ==> TypedInfo(api, u, sc.classes[u].defaults)
  }

  ghost predicate TypedStore(api: Api, st: Store) {
    forall h :: h in st.objs ==> TypedInfo(api, st.objs[h].uid, st.objs[h].info)
  }

  ghost predicate TypedPeer(api: Api, busEvents: set<u16>, p: Peer) {
    forall j :: 0 <= j < |p.down| ==> TypedDown(api, busEvents, p.down[j])
  }

  ghost predicate TypedPeers(api: Api, busEvents: set<u16>, peers: seq<Peer>) {
    forall i :: 0 <= i < |peers| ==> TypedPeer(api, busEvents, peers[i])
  }

  ghost predicate TypedSrv(api: Api, busEvents: set<u16>, s: Srv) {
    TypedSchema(api, s.schema) && TypedStore(api, s.store) && TypedPeers(api, busEvents, s.peers)
  }

  /** An event the application built for an object: its struct type and descriptor are the
      object's. */
  ghost predicate TypedReq(api: Api, s: Srv, r: EventReq) {
    r.handle in s.store.objs ==> TypedEvent(api, Event(r.handle, s.store.objs[r.handle].uid, r.event, r.info))
  }

  /** What the C types say of the data an application passes in. */
  ghost predicate TypedStep(api: Api, busEvents: set<u16>, s: System, t: Step) {
    match t
    case New(_, uid, info) => uid in s.srv.schema.classes ==> TypedInfo(api, uid, info)
    case Send(r) => TypedReq(api, s.srv, r)
    case SendBus(euid, _, _, events) =>
      euid != INVALID_UID && euid in busEvents && |events| < 0x1_0000_0000 &&
      forall i :: 0 <= i < |events| ==> TypedReq(api, s.srv, events[i])
    case _ => true
  }

  // ---- values keep their types ----

  lemma CopyFits(d: FieldDesc, v: Value)
    requires FitsValue(d, v)
    ensures FitsValue(d, CopyValue(v))
  {
  }

  lemma MergeFits(desc: Desc, a: Struct, b: Struct)
    requires FitsStruct(desc, a) && FitsStruct(desc, b)
    ensures FitsStruct(desc, Merge(a, b))
  {
    hide FitsValue, CopyValue;
    forall u | u in b
      ensures FitsValue(Find(desc, u).value, CopyValue(b[u]))
    {
      CopyFits(Find(desc, u).value, b[u]);
    }
  }

  lemma SanitizedTyped(api: Api, s: Srv, r: EventReq)
    requires r.handle in s.store.objs && TypedReq(api, s, r)
    ensures TypedEvent(api, Sanitized(s, r))
  {
    hide FitsValue;
  }

  lemma CommitTyped(api: Api, st: Store, e: Event)
    requires TypedStore(api, st) && e.handle in st.objs && e.uid == st.objs[e.handle].uid && TypedEvent(api, e)
    ensures TypedStore(api, Commit(st, e))
  {
    hide FitsStruct, DescOk;
    MergeFits(api.objects[e.uid], st.objs[e.handle].info, e.info);
  }

  /** The events of a bus event are typed and meet objects of their type. */
  ghost predicate Meets(api: Api, st: Store, es: seq<Event>) {
    TypedEvents(api, es) && forall i :: 0 <= i < |es| ==> es[i].handle in st.objs && es[i].uid == st.objs[es[i].handle].uid
  }

  lemma {:induction false} CommitAllTyped(api: Api, st: Store, es: seq<Event>)
    requires TypedStore(api, st) && Meets(api, st, es)
    ensures TypedStore(api, CommitAll(st, es))
    decreases |es|
  {
    hide TypedStore, TypedEvent;
    if es != [] {
      CommitTyped(api, st, es[0]);
      CommitAllTyped(api, Commit(st, es[0]), es[1..]);
    }
  }

  lemma {:induction false} DelistAllKeepsObjects(st: Store, hs: seq<Handle>)
    ensures DelistAll(st, hs).objs == st.objs
    decreases |hs|
  {
    if hs != [] {
      DelistAllKeepsObjects(Delist(st, hs[0]), hs[1..]);
    }
  }

  // ---- lists of handles are short ----

  lemma {:induction false} FewBelow(n: nat, s: set<int>)
    requires forall x :: x in s ==> 0 <= x < n
    ensures |s| <= n
  {
    if n == 0 {
      assert forall x :: x !in s;
      assert s == {};
    } else {
      var t := s - {n - 1};
      FewBelow(n - 1, t);
      assert s <= t + {n - 1};
      assert |s| <= |t| + 1;
    }
  }

  lemma {:induction false} NoDupCount(hs: seq<Handle>)
    requires NoDup(hs)
    ensures |set h: int | h in hs| == |hs|
  {
    if hs != [] {
      NoDupCount(hs[1..]);
      var rest := set h: int | h in hs[1..];
      assert hs[0] !in rest;
      assert (set h: int | h in hs) == rest + {hs[0]};
    }
  }

  /** There are 65536 handles, so a list without repetition is no longer than that. */
  lemma FewHandles(hs: seq<Handle>)
    requires NoDup(hs)
    ensures |hs| <= 0x1_0000
  {
    NoDupCount(hs);
    FewBelow(0x1_0000, set h: int | h in hs);
  }

  // ---- every step keeps the types ----

  lemma SendTyped(api: Api, busEvents: set<u16>, p: Peer, pkt: Down)
    requires TypedPeer(api, busEvents, p) && TypedDown(api, busEvents, pkt)
    ensures TypedPeer(api, busEvents, Sent(p, pkt))
  {
    hide TypedDown;
  }

  lemma BroadcastTyped(api: Api, busEvents: set<u16>, peers: seq<Peer>, pkt: Down)
    requires TypedPeers(api, busEvents, peers) && TypedDown(api, busEvents, pkt)
    ensures TypedPeers(api, busEvents, Broadcast(peers, pkt))
  {
    hide TypedDown, TypedPeer, Sent;
    forall i | 0 <= i < |peers|
      ensures TypedPeer(api, busEvents, Broadcast(peers, pkt)[i])
    {
      SendTyped(api, busEvents, peers[i], pkt);
    }
  }

  lemma NewTyped(api: Api, busEvents: set<u16>, s: Srv, h: Handle, uid: u16, info: Struct)
    requires TypedSrv(api, busEvents, s) && (uid in s.schema.classes ==> TypedInfo(api, uid, info))
    ensures TypedSrv(api, busEvents, NewObject(s, h, uid, info))
  {
    hide FitsStruct, DescOk, TypedPeers;
    if uid in s.schema.classes {
      MergeFits(api.objects[uid], s.schema.classes[uid].defaults, info);
    }
  }

  lemma RegisterTyped(api: Api, busEvents: set<u16>, s: Srv, h: Handle)
    requires TypedSrv(api, busEvents, s)
    ensures TypedSrv(api, busEvents, Register(s, h)) && TypedSrv(api, busEvents, Unregister(s, h))
    ensures TypedSrv(api, busEvents, DestroyObject(s, h))
  {
    hide TypedInfo, TypedPeers, Broadcast, TypedSchema;
    if h in s.store.objs {
      BroadcastTyped(api, busEvents, s.peers, AddPkt(ItemOf(s.store, h)));
      BroadcastTyped(api, busEvents, s.peers, RemovePkt(RefOf(s.store, h)));
    }
  }

  lemma SendEventTyped(api: Api, busEvents: set<u16>, s: Srv, r: EventReq)
    requires TypedSrv(api, busEvents, s) && TypedReq(api, s, r)
    ensures TypedSrv(api, busEvents, SendEvent(s, r))
  {
    hide TypedInfo, TypedPeers, Broadcast, TypedSchema, TypedReq, TypedEvent, TypedStore, Commit;
    if r.handle in s.store.objs {
      SanitizedTyped(api, s, r);
      BroadcastTyped(api, busEvents, s.peers, EventPkt(Sanitized(s, r)));
      CommitTyped(api, s.store, Sanitized(s, r));
    }
  }

  lemma AllSanitizedTyped(api: Api, s: Srv, rs: seq<EventReq>)
    requires forall i :: 0 <= i < |rs| ==> rs[i].handle in s.store.objs && TypedReq(api, s, rs[i])
    ensures Meets(api, s.store, SanitizedAll(s, rs)) && |SanitizedAll(s, rs)| == |rs|
  {
    hide TypedReq, TypedEvent;
    forall i | 0 <= i < |rs|
      ensures TypedEvent(api, Sanitized(s, rs[i]))
    {
      SanitizedTyped(api, s, rs[i]);
    }
  }

  lemma ItemsTyped(api: Api, st: Store, hs: seq<Handle>)
    requires TypedStore(api, st) && (forall h :: h in hs ==> h in st.objs)
    ensures TypedItems(api, ItemsOf(st, hs))
  {
    hide TypedInfo;
  }

  lemma SendBusEventTyped(api: Api, busEvents: set<u16>, s: Srv, uid: u16, adds: seq<Handle>, removes: seq<Handle>, rs: seq<EventReq>)
    requires TypedSrv(api, busEvents, s) && NoDup(adds) && NoDup(removes) && |rs| < 0x1_0000_0000
    requires uid != INVALID_UID && uid in busEvents && forall i :: 0 <= i < |rs| ==> TypedReq(api, s, rs[i])
    ensures TypedSrv(api, busEvents, SendBusEvent(s, uid, adds, removes, rs))
  {
    hide TypedInfo, TypedPeers, Broadcast, TypedSchema, TypedReq, TypedEvents, TypedItems, NoDup, CommitAll, DelistAll, SanitizedAll, ItemsOf;
    if CheckBusEvent(s, adds, removes, rs) {
      var es := SanitizedAll(s, rs);
      AllSanitizedTyped(api, s, rs);
      ItemsTyped(api, s.store, adds);
      FewHandles(adds);
      FewHandles(removes);
      BusEventLengths(s, uid, adds, removes, rs);
      BroadcastTyped(api, busEvents, s.peers, BusEventOf(s, uid, adds, removes, rs));
      var st := EnlistAll(s.store, adds);
      CommitAllTyped(api, st, es);
      DelistAllKeepsObjects(CommitAll(st, es), removes);
    }
  }

  lemma BusEventLengths(s: Srv, uid: u16, adds: seq<Handle>, removes: seq<Handle>, rs: seq<EventReq>)
    requires CheckBusEvent(s, adds, removes, rs)
    ensures var p := BusEventOf(s, uid, adds, removes, rs); |p.adds| == |adds| && |p.removes| == |removes| && |p.events| == |rs|
  {
  }

  lemma OnePeerTyped(api: Api, busEvents: set<u16>, peers: seq<Peer>, i: nat, p: Peer)
    requires TypedPeers(api, busEvents, peers) && i < |peers| && TypedPeer(api, busEvents, p)
    ensures TypedPeers(api, busEvents, peers[i := p])
  {
    hide TypedPeer;
  }

  lemma ServerTakeTyped(api: Api, busEvents: set<u16>, s: Srv, i: nat, u: Up, userAccepts: bool, attempts: seq<Attempt>)
    requires TypedSrv(api, busEvents, s) && SrvOk(s) && i < |s.peers|
    ensures TypedSrv(api, busEvents, ServerTake(s, i, u, userAccepts, attempts))
  {
    hide TypedInfo, TypedSchema, TypedItems, ItemsOf, Welcome, AckStatus, Decodes;
    var p := s.peers[i];
    if u.ConReq? {
      FewHandles(s.store.reg);
      ItemsTyped(api, s.store, s.store.reg);
      assert |ItemsOf(s.store, s.store.reg)| == |s.store.reg| by { ItemsLength(s.store); }
      SendTyped(api, busEvents, p, ConResp(true, ItemsOf(s.store, s.store.reg)));
      ItemsTypedNone(api);
      SendTyped(api, busEvents, p, ConResp(false, []));
      OnePeerTyped(api, busEvents, s.peers, i, Peer(PeerConnected, p.down + [ConResp(true, ItemsOf(s.store, s.store.reg))]));
      OnePeerTyped(api, busEvents, s.peers, i, Peer(PeerRefused, p.down + [ConResp(false, [])]));
    } else if Decodes(s, u) {
      var pkt := AckPkt(u.call, AckStatus(s, u, attempts));
      SendTyped(api, busEvents, p, pkt);
      OnePeerTyped(api, busEvents, s.peers, i, Sent(p, pkt));
    }
  }

  lemma ItemsLength(st: Store)
    requires StoreOk(st)
    ensures |ItemsOf(st, st.reg)| == |st.reg|
  {
  }

  lemma ItemsTypedNone(api: Api)
    ensures TypedItems(api, [])
  {
  }

  /** Every step keeps every object and every packet in flight typed. */
  lemma NextTyped(api: Api, busEvents: set<u16>, s: System, t: Step)
    requires SrvOk(s.srv) && Enabled(s, t) && TypedSrv(api, busEvents, s.srv) && TypedStep(api, busEvents, s, t)
    ensures TypedSrv(api, busEvents, Next(s, t).srv)
  {
    hide SrvOk, TypedInfo, TypedReq, NewObject, DestroyObject, Register, Unregister, SendEvent, SendBusEvent, ServerTake,
         TypedDown, TypedSchema, TypedStore;
    match t
    case New(h, uid, info) => NewTyped(api, busEvents, s.srv, h, uid, info);
    case Destroy(h) => RegisterTyped(api, busEvents, s.srv, h);
    case Reg(h) => RegisterTyped(api, busEvents, s.srv, h);
    case Unreg(h) => RegisterTyped(api, busEvents, s.srv, h);
    case Send(r) => SendEventTyped(api, busEvents, s.srv, r);
    case SendBus(euid, adds, removes, events) => SendBusEventTyped(api, busEvents, s.srv, euid, adds, removes, events);
    case Connect(_) =>
    case ServerTakes(i, userAccepts, attempts) =>
      ServerTakeTyped(api, busEvents, s.srv, i, s.ends[i].up[0], userAccepts, attempts);
    case ClientTakes(i) =>
      OnePeerTyped(api, busEvents, s.srv.peers, i, s.srv.peers[i].(down := s.srv.peers[i].down[1..]));
    case Call(_, _, _, _, _) =>
    case PeerDrops(i) => OnePeerTyped(api, busEvents, s.srv.peers, i, s.srv.peers[i].(phase := PeerGone));
    case ClientDrops(_) =>
    case Loses(i, n) =>
      OnePeerTyped(api, busEvents, s.srv.peers, i, s.srv.peers[i].(down := s.srv.peers[i].down[..n]));
  }

  /** A run of an application that passes data of the right types. */
  ghost predicate TypedRun(api: Api, busEvents: set<u16>, states: seq<System>, steps: seq<Step>) {
    IsRun(states, steps) && TypedSchema(api, states[0].srv.schema) &&
    forall k :: 0 <= k < |steps| ==> TypedStep(api, busEvents, states[k], steps[k])
  }

  ghost predicate TypedReachable(api: Api, busEvents: set<u16>, s: System) {
    exists states, steps :: TypedRun(api, busEvents, states, steps) && states[|states| - 1] == s
  }

  lemma {:induction false} RunTyped(api: Api, busEvents: set<u16>, states: seq<System>, steps: seq<Step>, k: nat)
    requires TypedRun(api, busEvents, states, steps) && k < |states|
    ensures TypedSrv(api, busEvents, states[k].srv)
  {
    hide Next, Enabled, TypedStep, TypedInfo;
    if k > 0 {
      RunTyped(api, busEvents, states, steps, k - 1);
      assert TakesTo(states[k - 1], steps[k - 1], states[k - 1 + 1]);
      NextTyped(api, busEvents, states[k - 1], steps[k - 1]);
    }
  }

  /** In every state such runs reach, every packet in flight fits its schema. */
  lemma InFlightIsTyped(api: Api, busEvents: set<u16>, s: System, i: nat, j: nat)
    requires TypedReachable(api, busEvents, s) && i < |s.srv.peers| && j < |s.srv.peers[i].down|
    ensures Reachable(s) && TypedDown(api, busEvents, s.srv.peers[i].down[j])
  {
    hide TypedDown, TypedSchema, TypedStore, TypedStep;
    var states, steps :| TypedRun(api, busEvents, states, steps) && states[|states| - 1] == s;
    RunTyped(api, busEvents, states, steps, |states| - 1);
    assert TypedPeer(api, busEvents, s.srv.peers[i]);
  }

  lemma TypedIsReachable(api: Api, busEvents: set<u16>, s: System)
    requires TypedReachable(api, busEvents, s)
    ensures Reachable(s)
  {
    hide TypedSchema, TypedStep;
  }
}
