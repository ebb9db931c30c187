/** The server as a value: schema, objects, peers with the packets written to each, and the
    effect of every call of obus_server.c on it. */
module ServerSpec {
  import opened Values
  import opened Lists
  import opened Bus
  import opened ObjectStore

  const PROTOCOL_VERSION: byte := 2

  /** An object type: initial field values, method uids (each also a field holding the
      method's state), and for each event the fields it may update. */
  datatype Class = Class(defaults: Struct, methods: set<u16>, updates: map<u16, set<u16>>)

  datatype Schema = Schema(name: seq<byte>, crc: u32, classes: map<u16, Class>)

  ghost predicate SchemaOk(sc: Schema) {
    forall u :: u in sc.classes ==> u != INVALID_UID && Normal(sc.classes[u].defaults)
  }

  /** Packets from client to server. */
  datatype Up =
    | ConReq(version: byte, bus: seq<byte>, crc: u32, client: seq<byte>)
    | CallPkt(uid: u16, handle: Handle, mid: u16, call: Handle, args: Struct)

  datatype PeerPhase = PeerIdle | PeerConnected | PeerRefused | PeerGone

  /** down: packets written to the peer and not yet taken by the client. */
  datatype Peer = Peer(phase: PeerPhase, down: seq<Down>)

  datatype Srv = Srv(schema: Schema, store: Store, peers: seq<Peer>, connected: int)

  /** An event as the application hands it to the server. */
  datatype EventReq = EventReq(handle: Handle, event: u16, info: Struct)

  /** One obus_server_send_ack made by a method handler. */
  datatype Attempt = Attempt(call: Handle, status: Status)

  function CountConnected(peers: seq<Peer>): nat {
    if peers == [] then 0
    else (if peers[0].phase == PeerConnected then 1 else 0) + CountConnected(peers[1..])
  }

  ghost predicate SrvOk(s: Srv) {
    SchemaOk(s.schema) && StoreOk(s.store) && s.connected == CountConnected(s.peers)
  }

  // ---- peers ----

  function Sent(p: Peer, pkt: Down): Peer { p.(down := p.down + [pkt]) }

  /** obus_server_send_peers: only connected peers get the packet. */
  function Broadcast(peers: seq<Peer>, pkt: Down): seq<Peer> {
    seq(|peers|, i requires 0 <= i < |peers| =>
      if peers[i].phase == PeerConnected then Sent(peers[i], pkt) else peers[i])
  }

  lemma {:induction false} CountUpdate(peers: seq<Peer>, i: nat, p: Peer)
    requires i < |peers|
    ensures CountConnected(peers[i := p]) - CountConnected(peers)
         == (if p.phase == PeerConnected then 1 else 0) - (if peers[i].phase == PeerConnected then 1 else 0)
    decreases |peers|
  {
    if i == 0 {
      assert peers[i := p][1..] == peers[1..];
    } else {
      assert peers[i := p][1..] == peers[1..][i - 1 := p];
      CountUpdate(peers[1..], i - 1, p);
    }
  }

  lemma {:induction false} CountAppend(peers: seq<Peer>, p: Peer)
    ensures CountConnected(peers + [p]) == CountConnected(peers) + (if p.phase == PeerConnected then 1 else 0)
  {
    if peers == [] {
      assert peers + [p] == [p];
    } else {
      assert (peers + [p])[1..] == peers[1..] + [p];
      CountAppend(peers[1..], p);
    }
  }

  lemma {:induction false} CountBroadcast(peers: seq<Peer>, pkt: Down)
    ensures CountConnected(Broadcast(peers, pkt)) == CountConnected(peers)
  {
    if peers != [] {
      assert Broadcast(peers, pkt)[1..] == Broadcast(peers[1..], pkt);
      CountBroadcast(peers[1..], pkt);
    }
  }

  /** The shortcut that skips encoding when nobody is connected changes nothing. */
  lemma {:induction false} BroadcastToNobody(peers: seq<Peer>, pkt: Down)
    requires CountConnected(peers) == 0
    ensures Broadcast(peers, pkt) == peers
  {
    if peers != [] {
      BroadcastToNobody(peers[1..], pkt);
      assert Broadcast(peers, pkt) == [peers[0]] + Broadcast(peers[1..], pkt);
    }
  }

  // ---- objects ----

  /** obus_server_new_object with handle h drawn from the random source. */
  function NewObject(s: Srv, h: Handle, uid: u16, info: Struct): Srv {
    if h == INVALID_HANDLE || h in s.store.objs || uid !in s.schema.classes then s
    else s.(store := s.store.(objs := s.store.objs[h := Obj(uid, Merge(s.schema.classes[uid].defaults, info))]))
  }

  /** obus_object_destroy: refused while registered. */
  function DestroyObject(s: Srv, h: Handle): Srv {
    if h in s.store.reg then s else s.(store := s.store.(objs := s.store.objs - {h}))
  }

  function Register(s: Srv, h: Handle): Srv {
    if h !in s.store.objs || h in s.store.reg then s
    else s.(store := Enlist(s.store, h), peers := Broadcast(s.peers, AddPkt(ItemOf(s.store, h))))
  }

  function Unregister(s: Srv, h: Handle): Srv {
    if h !in s.store.objs || h !in s.store.reg then s
    else s.(store := Delist(s.store, h), peers := Broadcast(s.peers, RemovePkt(RefOf(s.store, h))))
  }

  function Allowed(sc: Schema, uid: u16, event: u16): set<u16> {
    if uid in sc.classes && event in sc.classes[uid].updates then sc.classes[uid].updates[event] else {}
  }

  /** obus_event_sanitize on the server: undeclared fields lose their presence bit. */
  function Sanitize(info: Struct, allowed: set<u16>): Struct {
    map f | f in info && f in allowed :: info[f]
  }

  function Sanitized(s: Srv, r: EventReq): Event
    requires r.handle in s.store.objs
  {
    var uid := s.store.objs[r.handle].uid;
    Event(r.handle, uid, r.event, Sanitize(r.info, Allowed(s.schema, uid, r.event)))
  }

  function SanitizedAll(s: Srv, rs: seq<EventReq>): seq<Event>
    requires forall i :: 0 <= i < |rs| ==> rs[i].handle in s.store.objs
  {
    seq(|rs|, i requires 0 <= i < |rs| => Sanitized(s, rs[i]))
  }

  function SendEvent(s: Srv, r: EventReq): Srv {
    if r.handle !in s.store.objs || r.handle !in s.store.reg then s
    else
      var e := Sanitized(s, r);
      s.(peers := Broadcast(s.peers, EventPkt(e)), store := Commit(s.store, e))
  }

  /** obus_server_check_bus_event. */
  predicate CheckBusEvent(s: Srv, adds: seq<Handle>, removes: seq<Handle>, events: seq<EventReq>) {
    (forall h :: h in adds ==> h in s.store.objs && h !in s.store.reg) &&
    (forall h :: h in removes ==> h in s.store.objs && h in s.store.reg) &&
    (forall i :: 0 <= i < |events| ==> events[i].handle in s.store.objs && events[i].handle in s.store.reg)
  }

  function BusEventOf(s: Srv, uid: u16, adds: seq<Handle>, removes: seq<Handle>, events: seq<EventReq>): Down
    requires CheckBusEvent(s, adds, removes, events)
  {
    BusEventPkt(uid, ItemsOf(s.store, adds), RefsOf(s.store, removes), SanitizedAll(s, events))
  }

  function SendBusEvent(s: Srv, uid: u16, adds: seq<Handle>, removes: seq<Handle>, events: seq<EventReq>): Srv {
    if !CheckBusEvent(s, adds, removes, events) then s
    else s.(peers := Broadcast(s.peers, BusEventOf(s, uid, adds, removes, events)),
            store := CommitBusEventAt(s.store, adds, removes, SanitizedAll(s, events)))
  }

  // ---- connection ----

  predicate Welcome(sc: Schema, r: Up)
    requires r.ConReq?
  {
    r.version == PROTOCOL_VERSION && r.bus == sc.name && r.crc == sc.crc && r.client != []
  }

  /** obus_peer_connection_request; userAccepts is what the connection callback decides. */
  function ConnectionRequest(s: Srv, i: nat, r: Up, userAccepts: bool): Srv
    requires i < |s.peers| && r.ConReq?
    requires forall h :: h in s.store.reg ==> h in s.store.objs
  {
    if s.peers[i].phase != PeerIdle then s
    else if Welcome(s.schema, r) && userAccepts then
      s.(peers := s.peers[i := Peer(PeerConnected, s.peers[i].down + [ConResp(true, ItemsOf(s.store, s.store.reg))])],
         connected := s.connected + 1)
    else
      s.(peers := s.peers[i := Peer(PeerRefused, s.peers[i].down + [ConResp(false, [])])])
  }

  /** obus_peer_destroy. */
  function DropPeer(s: Srv, i: nat): Srv
    requires i < |s.peers|
  {
    s.(peers := s.peers[i := s.peers[i].(phase := PeerGone)],
       connected := if s.peers[i].phase == PeerConnected then s.connected - 1 else s.connected)
  }

  // ---- calls ----

  /** obus_object_get_method_state: the enum's number, DISABLED when there is no such method. */
  function MethodState(sc: Schema, o: Obj, mid: u16): nat {
    if o.uid in sc.classes && mid in sc.classes[o.uid].methods && mid in o.info
       && o.info[mid].One? && o.info[mid].item.Bits?
    then o.info[mid].item.raw else 2
  }

  /** The handler's first acknowledgement that carries the call's own handle. */
  function FirstMatch(attempts: seq<Attempt>, call: Handle): Option<Status> {
    if attempts == [] then None
    else if attempts[0].call == call then Some(attempts[0].status)
    else FirstMatch(attempts[1..], call)
  }

  /** obus_call_decode finds the object by handle, checks its type, and finds the method. */
  predicate Decodes(s: Srv, c: Up)
    requires c.CallPkt?
  {
    c.handle in s.store.objs && s.store.objs[c.handle].uid == c.uid &&
    c.uid in s.schema.classes && c.mid in s.schema.classes[c.uid].methods
  }

  function AckStatus(s: Srv, c: Up, attempts: seq<Attempt>): Status
    requires c.CallPkt? && Decodes(s, c)
  {
    if c.handle !in s.store.reg then Aborted
    else
      var state := MethodState(s.schema, s.store.objs[c.handle], c.mid);
      if state == 1 then
        var m := FirstMatch(attempts, c.call);
        if m.Some? then m.value else Refused
      else if state == 2 then MethodDisabled
      else if state == 0 then MethodNotSupported
      else Refused
  }

  /** A decoded call gets exactly one ACK carrying its handle; others are skipped. */
  function CallRequest(s: Srv, i: nat, c: Up, attempts: seq<Attempt>): Srv
    requires i < |s.peers| && c.CallPkt?
  {
    if !Decodes(s, c) then s
    else s.(peers := s.peers[i := Sent(s.peers[i], AckPkt(c.call, AckStatus(s, c, attempts)))])
  }

  // ---- every server step keeps the server consistent ----

  lemma NewObjectOk(s: Srv, h: Handle, uid: u16, info: Struct)
    requires SrvOk(s)
    ensures SrvOk(NewObject(s, h, uid, info))
    ensures Registered(NewObject(s, h, uid, info).store) == Registered(s.store)
  {
    if uid in s.schema.classes {
      MergeKeepsNormal(s.schema.classes[uid].defaults, info);
    }
    assert Registered(NewObject(s, h, uid, info).store).at == Registered(s.store).at;
  }

  lemma DestroyObjectOk(s: Srv, h: Handle)
    requires SrvOk(s)
    ensures SrvOk(DestroyObject(s, h))
    ensures Registered(DestroyObject(s, h).store) == Registered(s.store)
  {
    assert Registered(DestroyObject(s, h).store).at == Registered(s.store).at;
  }

  lemma SanitizedFits(s: Srv, rs: seq<EventReq>)
    requires forall i :: 0 <= i < |rs| ==> rs[i].handle in s.store.objs && rs[i].handle in s.store.reg
    ensures EventsFit(s.store, SanitizedAll(s, rs))
  {
  }

  /** A broadcast step: the packet is applicable to a replica that equals the registered
      objects and turns it into the new registered objects. */
  ghost predicate Carries(s: Srv, s': Srv, pkt: Down) {
    s'.peers == Broadcast(s.peers, pkt) && s'.schema == s.schema && s'.connected == s.connected &&
    Applicable(View(Connected, Registered(s.store)), pkt) &&
    Apply(View(Connected, Registered(s.store)), pkt) == View(Connected, Registered(s'.store))
  }

  lemma RegisterCarries(s: Srv, h: Handle)
    requires SrvOk(s) && h in s.store.objs && h !in s.store.reg
    ensures SrvOk(Register(s, h))
    ensures Carries(s, Register(s, h), AddPkt(ItemOf(s.store, h)))
  {
    EnlistMatches(s.store, h);
    CountBroadcast(s.peers, AddPkt(ItemOf(s.store, h)));
  }

  lemma UnregisterCarries(s: Srv, h: Handle)
    requires SrvOk(s) && h in s.store.reg
    ensures SrvOk(Unregister(s, h))
    ensures Carries(s, Unregister(s, h), RemovePkt(RefOf(s.store, h)))
  {
    DelistMatches(s.store, h);
    CountBroadcast(s.peers, RemovePkt(RefOf(s.store, h)));
  }

  lemma SendEventCarries(s: Srv, r: EventReq)
    requires SrvOk(s) && r.handle in s.store.reg
    ensures SrvOk(SendEvent(s, r))
    ensures Carries(s, SendEvent(s, r), EventPkt(Sanitized(s, r)))
  {
    CommitOk(s.store, Sanitized(s, r));
    CommitMatches(s.store, Sanitized(s, r));
    CountBroadcast(s.peers, EventPkt(Sanitized(s, r)));
  }

  lemma SendBusEventCarries(s: Srv, uid: u16, adds: seq<Handle>, removes: seq<Handle>, events: seq<EventReq>)
    requires SrvOk(s) && NoDup(adds) && NoDup(removes)
    requires CheckBusEvent(s, adds, removes, events)
    ensures SrvOk(SendBusEvent(s, uid, adds, removes, events))
    ensures Carries(s, SendBusEvent(s, uid, adds, removes, events), BusEventOf(s, uid, adds, removes, events))
  {
    SanitizedFits(s, events);
    BusEventApplies(s.store, uid, adds, removes, SanitizedAll(s, events));
    BusEventMatches(s.store, uid, adds, removes, SanitizedAll(s, events));
    CountBroadcast(s.peers, BusEventOf(s, uid, adds, removes, events));
  }

  /** Server side of "a bus event is its parts": registering, sending and unregistering one by
      one leaves the same objects, in the same order. */
  lemma BusEventIsSequenceOnServer(s: Srv, uid: u16, adds: seq<Handle>, removes: seq<Handle>, events: seq<EventReq>)
    requires SrvOk(s) && NoDup(adds) && NoDup(removes)
    requires CheckBusEvent(s, adds, removes, events)
    ensures UnregisterEach(SendEach(RegisterEach(s, adds), events), removes).store
         == SendBusEvent(s, uid, adds, removes, events).store
  {
    RegisterEachIs(s, adds);
    var s1 := RegisterEach(s, adds);
    EnlistAllOk(s.store, adds);
    SendEachIs(s1, events);
    assert SanitizedAll(s1, events) == SanitizedAll(s, events);
    var s2 := SendEach(s1, events);
    SanitizedFits(s1, events);
    CommitAllMatches(s1.store, SanitizedAll(s1, events));
    UnregisterEachIs(s2, removes);
  }

  function RegisterEach(s: Srv, hs: seq<Handle>): Srv
    decreases |hs|
  {
    if hs == [] then s else RegisterEach(Register(s, hs[0]), hs[1..])
  }

  function SendEach(s: Srv, rs: seq<EventReq>): Srv
    decreases |rs|
  {
    if rs == [] then s else SendEach(SendEvent(s, rs[0]), rs[1..])
  }

  function UnregisterEach(s: Srv, hs: seq<Handle>): Srv
    decreases |hs|
  {
    if hs == [] then s else UnregisterEach(Unregister(s, hs[0]), hs[1..])
  }

  lemma {:induction false} RegisterEachIs(s: Srv, hs: seq<Handle>)
    requires NoDup(hs) && forall h :: h in hs ==> h in s.store.objs && h !in s.store.reg
    ensures RegisterEach(s, hs).store == EnlistAll(s.store, hs)
    ensures RegisterEach(s, hs).schema == s.schema
    decreases |hs|
  {
    if hs == [] {
      assert s.store.reg + hs == s.store.reg;
    } else {
      RestStaysOut(s.store, hs);
      RegisterEachIs(Register(s, hs[0]), hs[1..]);
      assert s.store.reg + [hs[0]] + hs[1..] == s.store.reg + hs;
    }
  }

  lemma {:induction false} SendEachIs(s: Srv, rs: seq<EventReq>)
    requires forall i :: 0 <= i < |rs| ==> rs[i].handle in s.store.objs && rs[i].handle in s.store.reg
    ensures SendEach(s, rs).store == CommitAll(s.store, SanitizedAll(s, rs))
    decreases |rs|
  {
    if rs != [] {
      var s1 := SendEvent(s, rs[0]);
      SendEachIs(s1, rs[1..]);
      assert SanitizedAll(s, rs)[1..] == SanitizedAll(s1, rs[1..]);
    }
  }

  lemma {:induction false} UnregisterEachIs(s: Srv, hs: seq<Handle>)
    requires NoDup(hs) && forall h :: h in hs ==> h in s.store.objs && h in s.store.reg
    ensures UnregisterEach(s, hs).store == DelistAll(s.store, hs)
    decreases |hs|
  {
    if hs != [] {
      RestStaysIn(s.store, hs);
      UnregisterEachIs(Unregister(s, hs[0]), hs[1..]);
    }
  }

  lemma ConnectionRequestOk(s: Srv, i: nat, r: Up, userAccepts: bool)
    requires SrvOk(s) && i < |s.peers| && r.ConReq?
    ensures SrvOk(ConnectionRequest(s, i, r, userAccepts))
  {
    CountUpdate(s.peers, i, ConnectionRequest(s, i, r, userAccepts).peers[i]);
  }

  lemma CallRequestOk(s: Srv, i: nat, c: Up, attempts: seq<Attempt>)
    requires SrvOk(s) && i < |s.peers| && c.CallPkt?
    ensures SrvOk(CallRequest(s, i, c, attempts))
  {
    CountUpdate(s.peers, i, CallRequest(s, i, c, attempts).peers[i]);
  }

  lemma DropPeerOk(s: Srv, i: nat)
    requires SrvOk(s) && i < |s.peers|
    ensures SrvOk(DropPeer(s, i))
  {
    CountUpdate(s.peers, i, DropPeer(s, i).peers[i]);
  }
}
