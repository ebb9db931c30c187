/** obus_server.c as a mutable object. Every method changes the server exactly as the function
    of ServerSpec of the same name says. */
module Server {
  import opened Values
  import opened Lists
  import opened Bus
  import opened ObjectStore
  import opened ServerSpec
  import opened Laws

  /** The call being served: who asked, and under which call handle. */
  datatype Current = Current(peer: nat, call: Handle)

  /** The node by which an object hangs in a bus event: one per object, so one bus event at most. */
  class EventNodes {
    var owner: map<Handle, BusEvent>

    constructor ()
      ensures owner == map[]
    {
      owner := map[];
    }
  }

  /** A bus event under assembly: an object is attached to one bus event at most, and once,
      whether to be registered or unregistered, which is what the server's commit relies on. */
  class BusEvent {
    const nodes: EventNodes
    var adds: seq<Handle>
    var removes: seq<Handle>
    var events: seq<EventReq>

    ghost predicate Valid()
      reads this, nodes
    {
      NoDup(adds + removes) &&
      forall h :: h in adds || h in removes <==> h in nodes.owner && nodes.owner[h] == this
    }

    constructor (nodes: EventNodes)
      ensures fresh(this) && this.nodes == nodes && adds == [] && removes == [] && events == []
      ensures (forall h :: h in nodes.owner ==> nodes.owner[h] != this) ==> Valid()
    {
      this.nodes := nodes;
      adds, removes, events := [], [], [];
    }

    method RegisterObject(h: Handle) returns (ok: bool)
      requires Valid()
      modifies this`adds, nodes
      ensures Valid() && ok == (h !in old(nodes.owner))
      ensures nodes.owner == if ok then old(nodes.owner)[h := this] else old(nodes.owner)
      ensures adds == old(adds) + (if ok then [h] else [])
    {
      ok := h !in nodes.owner;
      if ok {
        AttachOnce(adds, removes, h);
        nodes.owner := nodes.owner[h := this];
        adds := adds + [h];
      }
    }

    method UnregisterObject(h: Handle) returns (ok: bool)
      requires Valid()
      modifies this`removes, nodes
      ensures Valid() && ok == (h !in old(nodes.owner))
      ensures nodes.owner == if ok then old(nodes.owner)[h := this] else old(nodes.owner)
      ensures removes == old(removes) + (if ok then [h] else [])
    {
      ok := h !in nodes.owner;
      if ok {
        assert adds + (removes + [h]) == (adds + removes) + [h];
        nodes.owner := nodes.owner[h := this];
        removes := removes + [h];
      }
    }

    /** The list walks of obus_bus_event_destroy: its objects, and only its, can be attached again. */
    method Detach()
      requires Valid()
      modifies this, nodes
      ensures Valid() && adds == [] && removes == [] && events == []
      ensures nodes.owner == map h | h in old(nodes.owner) && old(nodes.owner)[h] != this :: old(nodes.owner)[h]
    {
      events := [];
      var all := adds + removes;
      adds, removes := [], [];
      var i := 0;
      while i < |all|
        invariant 0 <= i <= |all| && adds == [] && removes == [] && events == []
        invariant nodes.owner == old(nodes.owner) - (set h | h in all[..i])
      {
        nodes.owner := nodes.owner - {all[i]};
        assert all[..i + 1] == all[..i] + [all[i]];
        i := i + 1;
      }
      assert all[..i] == old(adds) + old(removes);
      assert forall h :: h in all <==> h in old(nodes.owner) && old(nodes.owner)[h] == this;
    }

    /** What one bus event does with its nodes leaves every other one as it was. */
    twostate lemma OthersStayValid(other: BusEvent)
      requires other != this && other.nodes == nodes && old(other.Valid()) && unchanged(other)
      requires forall h :: h in old(nodes.owner) && old(nodes.owner)[h] != this ==> h in nodes.owner && nodes.owner[h] == old(nodes.owner)[h]
      requires forall h :: h in nodes.owner && nodes.owner[h] != this ==> h in old(nodes.owner) && old(nodes.owner)[h] == nodes.owner[h]
      ensures other.Valid()
    {
    }

    method AddEvent(r: EventReq)
      requires Valid()
      modifies this`events
      ensures Valid() && events == old(events) + [r] && adds == old(adds) && removes == old(removes)
    {
      events := events + [r];
    }

    /** What obus_server_send_bus_event is entitled to assume. */
    lemma Distinct()
      requires Valid()
      ensures NoDup(adds) && NoDup(removes)
      ensures forall h :: h in adds ==> h !in removes
    {
      PartsDistinct(adds, removes);
    }
  }

  function DestroyEach(s: Srv, hs: seq<Handle>): Srv
    decreases |hs|
  {
    if hs == [] then s else DestroyEach(ServerSpec.DestroyObject(s, hs[0]), hs[1..])
  }

  lemma {:induction false} DestroyEachSpec(s: Srv, hs: seq<Handle>)
    ensures var d := DestroyEach(s, hs);
            d == s.(store := d.store) && d.store.reg == s.store.reg &&
            d.store.objs == map h | h in s.store.objs && (h !in hs || h in s.store.reg) :: s.store.objs[h]
    decreases |hs|
  {
    if hs != [] {
      DestroyEachSpec(ServerSpec.DestroyObject(s, hs[0]), hs[1..]);
    }
  }

  lemma AttachOnce(a: seq<Handle>, b: seq<Handle>, h: Handle)
    requires NoDup(a + b) && h !in a && h !in b
    ensures NoDup(a + [h] + b)
  {
    PartsDistinct(a, b);
    NoDupConcat(a, [h]);
    NoDupConcat(a + [h], b);
  }

  lemma PartsDistinct(a: seq<Handle>, b: seq<Handle>)
    requires NoDup(a + b)
    ensures NoDup(a) && NoDup(b)
    ensures forall h :: h in a ==> h !in b
  {
    var s := a + b;
    forall i, j | 0 <= i < j < |a|
      ensures a[i] != a[j]
    {
      assert s[i] != s[j];
    }
    forall i, j | 0 <= i < j < |b|
      ensures b[i] != b[j]
    {
      assert s[|a| + i] != s[|a| + j];
    }
    forall i, j | 0 <= i < |a| && 0 <= j < |b|
      ensures a[i] != b[j]
    {
      assert s[i] != s[|a| + j];
    }
  }

  class Server {
    const schema: Schema
    var objs: map<Handle, Obj>
    var registered: seq<Handle>
    var peers: seq<Peer>
    var connected: int
    var current: Option<Current>
    var callStatus: Status

    ghost function Value(): Srv
      reads this
    {
      Srv(schema, Store(objs, registered), peers, connected)
    }

    ghost predicate Valid()
      reads this
    {
      SrvOk(Value()) && current == None
    }

    constructor (sc: Schema)
      requires SchemaOk(sc)
      ensures Valid() && Value() == Srv(sc, Store(map[], []), [], 0)
    {
      schema := sc;
      objs, registered, peers, connected := map[], [], [], 0;
      current, callStatus := None, InvalidStatus;
    }

    /** A socket connects: the peer is idle until its connection request arrives. */
    method Accept()
      requires Valid()
      modifies this
      ensures Valid()
      ensures Value() == old(Value()).(peers := old(peers) + [Peer(PeerIdle, [])])
    {
      CountAppend(peers, Peer(PeerIdle, []));
      peers := peers + [Peer(PeerIdle, [])];
    }

    /** obus_server_send_peers. */
    method SendPeers(pkt: Down)
      modifies this`peers
      ensures peers == Broadcast(old(peers), pkt) && AllGot(old(peers), peers, pkt)
    {
      var i := 0;
      while i < |peers|
        invariant 0 <= i <= |peers| == |old(peers)|
        invariant peers[..i] == Broadcast(old(peers), pkt)[..i]
        invariant peers[i..] == old(peers)[i..]
      {
        assert peers[i] == old(peers)[i];
        if peers[i].phase == PeerConnected {
          peers := peers[i := Sent(peers[i], pkt)];
        }
        i := i + 1;
      }
    }

    /** Encodes and sends only when somebody is connected; same outcome as always sending. */
    method SendIfConnected(pkt: Down)
      requires connected == CountConnected(peers)
      modifies this`peers
      ensures peers == Broadcast(old(peers), pkt)
    {
      if connected == 0 {
        BroadcastToNobody(peers, pkt);
      } else {
        SendPeers(pkt);
      }
    }

    /** The draw that ends the search of obus_bus_add_object: the first one that is free. A draw
        of the invalid handle, which is how the random source fails, ends it without success. */
    static ghost predicate FirstFree(objs: map<Handle, Obj>, draws: seq<Handle>, i: nat) {
      i < |draws| && draws[i] != INVALID_HANDLE && draws[i] !in objs &&
      forall j :: 0 <= j < i ==> draws[j] != INVALID_HANDLE && draws[j] in objs
    }

    /** obus_server_new_object; draws is what the random source yields. */
    method NewObject(uid: u16, info: Struct, draws: seq<Handle>) returns (h: Handle)
      requires Valid()
      modifies this
      ensures Valid()
      ensures Value() == ServerSpec.NewObject(old(Value()), h, uid, info)
      ensures h != INVALID_HANDLE <==> uid in schema.classes && exists i: nat :: FirstFree(old(objs), draws, i)
      ensures h != INVALID_HANDLE ==> exists i: nat :: FirstFree(old(objs), draws, i) && h == draws[i]
      ensures if h == INVALID_HANDLE then objs == old(objs) else Made(schema, old(objs), objs, h, uid, info)
      ensures registered == old(registered) && peers == old(peers)
    {
      h := INVALID_HANDLE;
      if uid !in schema.classes {
        return;
      }
      var i := 0;
      while i < |draws| && draws[i] != INVALID_HANDLE && draws[i] in objs
        invariant 0 <= i <= |draws|
        invariant forall j :: 0 <= j < i ==> draws[j] != INVALID_HANDLE && draws[j] in objs
      {
        i := i + 1;
      }
      if i < |draws| {
        h := draws[i];
      }
      assert h != INVALID_HANDLE ==> FirstFree(objs, draws, i);
      NewObjectOk(Value(), h, uid, info);
      if h != INVALID_HANDLE {
        NewObjectMade(Value(), h, uid, info);
        objs := objs[h := Obj(uid, Merge(schema.classes[uid].defaults, info))];
      }
    }

    method DestroyObject(h: Handle) returns (ok: bool)
      requires Valid()
      modifies this
      ensures Valid() && ok == (h !in registered)
      ensures Value() == ServerSpec.DestroyObject(old(Value()), h)
      ensures objs == (if ok then old(objs) - {h} else old(objs)) && registered == old(registered) && peers == old(peers)
    {
      DestroyObjectOk(Value(), h);
      ok := h !in registered;
      if ok {
        objs := objs - {h};
      }
    }

    method Register(h: Handle) returns (ok: bool)
      requires Valid()
      modifies this
      ensures Valid() && ok == (h in old(objs) && h !in old(registered))
      ensures Value() == ServerSpec.Register(old(Value()), h)
      ensures objs == old(objs) && registered == old(registered) + (if ok then [h] else [])
      ensures if ok then AllGot(old(peers), peers, AddPkt(Item(h, objs[h].uid, objs[h].info))) else peers == old(peers)
    {
      ok := h in objs && h !in registered;
      if ok {
        RegisterCarries(Value(), h);
        BroadcastGot(peers, AddPkt(Item(h, objs[h].uid, objs[h].info)));
        registered := registered + [h];
        SendIfConnected(AddPkt(Item(h, objs[h].uid, objs[h].info)));
      }
    }

    method Unregister(h: Handle) returns (ok: bool)
      requires Valid()
      modifies this
      ensures Valid() && ok == (h in old(registered))
      ensures Value() == ServerSpec.Unregister(old(Value()), h)
      ensures objs == old(objs) && (forall g :: g in registered <==> g in old(registered) && g != h)
      ensures if ok then AllGot(old(peers), peers, RemovePkt(Ref(h, objs[h].uid))) else peers == old(peers)
    {
      ok := h in registered;
      if ok {
        UnregisterCarries(Value(), h);
        BroadcastGot(peers, RemovePkt(Ref(h, objs[h].uid)));
        registered := Without(registered, h);
        SendIfConnected(RemovePkt(Ref(h, objs[h].uid)));
      }
    }

    /** obus_event_sanitize: undeclared fields lose their presence bit, field by field. */
    method SanitizeEvent(info: Struct, allowed: set<u16>) returns (r: Struct)
      ensures r == Sanitize(info, allowed)
      ensures forall f :: (f in r <==> f in info && f in allowed) && (f in r ==> r[f] == info[f])
    {
      r := info;
      var left := info.Keys;
      while left != {}
        invariant left <= info.Keys
        invariant r == map f | f in info && (f in allowed || f in left) :: info[f]
        decreases |left|
      {
        var f :| f in left;
        if f !in allowed {
          r := r - {f};
        }
        left := left - {f};
      }
    }

    method SendEvent(r: EventReq) returns (ok: bool)
      requires Valid()
      modifies this
      ensures Valid() && ok == (r.handle in old(registered))
      ensures Value() == ServerSpec.SendEvent(old(Value()), r)
      ensures if ok then EventSent(schema, old(objs), old(peers), r, objs, peers) else objs == old(objs) && peers == old(peers)
      ensures registered == old(registered)
    {
      ok := r.handle in registered;
      if ok {
        SendEventSent(Value(), r);
        hide EventSent;
        SendEventCarries(Value(), r);
        var uid := objs[r.handle].uid;
        var info := SanitizeEvent(r.info, Allowed(schema, uid, r.event));
        SendIfConnected(EventPkt(Event(r.handle, uid, r.event, info)));
        objs := objs[r.handle := Obj(uid, Merge(objs[r.handle].info, info))];
      }
    }

    // ---- bus events ----

    /** obus_server_check_bus_event; the events come back sanitized. */
    method CheckBusEvent(adds: seq<Handle>, removes: seq<Handle>, reqs: seq<EventReq>) returns (ok: bool, events: seq<Event>)
      requires Valid()
      ensures ok == ServerSpec.CheckBusEvent(Value(), adds, removes, reqs)
      ensures ok ==> events == SanitizedAll(Value(), reqs) && EventsMade(schema, objs, reqs, events)
      ensures ok <==> (forall h :: h in adds ==> h in objs && h !in registered) &&
                      (forall h :: h in removes ==> h in objs && h in registered) &&
                      (forall i :: 0 <= i < |reqs| ==> reqs[i].handle in objs && reqs[i].handle in registered)
    {
      events := [];
      ok := true;
      for i := 0 to |adds|
        invariant ok == forall j :: 0 <= j < i ==> adds[j] in objs && adds[j] !in registered
      {
        ok := ok && adds[i] in objs && adds[i] !in registered;
      }
      assert ok == forall h :: h in adds ==> h in objs && h !in registered;
      if !ok {
        return;
      }
      for i := 0 to |removes|
        invariant ok == forall j :: 0 <= j < i ==> removes[j] in objs && removes[j] in registered
      {
        ok := ok && removes[i] in objs && removes[i] in registered;
      }
      assert ok == forall h :: h in removes ==> h in objs && h in registered;
      if !ok {
        return;
      }
      var i := 0;
      while i < |reqs|
        invariant 0 <= i <= |reqs| && |events| == i
        invariant forall j :: 0 <= j < i ==> reqs[j].handle in objs && reqs[j].handle in registered
        invariant forall j :: 0 <= j < i ==> events[j] == Sanitized(Value(), reqs[j])
      {
        if reqs[i].handle !in registered {
          ok := false;
          return;
        }
        var uid := objs[reqs[i].handle].uid;
        var info := SanitizeEvent(reqs[i].info, Allowed(schema, uid, reqs[i].event));
        events := events + [Event(reqs[i].handle, uid, reqs[i].event, info)];
        i := i + 1;
      }
      AllAnnounced(Value(), reqs);
    }

    /** obus_server_commit_bus_event, after the new objects were registered. */
    method CommitLocally(removes: seq<Handle>, events: seq<Event>)
      modifies this`objs, this`registered
      ensures Store(objs, registered) == DelistAll(CommitAll(old(Store(objs, registered)), events), removes)
      ensures (forall i :: 0 <= i < |events| && events[i].handle in old(objs) ==> old(objs)[events[i].handle].uid == events[i].uid) ==>
                EventsTook(old(objs), objs, events)
      ensures forall h :: h in registered <==> h in old(registered) && h !in removes
    {
      hide EventsTook;
      ghost var st0 := Store(objs, registered);
      DelistAllMembers(CommitAll(st0, events), removes);
      if forall i :: 0 <= i < |events| && events[i].handle in objs ==> objs[events[i].handle].uid == events[i].uid {
        CommitAllTook(st0, events);
      }
      assert CommitAll(st0, events).reg == registered by { CommitAllReg(st0, events); }
      var i := 0;
      while i < |events|
        invariant 0 <= i <= |events|
        invariant CommitAll(Store(objs, registered), events[i..]) == CommitAll(st0, events)
      {
        var e := events[i];
        assert events[i..][0] == e && events[i..][1..] == events[i + 1..];
        if e.handle in objs {
          objs := objs[e.handle := Obj(objs[e.handle].uid, Merge(objs[e.handle].info, e.info))];
        }
        i := i + 1;
      }
      ghost var st1 := Store(objs, registered);
      i := 0;
      while i < |removes|
        invariant 0 <= i <= |removes|
        invariant DelistAll(Store(objs, registered), removes[i..]) == DelistAll(st1, removes)
      {
        assert removes[i..][0] == removes[i] && removes[i..][1..] == removes[i + 1..];
        registered := Without(registered, removes[i]);
        i := i + 1;
      }
    }

    /** The bus event's packet, item by item as the encoder walks the lists. */
    method Assemble(uid: u16, adds: seq<Handle>, removes: seq<Handle>, events: seq<Event>) returns (p: Down)
      requires forall h :: h in adds || h in removes ==> h in objs
      ensures p == BusEventPkt(uid, ItemsOf(Store(objs, registered), adds), RefsOf(Store(objs, registered), removes), events)
    {
      var items: seq<Item> := [];
      for i := 0 to |adds|
        invariant |items| == i
        invariant forall j :: 0 <= j < i ==> items[j] == ItemOf(Store(objs, registered), adds[j])
      {
        items := items + [Item(adds[i], objs[adds[i]].uid, objs[adds[i]].info)];
      }
      var refs: seq<Ref> := [];
      for i := 0 to |removes|
        invariant |refs| == i
        invariant forall j :: 0 <= j < i ==> refs[j] == RefOf(Store(objs, registered), removes[j])
      {
        refs := refs + [Ref(removes[i], objs[removes[i]].uid)];
      }
      p := BusEventPkt(uid, items, refs, events);
    }

    method SendBusEvent(uid: u16, adds: seq<Handle>, removes: seq<Handle>, reqs: seq<EventReq>) returns (ok: bool)
      requires Valid() && NoDup(adds) && NoDup(removes)
      modifies this
      ensures Valid() && ok == ServerSpec.CheckBusEvent(old(Value()), adds, removes, reqs)
      ensures Value() == ServerSpec.SendBusEvent(old(Value()), uid, adds, removes, reqs)
      ensures if ok then BusEventSent(schema, old(objs), old(registered), old(peers), uid, adds, removes, reqs, objs, registered, peers)
              else objs == old(objs) && registered == old(registered) && peers == old(peers)
    {
      hide BusEventSent, EventsMade, EventsTook;
      ghost var before := Value();
      var events;
      ok, events := CheckBusEvent(adds, removes, reqs);
      if !ok {
        return;
      }
      SendBusEventSent(before, uid, adds, removes, reqs);
      assert SrvOk(ServerSpec.SendBusEvent(before, uid, adds, removes, reqs)) by {
        SendBusEventCarries(before, uid, adds, removes, reqs);
      }
      hide SrvOk;
      registered := registered + adds;
      var pkt := Assemble(uid, adds, removes, events);
      assert pkt == BusEventOf(before, uid, adds, removes, reqs);
      SendIfConnected(pkt);
      CommitLocally(removes, events);
    }

    /** obus_bus_event_destroy: the objects it was to remove are destroyed with it, unless they are
        still registered because it was never sent. */
    method DestroyBusEvent(ev: BusEvent)
      requires Valid() && ev.Valid()
      modifies this, ev, ev.nodes
      ensures Valid() && ev.Valid() && ev.adds == [] && ev.removes == []
      ensures Value() == DestroyEach(old(Value()), old(ev.removes))
      ensures ev.nodes.owner == map h | h in old(ev.nodes.owner) && old(ev.nodes.owner)[h] != ev :: old(ev.nodes.owner)[h]
    {
      var hs := ev.removes;
      ev.Detach();
      DestroyObjects(hs);
    }

    method DestroyObjects(hs: seq<Handle>)
      requires Valid()
      modifies this
      ensures Valid() && Value() == DestroyEach(old(Value()), hs)
    {
      var i := 0;
      assert hs[0..] == hs;
      while i < |hs|
        invariant 0 <= i <= |hs| && Valid() && DestroyEach(Value(), hs[i..]) == DestroyEach(old(Value()), hs)
      {
        assert hs[i..][0] == hs[i] && hs[i..][1..] == hs[i + 1..];
        var _ := DestroyObject(hs[i]);
        i := i + 1;
      }
    }

    // ---- connections ----

    method ConnectionRequest(i: nat, r: Up, userAccepts: bool)
      requires Valid() && i < |peers| && r.ConReq?
      modifies this
      ensures Valid()
      ensures Value() == ServerSpec.ConnectionRequest(old(Value()), i, r, userAccepts)
      ensures |peers| == |old(peers)| && Decided(schema, old(objs), old(registered), old(peers)[i], r, userAccepts, peers[i])
      ensures forall j :: 0 <= j < |peers| && j != i ==> peers[j] == old(peers)[j]
      ensures objs == old(objs) && registered == old(registered)
    {
      RequestDecided(Value(), i, r, userAccepts);
      hide Decided;
      ConnectionRequestOk(Value(), i, r, userAccepts);
      if peers[i].phase != PeerIdle {
        return;
      }
      var accepted := r.version == PROTOCOL_VERSION;
      if accepted && r.bus != schema.name {
        accepted := false;
      }
      if accepted && r.crc != schema.crc {
        accepted := false;
      }
      if accepted && r.client == [] {
        accepted := false;
      }
      if accepted && !userAccepts {
        accepted := false;
      }
      if accepted {
        var snapshot := Snapshot();
        peers := peers[i := Peer(PeerConnected, peers[i].down + [ConResp(true, snapshot)])];
        connected := connected + 1;
      } else {
        peers := peers[i := Peer(PeerRefused, peers[i].down + [ConResp(false, [])])];
      }
    }

    /** The object list of a connection response, in registration order. */
    method Snapshot() returns (items: seq<Item>)
      requires forall h :: h in registered ==> h in objs
      ensures items == ItemsOf(Store(objs, registered), registered)
    {
      items := [];
      for i := 0 to |registered|
        invariant |items| == i
        invariant forall j :: 0 <= j < i ==> items[j] == ItemOf(Store(objs, registered), registered[j])
      {
        items := items + [Item(registered[i], objs[registered[i]].uid, objs[registered[i]].info)];
      }
    }

    method DropPeer(i: nat)
      requires Valid() && i < |peers|
      modifies this
      ensures Valid()
      ensures Value() == ServerSpec.DropPeer(old(Value()), i)
      ensures peers == old(peers)[i := Peer(PeerGone, old(peers)[i].down)] && objs == old(objs) && registered == old(registered)
    {
      DropPeerOk(Value(), i);
      if peers[i].phase == PeerConnected {
        connected := connected - 1;
      }
      peers := peers[i := peers[i].(phase := PeerGone)];
    }

    // ---- calls ----

    /** obus_server_send_ack: only the call being served, and only once. */
    method SendAck(call: Handle, status: Status) returns (ok: bool)
      requires current.Some? ==> current.value.peer < |peers|
      modifies this`peers, this`current, this`callStatus
      ensures ok == (old(current).Some? && old(current).value.call == call)
      ensures !ok ==> peers == old(peers) && current == old(current) && callStatus == old(callStatus)
      ensures ok ==> var i := old(current).value.peer;
                peers == old(peers)[i := Sent(old(peers)[i], AckPkt(call, status))] && current == None && callStatus == status
    {
      if current == None || current.value.call != call {
        return false;
      }
      var i := current.value.peer;
      peers := peers[i := Sent(peers[i], AckPkt(call, status))];
      callStatus := status;
      current := None;
      return true;
    }

    /** A method handler: any acknowledgements it likes, for any handles. At most one is sent. */
    method Handle(attempts: seq<Attempt>)
      requires current.Some? && current.value.peer < |peers| && callStatus == InvalidStatus
      modifies this`peers, this`current, this`callStatus
      ensures var i, call := old(current).value.peer, old(current).value.call;
              var m := FirstMatch(attempts, call);
              if m.None? then peers == old(peers) && current == old(current) && callStatus == InvalidStatus
              else peers == old(peers)[i := Sent(old(peers)[i], AckPkt(call, m.value))] && current == None && callStatus == m.value
    {
      ghost var call := current.value.call;
      var j := 0;
      while j < |attempts|
        invariant 0 <= j <= |attempts|
        invariant current != None ==>
          peers == old(peers) && current == old(current) && callStatus == InvalidStatus &&
          FirstMatch(attempts[j..], call) == FirstMatch(attempts, call)
        invariant current == None ==> FirstMatch(attempts, call).Some?
        invariant current == None ==>
          var i, status := old(current).value.peer, FirstMatch(attempts, call).value;
          peers == old(peers)[i := Sent(old(peers)[i], AckPkt(call, status))] && callStatus == status
      {
        assert attempts[j..][0] == attempts[j] && attempts[j..][1..] == attempts[j + 1..];
        var _ := SendAck(attempts[j].call, attempts[j].status);
        j := j + 1;
      }
    }

    /** obus_peer_call_request: whatever the handler does, exactly one ACK carrying the call's
        handle goes to the caller, and no call is left open. */
    method CallRequest(i: nat, c: Up, attempts: seq<Attempt>)
      requires Valid() && i < |peers| && c.CallPkt?
      modifies this
      ensures Valid()
      ensures Value() == ServerSpec.CallRequest(old(Value()), i, c, attempts)
      ensures CallTaken(schema, old(objs), old(registered), old(peers), i, c, attempts, peers)
      ensures objs == old(objs) && registered == old(registered)
    {
      CallIsTaken(Value(), i, c, attempts);
      hide CallTaken;
      CallRequestOk(Value(), i, c, attempts);
      if c.handle !in objs || objs[c.handle].uid != c.uid ||
         c.uid !in schema.classes || c.mid !in schema.classes[c.uid].methods {
        return;
      }
      current := Some(Current(i, c.call));
      callStatus := InvalidStatus;
      var status;
      if c.handle !in registered {
        status := Aborted;
      } else {
        var state := MethodState(schema, objs[c.handle], c.mid);
        if state == 1 {
          Handle(attempts);
          status := Refused;
        } else if state == 2 {
          status := MethodDisabled;
        } else if state == 0 {
          status := MethodNotSupported;
        } else {
          status := Refused;
        }
      }
      if callStatus == InvalidStatus {
        var _ := SendAck(c.call, status);
      }
    }
  }
}
