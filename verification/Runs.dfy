/** One server, any number of connections, one ordered channel each way per connection.
    Every run of the system keeps the invariant below; the theorems at the end read the
    protocol's promises off it. */
module Runs {
  import opened Values
  import opened Lists
  import opened Bus
  import opened ObjectStore
  import opened ServerSpec
  import opened ClientSpec

  /** The client's end of a connection; up: packets written and not yet read by the server. */
  datatype End = End(client: Client, up: seq<Up>)

  /** Connection i is srv.peers[i] on the server and ends[i] on the client; a client that
      reconnects is a new connection. */
  datatype System = System(srv: Srv, ends: seq<End>)

  /** Loses: once the server has dropped a peer (a failed write is a packet sent and the peer
      dropped), the packets still in flight may be cut off anywhere. */
  datatype Step =
    | New(h: Handle, uid: u16, info: Struct)
    | Destroy(h: Handle)
    | Reg(h: Handle)
    | Unreg(h: Handle)
    | Send(req: EventReq)
    | SendBus(euid: u16, adds: seq<Handle>, removes: seq<Handle>, events: seq<EventReq>)
    | Connect(conreq: Up)
    | ServerTakes(i: nat, userAccepts: bool, attempts: seq<Attempt>)
    | ClientTakes(i: nat)
    | Call(i: nat, h: Handle, mid: u16, k: Handle, args: Struct)
    | PeerDrops(i: nat)
    | ClientDrops(i: nat)
    | Loses(i: nat, n: nat)

  ghost predicate Enabled(s: System, t: Step) {
    match t
    case SendBus(_, adds, removes, _) => NoDup(adds) && NoDup(removes)
    case Connect(r) => r.ConReq?
    case ServerTakes(i, _, _) => i < |s.ends| && i < |s.srv.peers| && s.srv.peers[i].phase != PeerGone && s.ends[i].up != []
    case ClientTakes(i) => i < |s.ends| && i < |s.srv.peers| && s.ends[i].client.phase != Closed && s.srv.peers[i].down != []
    case Call(i, _, _, _, _) => i < |s.ends|
    case PeerDrops(i) => i < |s.srv.peers|
    case ClientDrops(i) => i < |s.ends| && s.ends[i].client.phase != Closed
    case Loses(i, n) => i < |s.srv.peers| && i < |s.ends| && s.srv.peers[i].phase == PeerGone && n <= |s.srv.peers[i].down|
    case _ => true
  }

  function ServerTake(srv: Srv, i: nat, u: Up, userAccepts: bool, attempts: seq<Attempt>): Srv
    requires i < |srv.peers| && forall h :: h in srv.store.reg ==> h in srv.store.objs
  {
    if u.ConReq? then ConnectionRequest(srv, i, u, userAccepts) else CallRequest(srv, i, u, attempts)
  }

  /** obus_client_call: registers the call and writes its packet, or fails without effect. */
  function AfterCall(sc: Schema, e: End, h: Handle, mid: u16, k: Handle, args: Struct): End {
    if CanCall(sc, e.client, h, mid, k)
    then End(StartCall(e.client, h, k), e.up + [CallPacket(e.client, h, mid, k, args)])
    else e
  }

  ghost function Next(s: System, t: Step): System
    requires SrvOk(s.srv) && Enabled(s, t)
  {
    match t
    case New(h, uid, info) => s.(srv := NewObject(s.srv, h, uid, info))
    case Destroy(h) => s.(srv := DestroyObject(s.srv, h))
    case Reg(h) => s.(srv := Register(s.srv, h))
    case Unreg(h) => s.(srv := Unregister(s.srv, h))
    case Send(r) => s.(srv := SendEvent(s.srv, r))
    case SendBus(euid, adds, removes, events) => s.(srv := SendBusEvent(s.srv, euid, adds, removes, events))
    case Connect(r) =>
      System(s.srv.(peers := s.srv.peers + [Peer(PeerIdle, [])]), s.ends + [End(NEW_CLIENT, [r])])
    case ServerTakes(i, userAccepts, attempts) =>
      System(ServerTake(s.srv, i, s.ends[i].up[0], userAccepts, attempts),
             s.ends[i := s.ends[i].(up := s.ends[i].up[1..])])
    case ClientTakes(i) =>
      System(s.srv.(peers := s.srv.peers[i := s.srv.peers[i].(down := s.srv.peers[i].down[1..])]),
             s.ends[i := s.ends[i].(client := Receive(s.ends[i].client, s.srv.peers[i].down[0]))])
    case Call(i, h, mid, k, args) =>
      s.(ends := s.ends[i := AfterCall(s.srv.schema, s.ends[i], h, mid, k, args)])
    case PeerDrops(i) => s.(srv := DropPeer(s.srv, i))
    case ClientDrops(i) => s.(ends := s.ends[i := s.ends[i].(client := Disconnect(s.ends[i].client))])
    case Loses(i, n) =>
      s.(srv := s.srv.(peers := s.srv.peers[i := s.srv.peers[i].(down := s.srv.peers[i].down[..n])]))
  }

  ghost predicate Initial(s: System) {
    SchemaOk(s.srv.schema) && s.srv.store == Store(map[], []) && s.srv.peers == [] && s.srv.connected == 0 && s.ends == []
  }

  // ---- the invariant of one connection ----

  ghost predicate Quiet(ups: seq<Up>) { forall j :: 0 <= j < |ups| ==> ups[j].ConReq? }

  /** How the replica, the packets in flight and the registered objects fit together. */
  ghost predicate LinkOk(reg: Objects, p: Peer, c: Client) {
    c.phase == Closed ||
    match p.phase
    case PeerIdle => p.down == [] && c.phase == Connecting
    case PeerRefused => (p.down == [ConResp(false, [])] && c.phase == Connecting) || (p.down == [] && c.phase == ConnectionRefused)
    case PeerConnected => ReplayOk(ViewOf(c), p.down) && Replay(ViewOf(c), p.down) == View(Connected, reg)
    case PeerGone => ReplayOk(ViewOf(c), p.down)
  }

  ghost predicate AckIn(ps: seq<Down>, k: Handle) {
    exists j :: 0 <= j < |ps| && ps[j].AckPkt? && ps[j].call == k
  }

  /** The packet of a pending call, still on its way to the server. */
  ghost predicate IsCall(sc: Schema, u: Up, q: Pending, uid: u16) {
    u.CallPkt? && u.call == q.call && u.handle == q.obj && u.uid == uid &&
    uid in sc.classes && u.mid in sc.classes[uid].methods
  }

  ghost predicate CallIn(sc: Schema, ups: seq<Up>, q: Pending, uid: u16) {
    exists j :: 0 <= j < |ups| && IsCall(sc, ups[j], q, uid)
  }

  /** Something in flight will complete the call. */
  ghost predicate WillEnd(sc: Schema, p: Peer, ups: seq<Up>, bus: Objects, q: Pending) {
    q.obj in bus.at &&
    (CallIn(sc, ups, q, bus.at[q.obj].uid) || AckIn(p.down, q.call) || RemovedIn(p.down, q.obj))
  }

  ghost predicate Covered(sc: Schema, p: Peer, e: End) {
    p.phase == PeerConnected && e.client.phase == Connected ==>
      forall q :: q in e.client.calls ==> WillEnd(sc, p, e.up, e.client.bus, q)
  }

  ghost predicate ConnOk(sc: Schema, reg: Objects, p: Peer, e: End) {
    ClientOk(e.client) && LinkOk(reg, p, e.client) && Covered(sc, p, e) &&
    (p.phase in {PeerIdle, PeerRefused} ==> Quiet(e.up)) &&
    (p.phase == PeerIdle ==> p.down == []) &&
    (p.phase == PeerRefused ==> |p.down| <= 1 && forall j :: 0 <= j < |p.down| ==> p.down[j] == ConResp(false, []))
  }

  ghost predicate Inv(s: System) {
    SrvOk(s.srv) && |s.ends| == |s.srv.peers| &&
    forall i :: 0 <= i < |s.ends| ==> ConnOk(s.srv.schema, Registered(s.srv.store), s.srv.peers[i], s.ends[i])
  }

  // ---- broadcasts ----

  lemma CoveredAfterSend(sc: Schema, p: Peer, e: End, pkt: Down)
    requires Covered(sc, p, e)
    ensures Covered(sc, Sent(p, pkt), e)
  {
    if p.phase == PeerConnected && e.client.phase == Connected {
      forall q | q in e.client.calls
        ensures WillEnd(sc, Sent(p, pkt), e.up, e.client.bus, q)
      {
        WillEndAfterSend(sc, p, e.up, e.client.bus, q, pkt);
      }
    }
  }

  lemma WillEndAfterSend(sc: Schema, p: Peer, ups: seq<Up>, bus: Objects, q: Pending, pkt: Down)
    requires WillEnd(sc, p, ups, bus, q)
    ensures WillEnd(sc, Sent(p, pkt), ups, bus, q)
  {
    var ps := Sent(p, pkt).down;
    if AckIn(p.down, q.call) {
      var j :| 0 <= j < |p.down| && p.down[j].AckPkt? && p.down[j].call == q.call;
      assert ps[j] == p.down[j];
    } else if RemovedIn(p.down, q.obj) {
      var j :| 0 <= j < |p.down| && RemovesHandle(p.down[j], q.obj);
      assert RemovesHandle(ps[j], q.obj);
    }
  }

  lemma LinkAfterSend(reg: Objects, reg': Objects, p: Peer, c: Client, pkt: Down)
    requires p.phase == PeerConnected && LinkOk(reg, p, c)
    requires Applicable(View(Connected, reg), pkt) && Apply(View(Connected, reg), pkt) == View(Connected, reg')
    ensures LinkOk(reg', Sent(p, pkt), c)
  {
    ReplayAppend(ViewOf(c), p.down, pkt);
  }

  lemma BroadcastKeeps(s: System, srv': Srv, pkt: Down)
    requires Inv(s) && SrvOk(srv') && Carries(s.srv, srv', pkt)
    ensures Inv(s.(srv := srv'))
  {
    var reg, reg' := Registered(s.srv.store), Registered(srv'.store);
    forall i | 0 <= i < |s.ends|
      ensures ConnOk(srv'.schema, reg', srv'.peers[i], s.ends[i])
    {
      var p, e := s.srv.peers[i], s.ends[i];
      if p.phase == PeerConnected {
        LinkAfterSend(reg, reg', p, e.client, pkt);
        CoveredAfterSend(s.srv.schema, p, e, pkt);
      }
    }
  }

  /** A server-only step without a packet: the registered objects do not change. */
  lemma SilentKeeps(s: System, srv': Srv)
    requires Inv(s) && SrvOk(srv') && srv'.peers == s.srv.peers && srv'.schema == s.srv.schema
    requires Registered(srv'.store) == Registered(s.srv.store)
    ensures Inv(s.(srv := srv'))
  {
  }

  /** A step that touches one connection only. */
  lemma OneConnectionKeeps(s: System, srv': Srv, i: nat, p': Peer, e': End)
    requires Inv(s) && i < |s.ends| && SrvOk(srv')
    requires srv'.schema == s.srv.schema && srv'.store == s.srv.store && srv'.peers == s.srv.peers[i := p']
    requires ConnOk(s.srv.schema, Registered(s.srv.store), p', e')
    ensures Inv(System(srv', s.ends[i := e']))
  {
  }

  // ---- the server takes a packet ----

  lemma AcceptKeeps(srv: Srv, i: nat, r: Up, userAccepts: bool, e: End)
    requires SrvOk(srv) && i < |srv.peers| && r.ConReq? && srv.peers[i].phase == PeerIdle
    requires ConnOk(srv.schema, Registered(srv.store), srv.peers[i], e)
    ensures var p' := ConnectionRequest(srv, i, r, userAccepts).peers[i];
            ConnOk(srv.schema, Registered(srv.store), p', e)
  {
    var p' := ConnectionRequest(srv, i, r, userAccepts).peers[i];
    if p'.phase == PeerConnected && e.client.phase != Closed {
      SnapshotMatches(srv.store);
      var v := ViewOf(e.client);
      assert p'.down == [ConResp(true, ItemsOf(srv.store, srv.store.reg))];
      ReplayAppend(v, [], p'.down[0]);
      assert [] + [p'.down[0]] == p'.down;
    }
  }

  lemma TakeUpKeeps(sc: Schema, reg: Objects, p: Peer, e: End)
    requires ConnOk(sc, reg, p, e) && e.up != [] && e.up[0].ConReq?
    ensures ConnOk(sc, reg, p, e.(up := e.up[1..]))
  {
    var e' := e.(up := e.up[1..]);
    if p.phase == PeerConnected && e.client.phase == Connected {
      forall q | q in e.client.calls
        ensures WillEnd(sc, p, e'.up, e.client.bus, q)
      {
        RestStillEnds(sc, p, e.up, e.client.bus, q);
      }
    }
  }

  lemma RestStillEnds(sc: Schema, p: Peer, ups: seq<Up>, bus: Objects, q: Pending)
    requires WillEnd(sc, p, ups, bus, q) && ups != [] && !IsCall(sc, ups[0], q, bus.at[q.obj].uid)
    ensures WillEnd(sc, p, ups[1..], bus, q)
  {
    var uid := bus.at[q.obj].uid;
    if CallIn(sc, ups, q, uid) {
      var j :| 0 <= j < |ups| && IsCall(sc, ups[j], q, uid);
      assert IsCall(sc, ups[1..][j - 1], q, uid);
    }
  }

  /** A call the server cannot decode is on an object whose removal is already in flight. */
  lemma UndecodableCallIsRemoved(srv: Srv, p: Peer, c: Client, u: Up, q: Pending)
    requires SrvOk(srv) && c.phase == Connected && p.phase == PeerConnected
    requires LinkOk(Registered(srv.store), p, c)
    requires q.obj in c.bus.at && IsCall(srv.schema, u, q, c.bus.at[q.obj].uid) && !Decodes(srv, u)
    ensures RemovedIn(p.down, q.obj)
  {
    LostOnlyByRemoval(ViewOf(c), p.down, q.obj);
  }

  lemma CallTakenEnds(srv: Srv, i: nat, e: End, attempts: seq<Attempt>, q: Pending)
    requires SrvOk(srv) && i < |srv.peers| && e.up != [] && e.up[0].CallPkt?
    requires srv.peers[i].phase == PeerConnected && e.client.phase == Connected
    requires LinkOk(Registered(srv.store), srv.peers[i], e.client)
    requires WillEnd(srv.schema, srv.peers[i], e.up, e.client.bus, q)
    ensures WillEnd(srv.schema, CallRequest(srv, i, e.up[0], attempts).peers[i], e.up[1..], e.client.bus, q)
  {
    var p, u := srv.peers[i], e.up[0];
    if IsCall(srv.schema, u, q, e.client.bus.at[q.obj].uid) {
      if Decodes(srv, u) {
        var ps := CallRequest(srv, i, u, attempts).peers[i].down;
        assert ps[|p.down|].AckPkt? && ps[|p.down|].call == q.call;
      } else {
        UndecodableCallIsRemoved(srv, p, e.client, u, q);
      }
    } else {
      RestStillEnds(srv.schema, p, e.up, e.client.bus, q);
      if Decodes(srv, u) {
        WillEndAfterSend(srv.schema, p, e.up[1..], e.client.bus, q, AckPkt(u.call, AckStatus(srv, u, attempts)));
      }
    }
  }

  lemma TakeCallKeeps(srv: Srv, i: nat, e: End, attempts: seq<Attempt>)
    requires SrvOk(srv) && i < |srv.peers| && e.up != [] && e.up[0].CallPkt?
    requires ConnOk(srv.schema, Registered(srv.store), srv.peers[i], e) && srv.peers[i].phase != PeerGone
    ensures var p' := CallRequest(srv, i, e.up[0], attempts).peers[i];
            ConnOk(srv.schema, Registered(srv.store), p', e.(up := e.up[1..]))
  {
    var p, c := srv.peers[i], e.client;
    var p', e' := CallRequest(srv, i, e.up[0], attempts).peers[i], e.(up := e.up[1..]);
    assert p.phase == PeerConnected;
    if p' != p {
      var ack := AckPkt(e.up[0].call, AckStatus(srv, e.up[0], attempts));
      LinkAfterSend(Registered(srv.store), Registered(srv.store), p, c, ack);
    }
    if c.phase == Connected {
      forall q | q in c.calls
        ensures WillEnd(srv.schema, p', e'.up, c.bus, q)
      {
        CallTakenEnds(srv, i, e, attempts, q);
      }
    }
  }

  lemma TakeConReqKeeps(srv: Srv, i: nat, e: End, userAccepts: bool)
    requires SrvOk(srv) && i < |srv.peers| && e.up != [] && e.up[0].ConReq?
    requires ConnOk(srv.schema, Registered(srv.store), srv.peers[i], e)
    ensures var p' := ConnectionRequest(srv, i, e.up[0], userAccepts).peers[i];
            ConnOk(srv.schema, Registered(srv.store), p', e.(up := e.up[1..]))
  {
    TakeUpKeeps(srv.schema, Registered(srv.store), srv.peers[i], e);
    if srv.peers[i].phase == PeerIdle {
      AcceptKeeps(srv, i, e.up[0], userAccepts, e.(up := e.up[1..]));
    }
  }

  lemma ServerTakesConReq(s: System, i: nat, userAccepts: bool, attempts: seq<Attempt>)
    requires Inv(s) && Enabled(s, ServerTakes(i, userAccepts, attempts)) && s.ends[i].up[0].ConReq?
    ensures Inv(Next(s, ServerTakes(i, userAccepts, attempts)))
  {
    hide ConnOk;
    var e := s.ends[i];
    var srv' := ConnectionRequest(s.srv, i, e.up[0], userAccepts);
    ConnectionRequestOk(s.srv, i, e.up[0], userAccepts);
    TakeConReqKeeps(s.srv, i, e, userAccepts);
    OneConnectionKeeps(s, srv', i, srv'.peers[i], e.(up := e.up[1..]));
  }

  lemma ServerTakesCall(s: System, i: nat, userAccepts: bool, attempts: seq<Attempt>)
    requires Inv(s) && Enabled(s, ServerTakes(i, userAccepts, attempts)) && s.ends[i].up[0].CallPkt?
    ensures Inv(Next(s, ServerTakes(i, userAccepts, attempts)))
  {
    hide ConnOk;
    var e := s.ends[i];
    var srv' := CallRequest(s.srv, i, e.up[0], attempts);
    CallRequestOk(s.srv, i, e.up[0], attempts);
    TakeCallKeeps(s.srv, i, e, attempts);
    OneConnectionKeeps(s, srv', i, srv'.peers[i], e.(up := e.up[1..]));
  }

  // ---- the client takes a packet ----

  /** The head of the channel is applicable, in every phase of the peer. */
  lemma HeadApplicable(reg: Objects, p: Peer, c: Client)
    requires LinkOk(reg, p, c) && ClientOk(c) && c.phase != Closed && p.down != []
    ensures Applicable(ViewOf(c), p.down[0])
  {
  }

  lemma LinkAfterTake(reg: Objects, p: Peer, c: Client)
    requires LinkOk(reg, p, c) && ClientOk(c) && c.phase != Closed && p.down != []
    ensures LinkOk(reg, p.(down := p.down[1..]), Receive(c, p.down[0]))
  {
    ReceiveView(c, p.down[0]);
  }

  /** The calls still pending after a packet were pending before it, and the packet did not
      end them. */
  lemma StillPending(c: Client, p: Down, q: Pending)
    requires BodyOk(c) && Applicable(ViewOf(c), p) && q in Receive(c, p).calls
    ensures q in c.calls && !RemovesHandle(p, q.obj) && !(p.AckPkt? && p.call == q.call)
  {
    match p
    case RemovePkt(r) => KeptCallsSpec(c.calls, r.handle);
    case AckPkt(k, _) => OtherCallsSpec(c.calls, k);
    case BusEventPkt(_, adds, removes, events) =>
      ResolveHeldRefs(c.bus, removes);
      var d := c.(bus := UpdateAll(AddAll(c.bus, adds), ResolveEvents(c.bus, events)));
      GrowOk(c, adds, ResolveEvents(c.bus, events));
      DropObjectsOk(d, Handles(removes));
      forall j | 0 <= j < |removes|
        ensures removes[j].handle != q.obj
      {
        assert Handles(removes)[j] in Handles(removes);
      }
    case _ =>
  }

  lemma EndsAfterTake(sc: Schema, p: Peer, ups: seq<Up>, c: Client, q: Pending)
    requires ClientOk(c) && c.phase == Connected && p.down != [] && Applicable(ViewOf(c), p.down[0])
    requires q in Receive(c, p.down[0]).calls && WillEnd(sc, p, ups, c.bus, q)
    ensures WillEnd(sc, p.(down := p.down[1..]), ups, Receive(c, p.down[0]).bus, q)
  {
    var pkt := p.down[0];
    StillPending(c, pkt, q);
    ApplyKeeps(ViewOf(c), pkt, q.obj);
    ReceiveView(c, pkt);
    if AckIn(p.down, q.call) {
      var j :| 0 <= j < |p.down| && p.down[j].AckPkt? && p.down[j].call == q.call;
      assert p.down[1..][j - 1] == p.down[j];
    } else if RemovedIn(p.down, q.obj) {
      var j :| 0 <= j < |p.down| && RemovesHandle(p.down[j], q.obj);
      assert RemovesHandle(p.down[1..][j - 1], q.obj);
    }
  }

  lemma ClientTakeKeeps(sc: Schema, reg: Objects, p: Peer, e: End)
    requires ConnOk(sc, reg, p, e) && e.client.phase != Closed && p.down != []
    ensures ConnOk(sc, reg, p.(down := p.down[1..]), e.(client := Receive(e.client, p.down[0])))
  {
    var c := e.client;
    HeadApplicable(reg, p, c);
    ReceiveOk(c, p.down[0]);
    LinkAfterTake(reg, p, c);
    var p', c' := p.(down := p.down[1..]), Receive(c, p.down[0]);
    forall q | p.phase == PeerConnected && c'.phase == Connected && q in c'.calls
      ensures WillEnd(sc, p', e.up, c'.bus, q)
    {
      StillPending(c, p.down[0], q);
      if c.phase == Connected {
        EndsAfterTake(sc, p, e.up, c, q);
      } else {
        PendingNeedsObject(c);
      }
    }
  }

  // ---- calls and disconnections ----

  lemma CallKeeps(sc: Schema, reg: Objects, p: Peer, e: End, h: Handle, mid: u16, k: Handle, args: Struct)
    requires ConnOk(sc, reg, p, e) && CanCall(sc, e.client, h, mid, k)
    ensures ConnOk(sc, reg, p, End(StartCall(e.client, h, k), e.up + [CallPacket(e.client, h, mid, k, args)]))
  {
    StartCallOk(e.client, h, k);
    var e' := End(StartCall(e.client, h, k), e.up + [CallPacket(e.client, h, mid, k, args)]);
    if p.phase == PeerConnected {
      forall q | q in e'.client.calls
        ensures WillEnd(sc, p, e'.up, e'.client.bus, q)
      {
        if q in e.client.calls {
          var uid := e.client.bus.at[q.obj].uid;
          if CallIn(sc, e.up, q, uid) {
            var j :| 0 <= j < |e.up| && IsCall(sc, e.up[j], q, uid);
            assert IsCall(sc, e'.up[j], q, uid);
          }
        } else {
          assert IsCall(sc, e'.up[|e.up|], q, e.client.bus.at[h].uid);
        }
      }
    }
  }

  lemma DropKeeps(sc: Schema, reg: Objects, p: Peer, e: End)
    requires ConnOk(sc, reg, p, e)
    ensures ConnOk(sc, reg, p.(phase := PeerGone), e)
  {
    var v := ViewOf(e.client);
    if e.client.phase != Closed && p.phase == PeerRefused && p.down != [] {
      ReplayAppend(v, [], p.down[0]);
      assert [] + [p.down[0]] == p.down;
    }
  }

  lemma DisconnectKeeps(sc: Schema, reg: Objects, p: Peer, e: End)
    requires ConnOk(sc, reg, p, e)
    ensures ConnOk(sc, reg, p, e.(client := Disconnect(e.client)))
  {
    DisconnectOk(e.client);
  }

  // ---- every step, every run ----

  lemma ServerCallKeeps(s: System, t: Step)
    requires Inv(s) && Enabled(s, t)
    requires t.New? || t.Destroy? || t.Reg? || t.Unreg? || t.Send? || t.SendBus?
    ensures Inv(Next(s, t))
  {
    var srv := s.srv;
    match t
    case New(h, uid, info) => NewObjectOk(srv, h, uid, info); SilentKeeps(s, Next(s, t).srv);
    case Destroy(h) => DestroyObjectOk(srv, h); SilentKeeps(s, Next(s, t).srv);
    case Reg(h) =>
      if h in srv.store.objs && h !in srv.store.reg {
        RegisterCarries(srv, h);
        BroadcastKeeps(s, Next(s, t).srv, AddPkt(ItemOf(srv.store, h)));
      }
    case Unreg(h) =>
      if h in srv.store.reg {
        UnregisterCarries(srv, h);
        BroadcastKeeps(s, Next(s, t).srv, RemovePkt(RefOf(srv.store, h)));
      }
    case Send(r) =>
      if r.handle in srv.store.reg {
        SendEventCarries(srv, r);
        BroadcastKeeps(s, Next(s, t).srv, EventPkt(Sanitized(srv, r)));
      }
    case SendBus(euid, adds, removes, events) =>
      if CheckBusEvent(srv, adds, removes, events) {
        SendBusEventCarries(srv, euid, adds, removes, events);
        BroadcastKeeps(s, Next(s, t).srv, BusEventOf(srv, euid, adds, removes, events));
      }
  }

  lemma NewConnectionOk(sc: Schema, reg: Objects, r: Up)
    requires r.ConReq?
    ensures ConnOk(sc, reg, Peer(PeerIdle, []), End(NEW_CLIENT, [r]))
  {
  }

  lemma ConnectKeeps(s: System, r: Up)
    requires Inv(s) && r.ConReq?
    ensures Inv(Next(s, Connect(r)))
  {
    hide ConnOk;
    var s' := Next(s, Connect(r));
    CountAppend(s.srv.peers, Peer(PeerIdle, []));
    var reg := Registered(s.srv.store);
    assert Registered(s'.srv.store) == reg;
    forall i | 0 <= i < |s'.ends|
      ensures ConnOk(s.srv.schema, reg, s'.srv.peers[i], s'.ends[i])
    {
      if i == |s.ends| {
        NewConnectionOk(s.srv.schema, reg, r);
      } else {
        assert s'.ends[i] == s.ends[i] && s'.srv.peers[i] == s.srv.peers[i];
      }
    }
  }

  lemma ClientTakesKeeps(s: System, i: nat)
    requires Inv(s) && Enabled(s, ClientTakes(i))
    ensures Inv(Next(s, ClientTakes(i)))
  {
    hide ConnOk;
    var p, e := s.srv.peers[i], s.ends[i];
    var p' := p.(down := p.down[1..]);
    ClientTakeKeeps(s.srv.schema, Registered(s.srv.store), p, e);
    CountUpdate(s.srv.peers, i, p');
    OneConnectionKeeps(s, s.srv.(peers := s.srv.peers[i := p']), i, p', e.(client := Receive(e.client, p.down[0])));
  }

  lemma ClientStepKeeps(s: System, i: nat, e': End)
    requires Inv(s) && i < |s.ends|
    requires ConnOk(s.srv.schema, Registered(s.srv.store), s.srv.peers[i], e')
    ensures Inv(s.(ends := s.ends[i := e']))
  {
    hide ConnOk;
    OneConnectionKeeps(s, s.srv, i, s.srv.peers[i], e');
  }

  lemma CallStepKeeps(s: System, i: nat, h: Handle, mid: u16, k: Handle, args: Struct)
    requires Inv(s) && i < |s.ends|
    ensures Inv(Next(s, Call(i, h, mid, k, args)))
  {
    hide ConnOk;
    var e := s.ends[i];
    if CanCall(s.srv.schema, e.client, h, mid, k) {
      CallKeeps(s.srv.schema, Registered(s.srv.store), s.srv.peers[i], e, h, mid, k, args);
    }
    ClientStepKeeps(s, i, AfterCall(s.srv.schema, e, h, mid, k, args));
  }

  lemma ClientDropsKeeps(s: System, i: nat)
    requires Inv(s) && Enabled(s, ClientDrops(i))
    ensures Inv(Next(s, ClientDrops(i)))
  {
    hide ConnOk;
    DisconnectKeeps(s.srv.schema, Registered(s.srv.store), s.srv.peers[i], s.ends[i]);
    ClientStepKeeps(s, i, s.ends[i].(client := Disconnect(s.ends[i].client)));
  }

  lemma PeerDropsKeeps(s: System, i: nat)
    requires Inv(s) && i < |s.srv.peers|
    ensures Inv(Next(s, PeerDrops(i)))
  {
    hide ConnOk;
    DropPeerOk(s.srv, i);
    DropKeeps(s.srv.schema, Registered(s.srv.store), s.srv.peers[i], s.ends[i]);
    OneConnectionKeeps(s, DropPeer(s.srv, i), i, s.srv.peers[i].(phase := PeerGone), s.ends[i]);
    assert s.ends[i := s.ends[i]] == s.ends;
  }

  lemma LosesKeeps(s: System, i: nat, n: nat)
    requires Inv(s) && Enabled(s, Loses(i, n))
    ensures Inv(Next(s, Loses(i, n)))
  {
    hide ConnOk;
    var p := s.srv.peers[i];
    var p' := p.(down := p.down[..n]);
    CutKeeps(s.srv.schema, Registered(s.srv.store), p, s.ends[i], n);
    CountUpdate(s.srv.peers, i, p');
    OneConnectionKeeps(s, s.srv.(peers := s.srv.peers[i := p']), i, p', s.ends[i]);
    assert s.ends[i := s.ends[i]] == s.ends;
  }

  lemma CutKeeps(sc: Schema, reg: Objects, p: Peer, e: End, n: nat)
    requires ConnOk(sc, reg, p, e) && p.phase == PeerGone && n <= |p.down|
    ensures ConnOk(sc, reg, p.(down := p.down[..n]), e)
  {
    if e.client.phase != Closed {
      ReplayConcat(ViewOf(e.client), p.down[..n], p.down[n..]);
      assert p.down[..n] + p.down[n..] == p.down;
    }
  }

  lemma NextKeeps(s: System, t: Step)
    requires Inv(s) && Enabled(s, t)
    ensures Inv(Next(s, t))
  {
    match t
    case Connect(r) => ConnectKeeps(s, r);
    case ServerTakes(i, userAccepts, attempts) =>
      if s.ends[i].up[0].ConReq? {
        ServerTakesConReq(s, i, userAccepts, attempts);
      } else {
        ServerTakesCall(s, i, userAccepts, attempts);
      }
    case PeerDrops(i) => PeerDropsKeeps(s, i);
    case ClientTakes(i) => ClientTakesKeeps(s, i);
    case Call(i, h, mid, k, args) => CallStepKeeps(s, i, h, mid, k, args);
    case ClientDrops(i) => ClientDropsKeeps(s, i);
    case Loses(i, n) => LosesKeeps(s, i, n);
    case _ => ServerCallKeeps(s, t);
  }

  ghost predicate TakesTo(r: System, t: Step, s: System) {
    SrvOk(r.srv) && Enabled(r, t) && Next(r, t) == s
  }

  /** A run: the states it goes through and the steps between them. */
  ghost predicate IsRun(states: seq<System>, steps: seq<Step>) {
    |states| == |steps| + 1 && Initial(states[0]) &&
    forall k :: 0 <= k < |steps| ==> TakesTo(states[k], steps[k], states[k + 1])
  }

  ghost predicate Reachable(s: System) {
    exists states, steps :: IsRun(states, steps) && states[|states| - 1] == s
  }

  lemma StartsWell(s: System)
    requires Initial(s)
    ensures Inv(s)
  {
  }

  lemma {:induction false} RunKeeps(states: seq<System>, steps: seq<Step>, k: nat)
    requires IsRun(states, steps) && k < |states|
    ensures Inv(states[k])
  {
    hide Inv, Next, Enabled;
    if k == 0 {
      StartsWell(states[0]);
    } else {
      RunKeeps(states, steps, k - 1);
      assert TakesTo(states[k - 1], steps[k - 1], states[k - 1 + 1]);
      NextKeeps(states[k - 1], steps[k - 1]);
    }
  }

  lemma ReachableInv(s: System)
    requires Reachable(s)
    ensures Inv(s)
  {
    var states, steps :| IsRun(states, steps) && states[|states| - 1] == s;
    RunKeeps(states, steps, |states| - 1);
  }

  /** TakesTo shuts out no step: from a reachable state every enabled step leads to another one. */
  lemma EveryEnabledStepIsTaken(s: System, t: Step)
    requires Reachable(s)
    ensures SrvOk(s.srv) && (Enabled(s, t) ==> TakesTo(s, t, Next(s, t)) && Reachable(Next(s, t)))
  {
    ReachableInv(s);
    if Enabled(s, t) {
      var states, steps :| IsRun(states, steps) && states[|states| - 1] == s;
      RunExtends(states, steps, t, Next(s, t));
    }
  }

  lemma RunExtends(states: seq<System>, steps: seq<Step>, t: Step, s: System)
    requires IsRun(states, steps) && TakesTo(states[|states| - 1], t, s)
    ensures Reachable(s)
  {
    hide TakesTo, Initial;
    var states', steps' := states + [s], steps + [t];
    assert IsRun(states', steps') && states'[|states'| - 1] == s;
  }

  // ---- what the invariant promises ----

  /** Replica convergence: replaying what is in flight gives exactly the server's registered
      objects, handle, type, field values and list order. */
  lemma ReplicaConvergence(s: System, i: nat)
    requires Reachable(s) && i < |s.ends| && i < |s.srv.peers|
    requires s.srv.peers[i].phase == PeerConnected && s.ends[i].client.phase != Closed
    ensures Replay(ViewOf(s.ends[i].client), s.srv.peers[i].down) == View(Connected, Registered(s.srv.store))
    ensures s.srv.peers[i].down == [] ==> s.ends[i].client.bus == Registered(s.srv.store)
  {
    ReachableInv(s);
    assert ConnOk(s.srv.schema, Registered(s.srv.store), s.srv.peers[i], s.ends[i]);
  }

  /** Every packet a client takes is applicable to its replica, also after the server has
      dropped the peer. */
  lemma DeliveryAlwaysApplicable(s: System, i: nat)
    requires Reachable(s) && Enabled(s, ClientTakes(i))
    ensures Applicable(ViewOf(s.ends[i].client), s.srv.peers[i].down[0])
  {
    ReachableInv(s);
    assert ConnOk(s.srv.schema, Registered(s.srv.store), s.srv.peers[i], s.ends[i]);
    HeadApplicable(Registered(s.srv.store), s.srv.peers[i], s.ends[i].client);
  }

  /** Every call made is pending or was answered, exactly once, whatever handles are reused. */
  lemma NoCallLostOrAnsweredTwice(s: System, i: nat, id: nat)
    requires Reachable(s) && i < |s.ends| && id < s.ends[i].client.next
    ensures var c := s.ends[i].client;
            PendingIds(c.calls)[id] + LoggedIds(c.log)[id] == 1
    ensures s.ends[i].client.phase == Closed ==> LoggedIds(s.ends[i].client.log)[id] == 1
  {
    ReachableInv(s);
    var c := s.ends[i].client;
    assert ConnOk(s.srv.schema, Registered(s.srv.store), s.srv.peers[i], s.ends[i]);
    ExactlyOnce(c, id);
    if c.phase == Closed && c.calls != [] {
      PendingNeedsObject(c);
    }
  }

  /** When both channels of a connected pair are empty no call is pending. */
  lemma QuiescentMeansAnswered(s: System, i: nat)
    requires Reachable(s) && i < |s.ends| && i < |s.srv.peers|
    requires s.srv.peers[i].phase == PeerConnected && s.ends[i].client.phase != Closed
    requires s.srv.peers[i].down == [] && s.ends[i].up == []
    ensures s.ends[i].client.calls == []
  {
    ReplicaConvergence(s, i);
    ReachableInv(s);
    var p, e := s.srv.peers[i], s.ends[i];
    assert ConnOk(s.srv.schema, Registered(s.srv.store), p, e);
    if e.client.calls != [] {
      PendingNeedsTraffic(s.srv.schema, p, e);
    }
  }

  lemma PendingNeedsTraffic(sc: Schema, p: Peer, e: End)
    requires Covered(sc, p, e) && p.phase == PeerConnected && e.client.phase == Connected && e.client.calls != []
    ensures p.down != [] || e.up != []
  {
    assert WillEnd(sc, p, e.up, e.client.bus, e.client.calls[0]);
  }

  /** The counter equals the number of connected peers; idle peers were sent nothing and
      refused peers at most their refusal. */
  lemma PeerAccounting(s: System)
    requires Reachable(s)
    ensures s.srv.connected == CountConnected(s.srv.peers)
    ensures forall i :: 0 <= i < |s.srv.peers| && s.srv.peers[i].phase == PeerIdle ==> s.srv.peers[i].down == []
    ensures forall i, j :: 0 <= i < |s.srv.peers| && 0 <= j < |s.srv.peers[i].down| && s.srv.peers[i].phase == PeerRefused ==>
              s.srv.peers[i].down[j] == ConResp(false, [])
  {
    ReachableInv(s);
    forall i | 0 <= i < |s.srv.peers|
      ensures ConnOk(s.srv.schema, Registered(s.srv.store), s.srv.peers[i], s.ends[i])
    {
    }
  }
}
