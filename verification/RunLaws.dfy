/** Laws of whole runs that speak of what was asked for: who gets in, which fields events touch, and
    what a call on its way carries. */
module RunLaws {
  import opened Values
  import opened Lists
  import opened Bytes
  import opened Bus
  import opened ObjectStore
  import opened ServerSpec
  import opened ClientSpec
  import opened Laws
  import opened Runs
  import opened Answers
  import M = Mistakes
  import Q = Requests

  // ---- who gets in ----

  /** The step that admits peer i: it was idle, its request carries protocol version 2, the server's
      bus name, the server's checksum and a client name, and the user accepts. */
  ghost predicate Admits(s: System, t: Step, i: nat) {
    t.ServerTakes? && t.i == i && t.userAccepts && i < |s.ends| && i < |s.srv.peers| &&
    s.srv.peers[i].phase == PeerIdle && s.ends[i].up != [] &&
    var u := s.ends[i].up[0];
    u.ConReq? && u.version == 2 && u.bus == s.srv.schema.name && u.crc == s.srv.schema.crc && u.client != []
  }

  lemma BecomesConnected(s: System, t: Step, i: nat)
    requires SrvOk(s.srv) && Enabled(s, t) && i < |Next(s, t).srv.peers| && Next(s, t).srv.peers[i].phase == PeerConnected
    ensures (i < |s.srv.peers| && s.srv.peers[i].phase == PeerConnected) || Admits(s, t, i)
  {
    hide SrvOk, Decodes, AckStatus, ItemsOf, Receive, CheckBusEvent, SanitizedAll, Commit, CommitBusEventAt, NewObject, DestroyObject;
    ObjectStepsKeepPeers(s, t);
    if t.ServerTakes? && s.ends[t.i].up[0].ConReq? {
      assert forall h :: h in s.srv.store.reg ==> h in s.srv.store.objs by { RegisteredExist(s.srv); }
      RequestDecided(s.srv, t.i, s.ends[t.i].up[0], t.userAccepts);
    }
  }

  lemma RegisteredExist(s: Srv)
    requires SrvOk(s)
    ensures forall h :: h in s.store.reg ==> h in s.store.objs
  {
  }

  lemma ObjectStepsKeepPeers(s: System, t: Step)
    requires SrvOk(s.srv) && Enabled(s, t)
    ensures t.New? || t.Destroy? ==> Next(s, t).srv.peers == s.srv.peers
  {
  }

  /** In every state of every run a connected peer was admitted by an earlier step. */
  lemma {:induction false} ConnectedWasAdmitted(states: seq<System>, steps: seq<Step>, n: nat, i: nat)
    requires IsRun(states, steps) && n < |states| && i < |states[n].srv.peers| && states[n].srv.peers[i].phase == PeerConnected
    ensures exists m :: 0 <= m < n && Admits(states[m], steps[m], i)
    decreases n
  {
    hide Next, Enabled, Admits, SrvOk;
    if n > 0 {
      assert TakesTo(states[n - 1], steps[n - 1], states[n - 1 + 1]);
      BecomesConnected(states[n - 1], steps[n - 1], i);
      if i < |states[n - 1].srv.peers| && states[n - 1].srv.peers[i].phase == PeerConnected {
        ConnectedWasAdmitted(states, steps, n - 1, i);
      }
    }
  }

  /** And what a request decides: an idle peer is connected and sent the registered objects if the
      step admits it; otherwise it is refused, with exactly one refusal. */
  lemma RequestDecides(s: System, t: Step, i: nat, s': System)
    requires Inv(s) && t.ServerTakes? && t.i == i && TakesTo(s, t, s')
    requires s.srv.peers[i].phase == PeerIdle && s.ends[i].up[0].ConReq?
    ensures i < |s'.srv.peers|
    ensures var p := s'.srv.peers[i];
            if Admits(s, t, i) then
              p.phase == PeerConnected && |p.down| == 1 && p.down[0].ConResp? && p.down[0].accepted &&
              ItemsMade(s.srv.store.objs, s.srv.store.reg, p.down[0].snapshot)
            else p == Peer(PeerRefused, [ConResp(false, [])])
  {
    hide SrvOk, ClientOk, LinkOk, Covered, ItemsMade, CallRequest;
    SameSizes(s);
    assert ConnOk(s.srv.schema, Registered(s.srv.store), s.srv.peers[i], s.ends[i]);
    RegisteredExist(s.srv);
    RequestDecided(s.srv, i, s.ends[i].up[0], t.userAccepts);
  }

  // ---- which fields events touch ----

  /** The event carries only fields it declares. */
  ghost predicate Lawful(sc: Schema, e: Event) { forall f :: f in e.info ==> Declares(sc, e.uid, e.event, f) }

  ghost predicate LawfulDown(sc: Schema, p: Down) {
    match p
    case EventPkt(e) => Lawful(sc, e)
    case BusEventPkt(_, _, _, es) => forall i :: 0 <= i < |es| ==> Lawful(sc, es[i])
    case _ => true
  }

  ghost predicate LawfulPeer(sc: Schema, p: Peer) { forall j :: 0 <= j < |p.down| ==> LawfulDown(sc, p.down[j]) }

  ghost predicate AllLawful(s: Srv) { forall i :: 0 <= i < |s.peers| ==> LawfulPeer(s.schema, s.peers[i]) }

  lemma AnnouncedIsLawful(sc: Schema, uid: u16, r: EventReq, e: Event)
    requires Announces(sc, uid, r, e)
    ensures Lawful(sc, e)
  {
  }

  lemma GotLawful(sc: Schema, peers: seq<Peer>, peers': seq<Peer>, pkt: Down)
    requires AllGot(peers, peers', pkt) && LawfulDown(sc, pkt) && forall i :: 0 <= i < |peers| ==> LawfulPeer(sc, peers[i])
    ensures forall i :: 0 <= i < |peers'| ==> LawfulPeer(sc, peers'[i])
  {
    hide LawfulDown;
    forall i | 0 <= i < |peers'|
      ensures LawfulPeer(sc, peers'[i])
    {
      assert LawfulPeer(sc, peers[i]);
    }
  }

  lemma SendEventLawful(s: Srv, r: EventReq)
    requires AllLawful(s) && (forall h :: h in s.store.reg ==> h in s.store.objs)
    ensures AllLawful(SendEvent(s, r))
  {
    hide LawfulPeer, EventTook, Announces, Lawful, SameObject;
    if r.handle in s.store.reg {
      SendEventSent(s, r);
      var s' := SendEvent(s, r);
      var e :| Announces(s.schema, s.store.objs[r.handle].uid, r, e) && AllGot(s.peers, s'.peers, EventPkt(e));
      AnnouncedIsLawful(s.schema, s.store.objs[r.handle].uid, r, e);
      GotLawful(s.schema, s.peers, s'.peers, EventPkt(e));
    }
  }

  lemma SendBusEventLawful(s: Srv, uid: u16, adds: seq<Handle>, removes: seq<Handle>, rs: seq<EventReq>)
    requires AllLawful(s)
    ensures AllLawful(SendBusEvent(s, uid, adds, removes, rs))
  {
    hide LawfulPeer, EventsTook, Announces, Lawful, ItemsMade, RefsMade, CheckBusEvent, AllGot, CommitBusEventAt, BusEventOf;
    if CheckBusEvent(s, adds, removes, rs) {
      SendBusEventSent(s, uid, adds, removes, rs);
      var s' := SendBusEvent(s, uid, adds, removes, rs);
      var items, refs, es :|
        ItemsMade(s.store.objs, adds, items) && RefsMade(s.store.objs, removes, refs) && EventsMade(s.schema, s.store.objs, rs, es) &&
        AllGot(s.peers, s'.peers, BusEventPkt(uid, items, refs, es)) && EventsTook(s.store.objs, s'.store.objs, es);
      forall i | 0 <= i < |es|
        ensures Lawful(s.schema, es[i])
      {
        AnnouncedIsLawful(s.schema, s.store.objs[rs[i].handle].uid, rs[i], es[i]);
      }
      GotLawful(s.schema, s.peers, s'.peers, BusEventPkt(uid, items, refs, es));
    }
  }

  lemma OnePeerLawful(s: Srv, s': Srv, i: nat, p: Peer)
    requires AllLawful(s) && i < |s.peers| && LawfulPeer(s.schema, p) && s'.schema == s.schema && s'.peers == s.peers[i := p]
    ensures AllLawful(s')
  {
    hide LawfulPeer;
  }

  lemma SentLawful(sc: Schema, p: Peer, q: Peer, pkt: Down)
    requires LawfulPeer(sc, p) && LawfulDown(sc, pkt) && q.down == p.down + [pkt]
    ensures LawfulPeer(sc, q)
  {
    hide LawfulDown;
  }

  lemma ServerTakeLawful(s: Srv, i: nat, u: Up, userAccepts: bool, attempts: seq<Attempt>)
    requires AllLawful(s) && i < |s.peers| && forall h :: h in s.store.reg ==> h in s.store.objs
    ensures AllLawful(ServerTake(s, i, u, userAccepts, attempts))
  {
    hide ItemsOf, Welcome, Decodes, AckStatus, LawfulPeer;
    var s' := ServerTake(s, i, u, userAccepts, attempts);
    var p, p' := s.peers[i], s'.peers[i];
    assert LawfulPeer(s.schema, p);
    if p'.down != p.down {
      SentLawful(s.schema, p, p', p'.down[|p.down|]);
    } else {
      assert LawfulPeer(s.schema, p') by { SameDownLawful(s.schema, p, p'); }
    }
    OnePeerLawful(s, s', i, p');
  }

  lemma SameDownLawful(sc: Schema, p: Peer, q: Peer)
    requires LawfulPeer(sc, p) && q.down == p.down
    ensures LawfulPeer(sc, q)
  {
  }

  lemma RegisterLawful(s: Srv, h: Handle)
    requires AllLawful(s)
    ensures AllLawful(Register(s, h)) && AllLawful(Unregister(s, h))
  {
    hide LawfulPeer;
    if h in s.store.objs {
      BroadcastGot(s.peers, AddPkt(ItemOf(s.store, h)));
      BroadcastGot(s.peers, RemovePkt(RefOf(s.store, h)));
      GotLawful(s.schema, s.peers, Broadcast(s.peers, AddPkt(ItemOf(s.store, h))), AddPkt(ItemOf(s.store, h)));
      GotLawful(s.schema, s.peers, Broadcast(s.peers, RemovePkt(RefOf(s.store, h))), RemovePkt(RefOf(s.store, h)));
    }
  }

  lemma FewerLawful(sc: Schema, p: Peer, i: nat, j: nat)
    requires LawfulPeer(sc, p) && i <= j <= |p.down|
    ensures LawfulPeer(sc, p.(down := p.down[i..j])) && LawfulPeer(sc, p.(phase := PeerGone))
  {
    hide LawfulDown;
  }

  lemma NextLawful(s: System, t: Step)
    requires SrvOk(s.srv) && Enabled(s, t) && AllLawful(s.srv)
    ensures AllLawful(Next(s, t).srv)
  {
    hide SrvOk, LawfulPeer, Register, Unregister, SendEvent, SendBusEvent, ServerTake, Receive;
    RegisteredExist(s.srv);
    match t
    case Reg(h) => RegisterLawful(s.srv, h);
    case Unreg(h) => RegisterLawful(s.srv, h);
    case Send(r) => SendEventLawful(s.srv, r);
    case SendBus(euid, adds, removes, events) => SendBusEventLawful(s.srv, euid, adds, removes, events);
    case Connect(_) => assert LawfulPeer(s.srv.schema, Peer(PeerIdle, [])) by { NoneLawful(s.srv.schema); }
    case ServerTakes(i, userAccepts, attempts) => ServerTakeLawful(s.srv, i, s.ends[i].up[0], userAccepts, attempts);
    case ClientTakes(i) =>
      var p := s.srv.peers[i];
      FewerLawful(s.srv.schema, p, 1, |p.down|);
      assert p.down[1..|p.down|] == p.down[1..];
    case PeerDrops(i) => FewerLawful(s.srv.schema, s.srv.peers[i], 0, 0);
    case Loses(i, n) =>
      var p := s.srv.peers[i];
      FewerLawful(s.srv.schema, p, 0, n);
      assert p.down[0..n] == p.down[..n];
    case _ =>
  }

  lemma NoneLawful(sc: Schema)
    ensures LawfulPeer(sc, Peer(PeerIdle, []))
  {
  }

  lemma {:induction false} RunLawful(states: seq<System>, steps: seq<Step>, n: nat)
    requires IsRun(states, steps) && n < |states|
    ensures AllLawful(states[n].srv)
    decreases n
  {
    hide Next, Enabled, SrvOk, LawfulPeer;
    if n > 0 {
      RunLawful(states, steps, n - 1);
      assert TakesTo(states[n - 1], steps[n - 1], states[n - 1 + 1]);
      NextLawful(states[n - 1], steps[n - 1]);
    }
  }

  /** In every reachable state every event in flight, alone or in a bus event, carries only fields
      that the schema lets it update. */
  lemma EventsInFlightAreLawful(s: System, i: nat, j: nat)
    requires Reachable(s) && i < |s.srv.peers| && j < |s.srv.peers[i].down|
    ensures LawfulDown(s.srv.schema, s.srv.peers[i].down[j])
  {
    hide LawfulDown, TakesTo, Initial;
    var states, steps :| IsRun(states, steps) && states[|states| - 1] == s;
    RunLawful(states, steps, |states| - 1);
    assert LawfulPeer(s.srv.schema, s.srv.peers[i]);
  }

  /** Sending an event, in every reachable state: the declared fields it gives, in its object, and
      nothing else anywhere on the server. */
  lemma SendStepTook(s: System, r: EventReq)
    requires Reachable(s) && r.handle in s.srv.store.reg
    ensures SrvOk(s.srv) && r.handle in s.srv.store.objs
    ensures EventSent(s.srv.schema, s.srv.store.objs, s.srv.peers, r, Next(s, Send(r)).srv.store.objs, Next(s, Send(r)).srv.peers)
  {
    hide Reachable, EventSent, SrvOk, SendEvent;
    ReachableInv(s);
    SameSizes(s);
    RegisteredExist(s.srv);
    SendEventSent(s.srv, r);
  }

  /** And when a client takes it: the same on its copy. */
  lemma TakenEventTook(s: System, i: nat)
    requires Reachable(s) && Enabled(s, ClientTakes(i)) && s.srv.peers[i].down[0].EventPkt?
    ensures var e := s.srv.peers[i].down[0].event;
            var at, at' := s.ends[i].client.bus.at, Receive(s.ends[i].client, s.srv.peers[i].down[0]).bus.at;
            e.handle in at && at[e.handle].uid == e.uid && e.handle in at' && at'[e.handle].uid == e.uid &&
            EventTook(s.srv.schema, e.uid, e.event, e.info, at[e.handle].info, at'[e.handle].info) &&
            forall g :: g != e.handle ==> SameObject(at', at, g)
  {
    hide Reachable, Inv, HoldsValue, Merge, WireStruct, Declares;
    DeliveryAlwaysApplicable(s, i);
    EventsInFlightAreLawful(s, i, 0);
    var e := s.srv.peers[i].down[0].event;
    MergeTakes(s.ends[i].client.bus.at[e.handle].info, e.info);
  }

  lemma SameFieldTook(before: map<Handle, Obj>, mid: map<Handle, Obj>, now: map<Handle, Obj>, now': map<Handle, Obj>,
                      es: seq<Event>, h: Handle, f: u16)
    requires h in before && h in mid && h in now && h in now' && mid[h] == before[h] && now'[h] == now[h]
    requires FieldTook(mid, now, es, h, f)
    ensures FieldTook(before, now', es, h, f)
  {
    hide HoldsValue, Writes, SameField, LastWrite;
    forall j: nat
      ensures LastWrite(before, es, j, h, f) <==> LastWrite(mid, es, j, h, f)
    {
      SameWrites(before, mid, es, j, h, f);
    }
    forall j | 0 <= j < |es|
      ensures Writes(before, es[j], h, f) <==> Writes(mid, es[j], h, f)
    {
      SameWrites(before, mid, es, j, h, f);
    }
  }

  lemma SameWrites(before: map<Handle, Obj>, mid: map<Handle, Obj>, es: seq<Event>, j: nat, h: Handle, f: u16)
    requires h in before && h in mid && mid[h] == before[h]
    ensures LastWrite(before, es, j, h, f) <==> LastWrite(mid, es, j, h, f)
    ensures j < |es| ==> (Writes(before, es[j], h, f) <==> Writes(mid, es[j], h, f))
  {
  }

  /** A client takes a bus event: every object it keeps has, field by field, the value the last event
      that gives one gave it, or what it held. */
  lemma TakenBusEventTook(s: System, i: nat, h: Handle)
    requires Reachable(s) && Enabled(s, ClientTakes(i)) && s.srv.peers[i].down[0].BusEventPkt?
    requires h in s.ends[i].client.bus.at && !RemovesHandle(s.srv.peers[i].down[0], h)
    ensures var p := s.srv.peers[i].down[0];
            var at, at' := s.ends[i].client.bus.at, Receive(s.ends[i].client, p).bus.at;
            LawfulDown(s.srv.schema, p) && h in at' && at'[h].uid == at[h].uid && forall f :: FieldTook(at, at', p.events, h, f)
  {
    hide Reachable, Inv, FieldTook, LawfulDown, Receive;
    var p, c := s.srv.peers[i].down[0], s.ends[i].client;
    DeliveryAlwaysApplicable(s, i);
    EventsInFlightAreLawful(s, i, 0);
    ReceiveView(c, p);
    var mid := AddAll(c.bus, p.adds);
    var now := UpdateAll(mid, p.events);
    ResolveHeld(c.bus, p.events);
    ResolveHeldRefs(c.bus, p.removes);
    AddAllKeeps(c.bus, p.adds, h);
    UpdateAllTook(mid, p.events);
    RemoveAllKeeps(now, p.removes, h);
    forall f: u16
      ensures FieldTook(c.bus.at, Receive(c, p).bus.at, p.events, h, f)
    {
      SameFieldTook(c.bus.at, mid.at, now.at, Receive(c, p).bus.at, p.events, h, f);
    }
  }

  // ---- what a call on its way carries ----

  /** The step that made the call: with this serial, on this object as the client holds it, this
      method, this call handle and these arguments. */
  ghost predicate MadeBy(s: System, t: Step, i: nat, id: nat, u: Up) {
    t.Call? && t.i == i && i < |s.ends| && s.ends[i].client.next == id && t.h in s.ends[i].client.bus.at &&
    u == CallPkt(s.ends[i].client.bus.at[t.h].uid, t.h, t.mid, t.k, t.args)
  }

  lemma UpStep(s: System, tags: seq<Tags>, t: Step, i: nat, m: nat)
    requires Inv(s) && Enabled(s, t) && AllTracked(s, tags) && i < |Next(s, t).ends| && m < |Next(s, t).ends[i].up|
    requires Next(s, t).ends[i].up[m].CallPkt?
    ensures SrvOk(s.srv) && |s.ends| == |s.srv.peers| && i < |tags|
    ensures m < |NextTags(s, tags, t)[i].up|
    ensures var id, u := NextTags(s, tags, t)[i].up[m], Next(s, t).ends[i].up[m];
            MadeBy(s, t, i, id, u) ||
            exists k :: 0 <= k < |s.ends[i].up| && k < |tags[i].up| && s.ends[i].up[k] == u && tags[i].up[k] == id
  {
    hide Inv, Next, Enabled, SrvOk, CanCall, DownTags;
    SameSizes(s);
    M.UpAfter(s, t, i);
    if i == |s.ends| {
      RequestsOnly(s, t);
      assert false;
    }
    assert Tracked(s.srv.peers[i], s.ends[i], tags[i]);
    var up, ups := s.ends[i].up, tags[i].up;
    if t.Call? && t.i == i && CanCall(s.srv.schema, s.ends[i].client, t.h, t.mid, t.k) {
      M.CallHolds(s.srv.schema, s.ends[i].client, t.h, t.mid, t.k);
      if m < |up| {
        assert Next(s, t).ends[i].up[m] == up[m] && NextTags(s, tags, t)[i].up[m] == ups[m];
      }
    } else if t.ServerTakes? && t.i == i {
      assert Next(s, t).ends[i].up[m] == up[m + 1] && NextTags(s, tags, t)[i].up[m] == ups[m + 1];
    } else {
      assert Next(s, t).ends[i].up[m] == up[m] && NextTags(s, tags, t)[i].up[m] == ups[m];
    }
  }

  lemma RequestsOnly(s: System, t: Step)
    requires Enabled(s, t) && t.Connect?
    ensures !t.conreq.CallPkt?
  {
  }

  /** In every tagged run: a CALL on its way carries what the call step with its serial was given. */
  lemma {:induction false} CallCarriesWhatWasAsked(states: seq<System>, steps: seq<Step>, tagged: seq<seq<Tags>>, n: nat, i: nat, m: nat)
    requires TaggedRun(states, steps, tagged) && n < |states| && i < |states[n].ends|
    requires m < |states[n].ends[i].up| && states[n].ends[i].up[m].CallPkt?
    ensures i < |tagged[n]| && m < |tagged[n][i].up|
    ensures exists p :: 0 <= p < n && MadeBy(states[p], steps[p], i, tagged[n][i].up[m], states[n].ends[i].up[m])
    decreases n
  {
    hide Next, Enabled, NextTags, SrvOk, Inv, MadeBy, Tracked;
    RunTracked(states, steps, tagged, n);
    assert Tracked(states[n].srv.peers[i], states[n].ends[i], tagged[n][i]);
    assert |tagged[n][i].up| == |states[n].ends[i].up| by { SameLength(states[n].srv.peers[i], states[n].ends[i], tagged[n][i]); }
    if n > 0 {
      var s, tags, t := states[n - 1], tagged[n - 1], steps[n - 1];
      assert TagsFollow(states[n - 1], tagged[n - 1], steps[n - 1], tagged[n - 1 + 1]);
      assert TakesTo(states[n - 1], steps[n - 1], states[n - 1 + 1]);
      RunKeeps(states, steps, n - 1);
      RunTracked(states, steps, tagged, n - 1);
      UpStep(s, tags, t, i, m);
      var id, u := tagged[n][i].up[m], states[n].ends[i].up[m];
      if !MadeBy(s, t, i, id, u) {
        var k :| 0 <= k < |s.ends[i].up| && k < |tags[i].up| && s.ends[i].up[k] == u && tags[i].up[k] == id;
        CallCarriesWhatWasAsked(states, steps, tagged, n - 1, i, k);
      }
    }
  }

  /** And its bytes: a server that can place the call decodes it with those arguments, as the wire
      carries them. */
  lemma ArgumentsArrive(ms: Q.Methods, srv: Srv, u: Up, b: Buf, pos: nat)
    requires u.CallPkt? && Q.FitsUp(ms, u) && Q.MethodsOf(ms, srv.schema) && At(b, pos, Q.EncUp(ms, u))
    requires Placed(srv.schema, srv.store.objs, u)
    ensures b.Valid() && var d := Q.DecUp(ms, srv.store.objs, 6, b, pos);
            d.Some? && d.value.CallPkt? && d.value == CallPkt(u.uid, u.handle, u.mid, u.call, d.value.args) &&
            CarriesStruct(d.value.args, u.args)
  {
    hide Q.DecUp, Q.EncUp, Q.FitsUp, Q.MethodsOf, CarriesStruct;
    Q.RequestAt(ms, srv, u, b, pos);
    WireHolds(u.args);
  }
}
