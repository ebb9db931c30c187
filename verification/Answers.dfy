/** Which answer ends a call. A call handle is drawn at random among those the client has not
    pending, so it may be drawn again while an old CALL or ACK with it is still in flight. */
module Answers {
  import opened Values
  import opened Lists
  import opened Bus
  import opened ObjectStore
  import opened ServerSpec
  import opened ClientSpec
  import opened Runs

  // ---- what ends a pending call ----

  ghost predicate IsAckFor(p: Down, k: Handle) { p.AckPkt? && p.call == k }

  ghost predicate Ends(p: Down, q: Pending) { RemovesHandle(p, q.obj) || IsAckFor(p, q.call) }

  function EndStatus(p: Down): Status { if p.AckPkt? then p.status else Aborted }

  /** The packet that ends the call: the first one that removes its object or answers its handle. */
  ghost predicate EndedBy(q: Pending, ps: seq<Down>, j: nat) {
    j < |ps| && Ends(ps[j], q) && forall l :: 0 <= l < j ==> !Ends(ps[l], q)
  }

  function ReceiveAll(c: Client, ps: seq<Down>): Client
    decreases |ps|
  {
    if ps == [] then c else ReceiveAll(Receive(c, ps[0]), ps[1..])
  }

  lemma {:induction false} AbortedSpec(calls: seq<Pending>, q: Pending)
    requires q in calls
    ensures Done(q.id, Aborted) in AbortedCalls(calls, q.obj)
  {
    if calls[0] != q {
      AbortedSpec(calls[1..], q);
    }
  }

  lemma {:induction false} AckedSpec(calls: seq<Pending>, q: Pending, status: Status)
    requires q in calls
    ensures Done(q.id, status) in AckedCalls(calls, q.call, status)
  {
    if calls[0] != q {
      AckedSpec(calls[1..], q, status);
    }
  }

  lemma {:induction false} ResolvedHandles(b: Objects, refs: seq<Ref>, h: Handle)
    requires h in b.at
    ensures h in Handles(ResolveRefs(b, refs)) <==> exists i :: 0 <= i < |refs| && refs[i].handle == h
  {
    if refs != [] {
      ResolvedHandles(b, refs[1..], h);
      var rest := ResolveRefs(b, refs[1..]);
      assert Handles([refs[0]] + rest) == [refs[0].handle] + Handles(rest);
      assert [] + rest == rest;
      if i :| 0 <= i < |refs| && refs[i].handle == h {
        assert i > 0 ==> refs[1..][i - 1].handle == h;
      }
      if i :| 0 <= i < |refs[1..]| && refs[1..][i].handle == h {
        assert refs[i + 1].handle == h;
      }
    }
  }

  lemma {:induction false} DroppedCalls(c: Client, hs: seq<Handle>, q: Pending)
    requires q in c.calls
    ensures c.log <= DropObjects(c, hs).log
    ensures q.obj !in hs ==> q in DropObjects(c, hs).calls
    ensures q.obj in hs ==> Done(q.id, Aborted) in DropObjects(c, hs).log
    decreases |hs|
  {
    if hs != [] {
      var d := DropObject(c, hs[0]);
      KeptCallsSpec(c.calls, hs[0]);
      if q.obj == hs[0] {
        AbortedSpec(c.calls, q);
        LogGrows(d, hs[1..]);
        LoggedStays(d.log, DropObjects(d, hs[1..]).log, Done(q.id, Aborted));
      } else {
        DroppedCalls(d, hs[1..], q);
      }
      LogGrows(c, hs);
    }
  }

  lemma LoggedStays(a: seq<Done>, b: seq<Done>, d: Done)
    requires a <= b && d in a
    ensures d in b
  {
  }

  lemma {:induction false} LogGrows(c: Client, hs: seq<Handle>)
    ensures c.log <= DropObjects(c, hs).log
    decreases |hs|
  {
    if hs != [] {
      LogGrows(DropObject(c, hs[0]), hs[1..]);
    }
  }

  /** A disconnection ends every pending call, aborted. */
  lemma DisconnectAborts(c: Client, q: Pending)
    requires ClientOk(c) && q in c.calls
    ensures var d := Disconnect(c);
            d.phase == Closed && d.bus == NO_OBJECTS && d.calls == [] && c.log <= d.log && Done(q.id, Aborted) in d.log
  {
    DisconnectOk(c);
    assert q.obj in c.bus.order;
    DroppedCalls(c, c.bus.order, q);
  }

  /** One packet: it ends exactly the calls it should, with the status it should. */
  lemma ReceiveEnds(c: Client, p: Down, q: Pending)
    requires BodyOk(c) && q in c.calls
    ensures c.log <= Receive(c, p).log
    ensures Ends(p, q) ==> Done(q.id, EndStatus(p)) in Receive(c, p).log && q !in Receive(c, p).calls
    ensures !Ends(p, q) ==> q in Receive(c, p).calls
  {
    assert q.obj in c.bus.at;
    match p
    case RemovePkt(r) =>
      KeptCallsSpec(c.calls, r.handle);
      if r.handle == q.obj {
        AbortedSpec(c.calls, q);
      }
    case BusEventPkt(_, adds, removes, events) =>
      var d := c.(bus := UpdateAll(AddAll(c.bus, adds), ResolveEvents(c.bus, events)));
      DroppedCalls(d, Handles(ResolveRefs(c.bus, removes)), q);
      ResolvedHandles(c.bus, removes, q.obj);
      GrowOk(c, adds, ResolveEvents(c.bus, events));
      DropObjectsOk(d, Handles(ResolveRefs(c.bus, removes)));
    case AckPkt(k, status) =>
      OtherCallsSpec(c.calls, k);
      if q.call == k {
        AckedSpec(c.calls, q, status);
      }
    case _ =>
  }

  /** What packets in flight do to a pending call: without one that ends it, it stays pending;
      otherwise it is reported with the status of the first that does. */
  lemma {:induction false} FirstEndingDecides(c: Client, ps: seq<Down>, q: Pending)
    requires BodyOk(c) && q in c.calls
    ensures c.log <= ReceiveAll(c, ps).log
    ensures q in ReceiveAll(c, ps).calls <==> forall l :: 0 <= l < |ps| ==> !Ends(ps[l], q)
    ensures forall j: nat :: EndedBy(q, ps, j) ==> Done(q.id, EndStatus(ps[j])) in ReceiveAll(c, ps).log
    decreases |ps|
  {
    hide BodyOk, Receive, Ends;
    if ps != [] {
      var d := Receive(c, ps[0]);
      ReceiveEnds(c, ps[0], q);
      ReceiveBodyOk(c, ps[0]);
      AllGrow(d, ps[1..]);
      if Ends(ps[0], q) {
        LoggedStays(d.log, ReceiveAll(c, ps).log, Done(q.id, EndStatus(ps[0])));
        AllMakeNoCalls(d, ps[1..]);
        assert forall j: nat :: EndedBy(q, ps, j) ==> j == 0;
      } else {
        FirstEndingDecides(d, ps[1..], q);
        assert forall l :: 0 < l < |ps| ==> ps[l] == ps[1..][l - 1];
        forall j: nat | EndedBy(q, ps, j)
          ensures Done(q.id, EndStatus(ps[j])) in ReceiveAll(c, ps).log
        {
          assert forall l :: 0 <= l < j - 1 ==> ps[1..][l] == ps[l + 1];
          assert EndedBy(q, ps[1..], j - 1);
        }
      }
    }
  }

  lemma {:induction false} AllMakeNoCalls(c: Client, ps: seq<Down>)
    ensures forall q :: q in ReceiveAll(c, ps).calls ==> q in c.calls
    decreases |ps|
  {
    hide Receive;
    if ps != [] {
      ReceiveMakesNoCalls(c, ps[0]);
      AllMakeNoCalls(Receive(c, ps[0]), ps[1..]);
    }
  }

  lemma ReceiveGrows(c: Client, p: Down)
    ensures c.log <= Receive(c, p).log
  {
    if p.BusEventPkt? {
      LogGrows(c.(bus := UpdateAll(AddAll(c.bus, p.adds), ResolveEvents(c.bus, p.events))), Handles(ResolveRefs(c.bus, p.removes)));
    }
  }

  lemma {:induction false} AllGrow(c: Client, ps: seq<Down>)
    ensures c.log <= ReceiveAll(c, ps).log
    decreases |ps|
  {
    hide Receive;
    if ps != [] {
      ReceiveGrows(c, ps[0]);
      AllGrow(Receive(c, ps[0]), ps[1..]);
    }
  }

  // ---- whose answer it is ----

  /** For each packet in flight the serial number of the call it belongs to. The protocol does not
      carry it; entries of packets other than CALL and ACK mean nothing. */
  datatype Tags = Tags(up: seq<nat>, down: seq<nat>)

  function TagOf(s: System, tags: seq<Tags>, t: Step, j: nat): nat
    requires |tags| == |s.ends|
  {
    if t.ServerTakes? && t.i == j < |tags| && tags[j].up != [] then tags[j].up[0] else 0
  }

  function UpTags(s: System, tags: seq<Tags>, t: Step, j: nat): seq<nat>
    requires j < |tags| == |s.ends|
  {
    match t
    case Call(i, h, mid, k, _) =>
      if i == j && CanCall(s.srv.schema, s.ends[i].client, h, mid, k) then tags[j].up + [s.ends[i].client.next] else tags[j].up
    case ServerTakes(i, _, _) => if i == j && tags[j].up != [] then tags[j].up[1..] else tags[j].up
    case _ => tags[j].up
  }

  ghost function DownTags(s: System, tags: seq<Tags>, t: Step, j: nat): seq<nat>
    requires SrvOk(s.srv) && Enabled(s, t) && j < |tags| == |s.ends| && |s.ends| == |s.srv.peers|
  {
    match t
    case ClientTakes(i) => if i == j && tags[j].down != [] then tags[j].down[1..] else tags[j].down
    case Loses(i, n) => if i == j && n <= |tags[j].down| then tags[j].down[..n] else tags[j].down
    case _ =>
      var s' := Next(s, t);
      if j < |s'.srv.peers| && |s'.srv.peers[j].down| > |s.srv.peers[j].down| then tags[j].down + [TagOf(s, tags, t, j)]
      else tags[j].down
  }

  /** The tags after a step: a CALL carries the serial of its call, its ACK inherits it. */
  ghost function NextTags(s: System, tags: seq<Tags>, t: Step): seq<Tags>
    requires SrvOk(s.srv) && Enabled(s, t) && |tags| == |s.ends| == |s.srv.peers|
  {
    seq(|tags|, j requires 0 <= j < |tags| => Tags(UpTags(s, tags, t, j), DownTags(s, tags, t, j)))
    + if t.Connect? then [Tags([0], [])] else []
  }

  /** Everything in flight with the handle of a pending call belongs to that call, and no tag is
      from the future. */
  ghost predicate Own(p: Peer, e: End, t: Tags) {
    |t.up| == |e.up| && |t.down| == |p.down| &&
    (forall j :: 0 <= j < |e.up| && e.up[j].CallPkt? ==> t.up[j] < e.client.next) &&
    (forall j :: 0 <= j < |p.down| && p.down[j].AckPkt? ==> t.down[j] < e.client.next) &&
    forall q :: q in e.client.calls ==> Mine(p, e, t, q)
  }

  ghost predicate Mine(p: Peer, e: End, t: Tags, q: Pending)
    requires |t.up| == |e.up| && |t.down| == |p.down|
  {
    (forall j :: 0 <= j < |e.up| && e.up[j].CallPkt? && e.up[j].call == q.call ==> t.up[j] == q.id) &&
    (forall j :: 0 <= j < |p.down| && IsAckFor(p.down[j], q.call) ==> t.down[j] == q.id)
  }

  /** Without the demand that drawn handles are fresh, only the bookkeeping part. */
  ghost predicate Tracked(p: Peer, e: End, t: Tags) {
    |t.up| == |e.up| && |t.down| == |p.down| &&
    (forall j :: 0 <= j < |e.up| && e.up[j].CallPkt? ==> t.up[j] < e.client.next) &&
    (forall j :: 0 <= j < |p.down| && p.down[j].AckPkt? ==> t.down[j] < e.client.next)
  }

  /** A CALL or an ACK with this handle is still in flight. */
  ghost predicate InFlight(p: Peer, e: End, k: Handle) {
    (exists j :: 0 <= j < |e.up| && e.up[j].CallPkt? && e.up[j].call == k) ||
    (exists j :: 0 <= j < |p.down| && IsAckFor(p.down[j], k))
  }

  /** A call that is made draws a handle nothing in flight carries. */
  ghost predicate DrawsFresh(s: System, t: Step) {
    (t.Call? && t.i < |s.ends| && t.i < |s.srv.peers| && CanCall(s.srv.schema, s.ends[t.i].client, t.h, t.mid, t.k)) ==>
      !InFlight(s.srv.peers[t.i], s.ends[t.i], t.k)
  }

  // ---- one connection, one change ----

  lemma {:induction false} FewerCalls(c: Client, hs: seq<Handle>)
    ensures forall q :: q in DropObjects(c, hs).calls ==> q in c.calls
    ensures DropObjects(c, hs).next == c.next
    decreases |hs|
  {
    if hs != [] {
      KeptCallsSpec(c.calls, hs[0]);
      FewerCalls(DropObject(c, hs[0]), hs[1..]);
    }
  }

  lemma ReceiveMakesNoCalls(c: Client, p: Down)
    ensures forall q :: q in Receive(c, p).calls ==> q in c.calls
    ensures Receive(c, p).next == c.next
  {
    match p
    case RemovePkt(r) => KeptCallsSpec(c.calls, r.handle);
    case BusEventPkt(_, adds, removes, events) =>
      FewerCalls(c.(bus := UpdateAll(AddAll(c.bus, adds), ResolveEvents(c.bus, events))), Handles(ResolveRefs(c.bus, removes)));
    case AckPkt(k, _) => OtherCallsSpec(c.calls, k);
    case _ =>
  }

  /** Packets go, calls go: what remains still belongs together. */
  lemma OwnShrinks(p: Peer, e: End, t: Tags, p': Peer, e': End, t': Tags, u: nat, d: nat, n: nat)
    requires Tracked(p, e, t) && u <= |e.up| && d <= n <= |p.down|
    requires e'.up == e.up[u..] && t'.up == t.up[u..] && p'.down == p.down[d..n] && t'.down == t.down[d..n]
    requires e'.client.next == e.client.next && forall q :: q in e'.client.calls ==> q in e.client.calls
    ensures Tracked(p', e', t') && (Own(p, e, t) ==> Own(p', e', t'))
  {
    if Own(p, e, t) {
      forall q | q in e'.client.calls
        ensures Mine(p', e', t', q)
      {
        assert Mine(p, e, t, q);
      }
    }
  }

  /** A packet that answers nothing is sent. */
  lemma OwnAfterSend(p: Peer, e: End, t: Tags, p': Peer, pkt: Down, tag: nat)
    requires Tracked(p, e, t) && !pkt.AckPkt? && p'.down == p.down + [pkt]
    ensures Tracked(p', e, t.(down := t.down + [tag])) && (Own(p, e, t) ==> Own(p', e, t.(down := t.down + [tag])))
  {
    var t' := t.(down := t.down + [tag]);
    if Own(p, e, t) {
      forall q | q in e.client.calls
        ensures Mine(p', e, t', q)
      {
        assert Mine(p, e, t, q);
      }
    }
  }

  /** The server takes a CALL and answers it: the ACK belongs to the same call. */
  lemma OwnAfterAnswer(p: Peer, e: End, t: Tags, p': Peer, status: Status)
    requires Tracked(p, e, t) && e.up != [] && e.up[0].CallPkt? && p'.down == p.down + [AckPkt(e.up[0].call, status)]
    ensures var e', t' := e.(up := e.up[1..]), Tags(t.up[1..], t.down + [t.up[0]]);
            Tracked(p', e', t') && (Own(p, e, t) ==> Own(p', e', t'))
  {
    var e', t' := e.(up := e.up[1..]), Tags(t.up[1..], t.down + [t.up[0]]);
    if Own(p, e, t) {
      forall q | q in e.client.calls
        ensures Mine(p', e', t', q)
      {
        assert Mine(p, e, t, q);
      }
    }
  }

  /** A new call: with a fresh handle nothing in flight is mistaken for its answer. */
  lemma OwnAfterCall(p: Peer, e: End, t: Tags, h: Handle, k: Handle, pkt: Up)
    requires Tracked(p, e, t) && pkt.CallPkt? && pkt.call == k
    requires forall i :: 0 <= i < |e.client.calls| ==> e.client.calls[i].call != k
    ensures var e', t' := End(StartCall(e.client, h, k), e.up + [pkt]), t.(up := t.up + [e.client.next]);
            Tracked(p, e', t') && (Own(p, e, t) && !InFlight(p, e, k) ==> Own(p, e', t'))
  {
    var e', t' := End(StartCall(e.client, h, k), e.up + [pkt]), t.(up := t.up + [e.client.next]);
    if Own(p, e, t) && !InFlight(p, e, k) {
      forall q | q in e'.client.calls
        ensures Mine(p, e', t', q)
      {
        if q in e.client.calls {
          assert Mine(p, e, t, q);
        }
      }
    }
  }

  // ---- every step ----

  ghost predicate AllTracked(s: System, tags: seq<Tags>) {
    |tags| == |s.ends| == |s.srv.peers| && forall j :: 0 <= j < |tags| ==> Tracked(s.srv.peers[j], s.ends[j], tags[j])
  }

  ghost predicate AllOwn(s: System, tags: seq<Tags>) {
    |tags| == |s.ends| == |s.srv.peers| && forall j :: 0 <= j < |tags| ==> Own(s.srv.peers[j], s.ends[j], tags[j])
  }

  /** What a step does to connection j, seen from its tags. */
  ghost predicate Keeps(s: System, tags: seq<Tags>, t: Step, j: nat)
    requires SrvOk(s.srv) && Enabled(s, t) && AllTracked(s, tags) && j < |tags|
  {
    var s' := Next(s, t);
    j < |s'.ends| && j < |s'.srv.peers| &&
    var t' := Tags(UpTags(s, tags, t, j), DownTags(s, tags, t, j));
    Tracked(s'.srv.peers[j], s'.ends[j], t') &&
    (Own(s.srv.peers[j], s.ends[j], tags[j]) && DrawsFresh(s, t) ==> Own(s'.srv.peers[j], s'.ends[j], t'))
  }

  lemma Unchanged(p: Peer, e: End, t: Tags, p': Peer, e': End)
    requires Tracked(p, e, t) && p'.down == p.down && e'.up == e.up && e'.client.next == e.client.next
    requires forall q :: q in e'.client.calls ==> q in e.client.calls
    ensures Tracked(p', e', t) && (Own(p, e, t) ==> Own(p', e', t))
  {
    assert e.up[0..] == e.up && t.up[0..] == t.up && p.down[0..|p.down|] == p.down && t.down[0..|p.down|] == t.down;
    OwnShrinks(p, e, t, p', e', t, 0, 0, |p.down|);
  }

  /** Server calls: each connection gets one packet, no ACK, or none. */
  lemma ServerCallKeepsTags(s: System, tags: seq<Tags>, t: Step, pkt: Down, j: nat)
    requires SrvOk(s.srv) && Enabled(s, t) && AllTracked(s, tags) && j < |tags|
    requires t.New? || t.Destroy? || t.Reg? || t.Unreg? || t.Send? || t.SendBus?
    requires !pkt.AckPkt? && (Next(s, t).srv.peers == s.srv.peers || Next(s, t).srv.peers == Broadcast(s.srv.peers, pkt))
    ensures Keeps(s, tags, t, j)
  {
    hide Tracked, Own, SrvOk, NewObject, DestroyObject, Register, Unregister, SendEvent, SendBusEvent, CanCall, InFlight;
    var p, e := s.srv.peers[j], s.ends[j];
    var p' := Next(s, t).srv.peers[j];
    SameLength(p, e, tags[j]);
    if p'.down == p.down {
      Unchanged(p, e, tags[j], p', e);
    } else {
      OwnAfterSend(p, e, tags[j], p', pkt, TagOf(s, tags, t, j));
    }
  }

  lemma SameLength(p: Peer, e: End, t: Tags)
    requires Tracked(p, e, t)
    ensures |t.up| == |e.up| && |t.down| == |p.down|
  {
  }

  /** The packet a server call broadcasts. */
  lemma ServerCallSends(s: System, t: Step) returns (pkt: Down)
    requires SrvOk(s.srv) && Enabled(s, t)
    requires t.New? || t.Destroy? || t.Reg? || t.Unreg? || t.Send? || t.SendBus?
    ensures !pkt.AckPkt? && (Next(s, t).srv.peers == s.srv.peers || Next(s, t).srv.peers == Broadcast(s.srv.peers, pkt))
    ensures Next(s, t).ends == s.ends
  {
    pkt := RemovePkt(Ref(0, 0));
    match t
    case Reg(h) => if h in s.srv.store.objs { pkt := AddPkt(ItemOf(s.srv.store, h)); }
    case Unreg(h) => if h in s.srv.store.objs { pkt := RemovePkt(RefOf(s.srv.store, h)); }
    case Send(r) => if r.handle in s.srv.store.objs { pkt := EventPkt(Sanitized(s.srv, r)); }
    case SendBus(euid, adds, removes, events) =>
      if CheckBusEvent(s.srv, adds, removes, events) { pkt := BusEventOf(s.srv, euid, adds, removes, events); }
    case _ =>
  }

  lemma ServerTakeKeepsTags(s: System, tags: seq<Tags>, t: Step, j: nat)
    requires SrvOk(s.srv) && Enabled(s, t) && AllTracked(s, tags) && j < |tags| && t.ServerTakes?
    ensures Keeps(s, tags, t, j)
  {
    hide Tracked, Own, SrvOk, CanCall, InFlight, Welcome, ItemsOf, AckStatus, Decodes;
    var p, e, g := s.srv.peers[j], s.ends[j], tags[j];
    SameLength(p, e, g);
    var s' := Next(s, t);
    var p', e' := s'.srv.peers[j], s'.ends[j];
    if t.i != j {
      Unchanged(p, e, g, p', e');
    } else {
      var taken, g1 := e.(up := e.up[1..]), Tags(g.up[1..], g.down);
      assert p.down[0..|p.down|] == p.down && g.down[0..|p.down|] == g.down;
      OwnShrinks(p, e, g, p, taken, g1, 1, 0, |p.down|);
      var u := e.up[0];
      if p'.down == p.down {
        Unchanged(p, taken, g1, p', e');
      } else if u.ConReq? {
        OwnAfterSend(p, taken, g1, p', p'.down[|p.down|], g.up[0]);
      } else {
        OwnAfterAnswer(p, e, g, p', AckStatus(s.srv, u, t.attempts));
      }
    }
  }

  lemma CallKeepsTags(s: System, tags: seq<Tags>, t: Step, j: nat)
    requires SrvOk(s.srv) && Enabled(s, t) && AllTracked(s, tags) && j < |tags| && t.Call?
    ensures Keeps(s, tags, t, j)
  {
    hide Tracked, Own, SrvOk, InFlight, MethodState;
    var p, e, g := s.srv.peers[j], s.ends[j], tags[j];
    SameLength(p, e, g);
    if t.i == j && CanCall(s.srv.schema, e.client, t.h, t.mid, t.k) {
      OwnAfterCall(p, e, g, t.h, t.k, CallPacket(e.client, t.h, t.mid, t.k, t.args));
    } else {
      Unchanged(p, e, g, p, e);
    }
  }

  lemma ClientSideKeepsTags(s: System, tags: seq<Tags>, t: Step, j: nat)
    requires SrvOk(s.srv) && Enabled(s, t) && AllTracked(s, tags) && j < |tags|
    requires t.ClientTakes? || t.Loses? || t.PeerDrops? || t.ClientDrops? || t.Connect?
    ensures Keeps(s, tags, t, j)
  {
    hide Tracked, Own, SrvOk, CanCall, InFlight, Receive, DropObjects;
    var p, e, g := s.srv.peers[j], s.ends[j], tags[j];
    SameLength(p, e, g);
    var s' := Next(s, t);
    var p', e' := s'.srv.peers[j], s'.ends[j];
    if t.ClientTakes? && t.i == j {
      ReceiveMakesNoCalls(e.client, p.down[0]);
      assert e.up[0..] == e.up && g.up[0..] == g.up && p.down[1..|p.down|] == p.down[1..] && g.down[1..|p.down|] == g.down[1..];
      OwnShrinks(p, e, g, p', e', Tags(g.up, g.down[1..]), 0, 1, |p.down|);
    } else if t.Loses? && t.i == j {
      assert e.up[0..] == e.up && g.up[0..] == g.up && p.down[0..t.n] == p.down[..t.n] && g.down[0..t.n] == g.down[..t.n];
      OwnShrinks(p, e, g, p', e', Tags(g.up, g.down[..t.n]), 0, 0, t.n);
    } else {
      if t.ClientDrops? && t.i == j {
        FewerCalls(e.client, e.client.bus.order);
      }
      Unchanged(p, e, g, p', e');
    }
  }

  lemma StepKeepsTags(s: System, tags: seq<Tags>, t: Step, j: nat)
    requires SrvOk(s.srv) && Enabled(s, t) && AllTracked(s, tags) && j < |tags|
    ensures Keeps(s, tags, t, j)
  {
    hide Keeps, SrvOk, AllTracked, Next, Enabled;
    if t.ServerTakes? {
      ServerTakeKeepsTags(s, tags, t, j);
    } else if t.Call? {
      CallKeepsTags(s, tags, t, j);
    } else if t.New? || t.Destroy? || t.Reg? || t.Unreg? || t.Send? || t.SendBus? {
      var pkt := ServerCallSends(s, t);
      ServerCallKeepsTags(s, tags, t, pkt, j);
    } else {
      ClientSideKeepsTags(s, tags, t, j);
    }
  }

  lemma SizesMatch(s: System, t: Step)
    requires Inv(s) && Enabled(s, t)
    ensures |Next(s, t).ends| == |Next(s, t).srv.peers| == |s.ends| + if t.Connect? then 1 else 0
  {
    hide Inv, Next, Enabled;
    SameSizes(s);
    NextKeeps(s, t);
    assert |Next(s, t).ends| == |Next(s, t).srv.peers| by { SameSizes(Next(s, t)); }
    EndsGrow(s, t);
  }

  lemma SameSizes(s: System)
    requires Inv(s)
    ensures SrvOk(s.srv) && |s.ends| == |s.srv.peers|
  {
  }

  lemma EndsGrow(s: System, t: Step)
    requires Inv(s) && Enabled(s, t)
    ensures |Next(s, t).ends| == |s.ends| + if t.Connect? then 1 else 0
  {
    hide ConnOk, NewObject, DestroyObject, Register, Unregister, SendEvent, SendBusEvent, ServerTake, Receive, AfterCall, DropPeer, Disconnect;
  }

  /** Every step keeps the bookkeeping, and if it draws no handle in flight, also the ownership. */
  lemma NextKeepsTags(s: System, tags: seq<Tags>, t: Step)
    requires Inv(s) && Enabled(s, t) && AllTracked(s, tags)
    ensures AllTracked(Next(s, t), NextTags(s, tags, t))
    ensures AllOwn(s, tags) && DrawsFresh(s, t) ==> AllOwn(Next(s, t), NextTags(s, tags, t))
  {
    hide Inv, Next, Enabled, Tracked, Own, DrawsFresh, UpTags, DownTags;
    SameSizes(s);
    SizesMatch(s, t);
    var s', tags' := Next(s, t), NextTags(s, tags, t);
    forall j | 0 <= j < |tags'|
      ensures Tracked(s'.srv.peers[j], s'.ends[j], tags'[j])
      ensures AllOwn(s, tags) && DrawsFresh(s, t) ==> Own(s'.srv.peers[j], s'.ends[j], tags'[j])
    {
      if j < |tags| {
        StepKeepsTags(s, tags, t, j);
      } else {
        NewConnectionTracked(s, t);
      }
    }
  }

  lemma NewConnectionTracked(s: System, t: Step)
    requires SrvOk(s.srv) && Enabled(s, t) && t.Connect? && |s.ends| == |s.srv.peers|
    ensures var s' := Next(s, t);
            |s'.ends| == |s'.srv.peers| == |s.ends| + 1 && Own(s'.srv.peers[|s.ends|], s'.ends[|s.ends|], Tags([0], [])) &&
            Tracked(s'.srv.peers[|s.ends|], s'.ends[|s.ends|], Tags([0], []))
  {
  }

  // ---- over runs ----

  /** A run together with the tags of each of its states. */
  ghost predicate TaggedRun(states: seq<System>, steps: seq<Step>, tagged: seq<seq<Tags>>) {
    IsRun(states, steps) && |tagged| == |states| && tagged[0] == [] &&
    forall k :: 0 <= k < |steps| ==> TagsFollow(states[k], tagged[k], steps[k], tagged[k + 1])
  }

  ghost predicate TagsFollow(s: System, tags: seq<Tags>, t: Step, tags': seq<Tags>) {
    SrvOk(s.srv) && Enabled(s, t) && |tags| == |s.ends| == |s.srv.peers| && tags' == NextTags(s, tags, t)
  }

  lemma {:induction false} RunTracked(states: seq<System>, steps: seq<Step>, tagged: seq<seq<Tags>>, n: nat)
    requires TaggedRun(states, steps, tagged) && n < |states|
    ensures AllTracked(states[n], tagged[n])
    ensures (forall k :: 0 <= k < n ==> DrawsFresh(states[k], steps[k])) ==> AllOwn(states[n], tagged[n])
  {
    hide Next, NextTags, Enabled, DrawsFresh, Inv, Tracked, Own, SrvOk;
    if n > 0 {
      RunTracked(states, steps, tagged, n - 1);
      assert TagsFollow(states[n - 1], tagged[n - 1], steps[n - 1], tagged[n - 1 + 1]);
      assert TakesTo(states[n - 1], steps[n - 1], states[n - 1 + 1]);
      RunKeeps(states, steps, n - 1);
      NextKeepsTags(states[n - 1], tagged[n - 1], steps[n - 1]);
    }
  }

  /** If no call of a run draws a handle that is still in flight, every ACK a client takes
      completes the call it was sent for, or none. */
  lemma AnsweredByItsOwn(states: seq<System>, steps: seq<Step>, tagged: seq<seq<Tags>>, n: nat, i: nat, q: Pending)
    requires TaggedRun(states, steps, tagged) && n < |states| && Enabled(states[n], ClientTakes(i))
    requires forall k :: 0 <= k < n ==> DrawsFresh(states[k], steps[k])
    requires q in states[n].ends[i].client.calls && IsAckFor(states[n].srv.peers[i].down[0], q.call)
    ensures i < |tagged[n]| && tagged[n][i].down != [] && tagged[n][i].down[0] == q.id
  {
    hide IsRun, TagsFollow, DrawsFresh;
    RunTracked(states, steps, tagged, n);
    assert Own(states[n].srv.peers[i], states[n].ends[i], tagged[n][i]);
    assert Mine(states[n].srv.peers[i], states[n].ends[i], tagged[n][i], q);
  }

  /** A call that is only now being made, and the packets already in flight: they end it if and
      only if one of them removes its object or is an ACK with the handle it drew, and the first
      such packet gives its status. An ACK among them was sent for an earlier call. */
  lemma AnsweredBeforeAsked(states: seq<System>, steps: seq<Step>, tagged: seq<seq<Tags>>, n: nat, i: nat,
                            h: Handle, mid: u16, k: Handle)
    requires TaggedRun(states, steps, tagged) && n < |states| && i < |states[n].ends| && i < |states[n].srv.peers|
    requires CanCall(states[n].srv.schema, states[n].ends[i].client, h, mid, k)
    ensures var c, down := StartCall(states[n].ends[i].client, h, k), states[n].srv.peers[i].down;
            var q := Pending(k, states[n].ends[i].client.next, h);
            q in c.calls &&
            (q !in ReceiveAll(c, down).calls <==> exists j :: 0 <= j < |down| && Ends(down[j], q)) &&
            (forall j: nat :: EndedBy(q, down, j) ==> Done(q.id, EndStatus(down[j])) in ReceiveAll(c, down).log) &&
            i < |tagged[n]| && |tagged[n][i].down| == |down| &&
            (forall j :: 0 <= j < |down| && IsAckFor(down[j], k) ==> tagged[n][i].down[j] < q.id)
  {
    hide IsRun, TagsFollow, ReceiveAll, Ends;
    var c, down := states[n].ends[i].client, states[n].srv.peers[i].down;
    var q := Pending(k, c.next, h);
    RunTracked(states, steps, tagged, n);
    assert Tracked(states[n].srv.peers[i], states[n].ends[i], tagged[n][i]);
    ClientIsOk(states, steps, tagged, n, i);
    StartCallOk(c, h, k);
    FirstEndingDecides(StartCall(c, h, k), down, q);
  }

  lemma ClientIsOk(states: seq<System>, steps: seq<Step>, tagged: seq<seq<Tags>>, n: nat, i: nat)
    requires TaggedRun(states, steps, tagged) && n < |states| && i < |states[n].ends|
    ensures ClientOk(states[n].ends[i].client)
  {
    RunKeeps(states, steps, n);
    var s := states[n];
    assert ConnOk(s.srv.schema, Registered(s.srv.store), s.srv.peers[i], s.ends[i]);
  }

  /** Every run can be tagged. */
  lemma {:induction false} EveryRunIsTagged(states: seq<System>, steps: seq<Step>) returns (tagged: seq<seq<Tags>>)
    requires IsRun(states, steps)
    ensures TaggedRun(states, steps, tagged)
    decreases |steps|
  {
    hide Next, NextTags, Enabled, Inv, Tracked, SrvOk, Initial;
    if steps == [] {
      tagged := [[]];
    } else {
      var n := |steps| - 1;
      var states0, steps0 := states[..n + 1], steps[..n];
      assert forall k :: 0 <= k < n ==> TakesTo(states[k], steps[k], states[k + 1]);
      assert IsRun(states0, steps0);
      var tagged0 := EveryRunIsTagged(states0, steps0);
      RunTracked(states0, steps0, tagged0, n);
      assert TakesTo(states[n], steps[n], states[n + 1]);
      var last := NextTags(states[n], tagged0[n], steps[n]);
      tagged := tagged0 + [last];
      forall k | 0 <= k < |steps|
        ensures TagsFollow(states[k], tagged[k], steps[k], tagged[k + 1])
      {
        if k < n {
          assert TagsFollow(states0[k], tagged0[k], steps0[k], tagged0[k + 1]);
        }
      }
    }
  }

  // ---- it happens ----

  /** A quiet connection whose client may call two methods on two objects. */
  ghost predicate TwoCalls(s: System, i: nat, g: Handle, mid: u16, h: Handle, mid': u16, k: Handle) {
    i < |s.ends| && i < |s.srv.peers| && g != h && s.srv.peers[i] == Peer(PeerConnected, []) && s.ends[i].up == [] &&
    CanCall(s.srv.schema, s.ends[i].client, g, mid, k) && CanCall(s.srv.schema, s.ends[i].client, h, mid', k) &&
    s.ends[i].client.calls == []
  }

  lemma TakeStep(s: System, t: Step) returns (s': System)
    requires Inv(s) && Enabled(s, t)
    ensures Inv(s') && TakesTo(s, t, s')
  {
    hide ConnOk, Next, Enabled;
    NextKeeps(s, t);
    s' := Next(s, t);
  }

  lemma ConnectionOf(s: System, i: nat)
    requires Inv(s) && i < |s.ends|
    ensures i < |s.srv.peers| && StoreOk(s.srv.store)
    ensures ConnOk(s.srv.schema, Registered(s.srv.store), s.srv.peers[i], s.ends[i])
  {
  }

  /** With nothing in flight the client's objects are the registered ones. */
  lemma QuietObjects(s: System, i: nat, g: Handle)
    requires Inv(s) && i < |s.ends| && i < |s.srv.peers| && s.srv.peers[i] == Peer(PeerConnected, [])
    requires s.ends[i].client.phase == Connected && g in s.ends[i].client.bus.at
    ensures g in s.srv.store.objs && g in s.srv.store.reg && s.srv.store.objs[g] == s.ends[i].client.bus.at[g]
  {
    hide Covered, ClientOk;
    ConnectionOf(s, i);
    assert s.ends[i].client.bus == Registered(s.srv.store);
  }

  lemma CallStep(s: System, i: nat, g: Handle, mid: u16, k: Handle, args: Struct, s': System)
    requires i < |s.ends| && CanCall(s.srv.schema, s.ends[i].client, g, mid, k) && s.ends[i].up == []
    requires TakesTo(s, Call(i, g, mid, k, args), s')
    ensures s'.srv == s.srv && |s'.ends| == |s.ends|
    ensures s'.ends[i] == End(StartCall(s.ends[i].client, g, k), [CallPacket(s.ends[i].client, g, mid, k, args)])
  {
    hide SrvOk, CanCall;
  }

  lemma UnregStep(s: System, i: nat, g: Handle, s': System)
    requires i < |s.ends| && i < |s.srv.peers| && s.srv.peers[i] == Peer(PeerConnected, []) && g in s.srv.store.objs && g in s.srv.store.reg
    requires TakesTo(s, Unreg(g), s')
    ensures s'.ends == s.ends && s'.srv.schema == s.srv.schema && |s'.srv.peers| == |s.srv.peers|
    ensures s'.srv.peers[i] == Peer(PeerConnected, [RemovePkt(Ref(g, s.srv.store.objs[g].uid))])
    ensures s'.srv.store.objs == s.srv.store.objs && g !in s'.srv.store.reg
  {
    hide SrvOk;
  }

  /** The object is there but no longer registered, so the call is acknowledged as aborted. */
  lemma AnswerStep(s: System, i: nat, s': System)
    requires i < |s.ends| && i < |s.srv.peers| && |s.ends[i].up| == 1 && s.ends[i].up[0].CallPkt?
    requires Decodes(s.srv, s.ends[i].up[0]) && s.ends[i].up[0].handle !in s.srv.store.reg
    requires TakesTo(s, ServerTakes(i, true, []), s')
    ensures s'.ends == s.ends[i := s.ends[i].(up := [])] && s'.srv.schema == s.srv.schema && |s'.srv.peers| == |s.srv.peers|
    ensures s'.srv.peers[i].phase == s.srv.peers[i].phase
    ensures s'.srv.peers[i].down == s.srv.peers[i].down + [AckPkt(s.ends[i].up[0].call, Aborted)]
  {
    hide SrvOk;
    assert s.ends[i].up[1..] == [];
  }

  lemma RemoveStep(s: System, i: nat, s': System)
    requires i < |s.ends| && i < |s.srv.peers| && |s.srv.peers[i].down| == 2 && s.srv.peers[i].down[0].RemovePkt?
    requires TakesTo(s, ClientTakes(i), s')
    ensures |s'.ends| == |s.ends| && |s'.srv.peers| == |s.srv.peers| && s'.srv.schema == s.srv.schema
    ensures s'.srv.peers[i].down == [s.srv.peers[i].down[1]]
    ensures s'.ends[i].client == DropObject(s.ends[i].client, s.srv.peers[i].down[0].ref.handle)
  {
    hide SrvOk, DropObject;
  }

  lemma SecondCallAllowed(sc: Schema, c: Client, g: Handle, h: Handle, mid': u16, k: Handle)
    requires CanCall(sc, c, h, mid', k) && g != h && c.calls == []
    ensures CanCall(sc, DropObject(StartCall(c, g, k), g), h, mid', k)
  {
    var d := DropObject(StartCall(c, g, k), g);
    KeptCallsSpec(StartCall(c, g, k).calls, g);
    assert forall q :: q !in d.calls;
    assert d.bus.at[h] == c.bus.at[h];
  }

  /** From every such state: the client calls g, the server unregisters g and then takes the call,
      the client takes the REMOVE, which aborts the call and frees its handle. It may now call h
      with that handle, and the ACK that is still in flight answers that call. */
  lemma StaleAckAnswers(s: System, i: nat, g: Handle, mid: u16, h: Handle, mid': u16, k: Handle, args: Struct)
      returns (s1: System, s2: System, s3: System, s4: System)
    requires Inv(s) && TwoCalls(s, i, g, mid, h, mid', k)
    ensures TakesTo(s, Call(i, g, mid, k, args), s1) && TakesTo(s1, Unreg(g), s2)
    ensures TakesTo(s2, ServerTakes(i, true, []), s3) && TakesTo(s3, ClientTakes(i), s4)
    ensures i < |s4.ends| && i < |s4.srv.peers| && s4.srv.peers[i].down == [AckPkt(k, Aborted)]
    ensures CanCall(s4.srv.schema, s4.ends[i].client, h, mid', k)
    ensures EndedBy(Pending(k, s4.ends[i].client.next, h), s4.srv.peers[i].down, 0)
  {
    hide Inv, TakesTo, CanCall, DropObject;
    var c := s.ends[i].client;
    MayCall(s, i, g, mid, k);
    QuietObjects(s, i, g);
    s1 := TakeStep(s, Call(i, g, mid, k, args));
    CallStep(s, i, g, mid, k, args, s1);
    s2 := TakeStep(s1, Unreg(g));
    UnregStep(s1, i, g, s2);
    s3 := TakeStep(s2, ServerTakes(i, true, []));
    AnswerStep(s2, i, s3);
    s4 := TakeStep(s3, ClientTakes(i));
    RemoveStep(s3, i, s4);
    SecondCallAllowed(s.srv.schema, c, g, h, mid', k);
  }

  lemma MayCall(s: System, i: nat, g: Handle, mid: u16, k: Handle)
    requires i < |s.ends| && CanCall(s.srv.schema, s.ends[i].client, g, mid, k)
    ensures s.ends[i].client.phase == Connected && g in s.ends[i].client.bus.at
    ensures var uid := s.ends[i].client.bus.at[g].uid;
            uid in s.srv.schema.classes && mid in s.srv.schema.classes[uid].methods
  {
  }
}
