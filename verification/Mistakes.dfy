/** When a call can be completed by the answer to another call: an exact condition on the state in
    which the call is made, over all ways the run may go on from there. */
module Mistakes {
  import opened Values
  import opened Lists
  import opened Bus
  import opened ObjectStore
  import opened ServerSpec
  import opened ClientSpec
  import opened Runs
  import opened Answers

  /** A state of the system with the serials of what is in flight. */
  datatype Point = Point(s: System, tags: seq<Tags>)

  ghost predicate Moves(x: Point, t: Step, y: Point) { TakesTo(x.s, t, y.s) && TagsFollow(x.s, x.tags, t, y.tags) }

  /** A continuation: the points it goes through and the steps between them. */
  ghost predicate Path(xs: seq<Point>, ts: seq<Step>) {
    |xs| == |ts| + 1 && forall n :: 0 <= n < |ts| ==> Moves(xs[n], ts[n], xs[n + 1])
  }

  ghost predicate Leads(x: Point, y: Point) {
    exists xs, ts :: Path(xs, ts) && xs[0] == x && xs[|xs| - 1] == y
  }

  lemma LeadsHere(x: Point)
    ensures Leads(x, x)
  {
    var xs, ts: seq<Step> := [x], [];
    assert Path(xs, ts) && xs[0] == x && xs[|xs| - 1] == x;
  }

  lemma LeadsFirst(x: Point, t: Step, y: Point, z: Point)
    requires Moves(x, t, y) && Leads(y, z)
    ensures Leads(x, z)
  {
    hide Moves;
    var xs, ts :| Path(xs, ts) && xs[0] == y && xs[|xs| - 1] == z;
    var xs', ts' := [x] + xs, [t] + ts;
    forall n | 0 <= n < |ts'|
      ensures Moves(xs'[n], ts'[n], xs'[n + 1])
    {
      if n > 0 {
        assert Moves(xs[n - 1], ts[n - 1], xs[n - 1 + 1]);
      }
    }
    assert Path(xs', ts') && xs'[0] == x && xs'[|xs'| - 1] == z;
  }

  // ---- what every point of a run satisfies ----

  /** CALLs in flight name a type and method of the schema and a valid handle. */
  ghost predicate CallsMeant(s: System) {
    forall i, m :: 0 <= i < |s.ends| && 0 <= m < |s.ends[i].up| ==> CallMeant(s.srv.schema, s.ends[i].up[m])
  }

  ghost predicate CallMeant(sc: Schema, u: Up) {
    u.CallPkt? ==> u.handle != INVALID_HANDLE && u.uid in sc.classes && u.mid in sc.classes[u.uid].methods
  }

  ghost predicate Good(x: Point) { Inv(x.s) && AllTracked(x.s, x.tags) && CallsMeant(x.s) }

  lemma SchemaStays(s: System, t: Step)
    requires SrvOk(s.srv) && Enabled(s, t)
    ensures Next(s, t).srv.schema == s.srv.schema
  {
    hide SrvOk;
  }

  /** What a step does to the packets on their way up. */
  lemma UpAfter(s: System, t: Step, i: nat)
    requires SrvOk(s.srv) && Enabled(s, t) && |s.ends| == |s.srv.peers| && i < |Next(s, t).ends|
    ensures i <= |s.ends| && (i < |s.ends| && t.ServerTakes? && t.i == i ==> s.ends[i].up != [])
    ensures var e' := Next(s, t).ends[i];
            if i == |s.ends| then t.Connect? && e'.up == [t.conreq]
            else if t.Call? && t.i == i && CanCall(s.srv.schema, s.ends[i].client, t.h, t.mid, t.k)
            then e'.up == s.ends[i].up + [CallPacket(s.ends[i].client, t.h, t.mid, t.k, t.args)]
            else if t.ServerTakes? && t.i == i then e'.up == s.ends[i].up[1..]
            else i < |s.ends| && e'.up == s.ends[i].up
  {
    hide SrvOk, NewObject, DestroyObject, Register, Unregister, SendEvent, SendBusEvent, ServerTake, Receive, DropPeer, Disconnect, CanCall;
  }

  lemma CallIsMeant(sc: Schema, c: Client, h: Handle, mid: u16, k: Handle, args: Struct)
    requires ClientOk(c) && CanCall(sc, c, h, mid, k)
    ensures CallMeant(sc, CallPacket(c, h, mid, k, args))
  {
  }

  lemma CallsStayMeant(s: System, t: Step)
    requires Inv(s) && Enabled(s, t) && CallsMeant(s)
    ensures CallsMeant(Next(s, t))
  {
    hide Inv, Next, Enabled, CallMeant, CanCall, SrvOk;
    SameSizes(s);
    SchemaStays(s, t);
    var s' := Next(s, t);
    forall i, m | 0 <= i < |s'.ends| && 0 <= m < |s'.ends[i].up|
      ensures CallMeant(s'.srv.schema, s'.ends[i].up[m])
    {
      UpAfter(s, t, i);
      if i == |s.ends| {
        assert CallMeant(s.srv.schema, t.conreq) by { RequestIsNoCall(s, t); }
      } else {
        var up := s.ends[i].up;
        assert forall j :: 0 <= j < |up| ==> CallMeant(s.srv.schema, s.ends[i].up[j]);
        if t.ServerTakes? && t.i == i {
          assert s'.ends[i].up[m] == up[m + 1];
        }
        if t.Call? && t.i == i && CanCall(s.srv.schema, s.ends[i].client, t.h, t.mid, t.k) {
          assert ClientOk(s.ends[i].client) by { ClientOkIn(s, i); }
          CallIsMeant(s.srv.schema, s.ends[i].client, t.h, t.mid, t.k, t.args);
        }
      }
    }
  }

  lemma RequestIsNoCall(s: System, t: Step)
    requires t.Connect? && Enabled(s, t)
    ensures CallMeant(s.srv.schema, t.conreq)
  {
  }

  lemma ClientOkIn(s: System, i: nat)
    requires Inv(s) && i < |s.ends|
    ensures ClientOk(s.ends[i].client)
  {
    ConnectionOf(s, i);
  }

  lemma MoveKeepsGood(x: Point, t: Step, y: Point)
    requires Good(x) && Moves(x, t, y)
    ensures Good(y)
  {
    hide Inv, Next, Enabled, AllTracked, CallsMeant, NextTags, SrvOk;
    NextKeeps(x.s, t);
    NextKeepsTags(x.s, x.tags, t);
    CallsStayMeant(x.s, t);
  }

  /** Every enabled step can be taken from a good point. */
  lemma Move(x: Point, t: Step) returns (y: Point)
    requires Good(x) && Enabled(x.s, t)
    ensures Moves(x, t, y) && Good(y)
  {
    hide Inv, Next, Enabled, CallsMeant, NextTags, SrvOk, Tracked;
    SameSizes(x.s);
    y := Point(Next(x.s, t), NextTags(x.s, x.tags, t));
    MoveKeepsGood(x, t, y);
  }

  lemma {:induction false} RunIsGood(states: seq<System>, steps: seq<Step>, tagged: seq<seq<Tags>>, n: nat)
    requires TaggedRun(states, steps, tagged) && n < |states|
    ensures Good(Point(states[n], tagged[n]))
  {
    hide Inv, Next, Enabled, NextTags, SrvOk, Tracked, Good;
    if n == 0 {
      FirstIsGood(states, steps, tagged);
    } else {
      RunIsGood(states, steps, tagged, n - 1);
      assert TagsFollow(states[n - 1], tagged[n - 1], steps[n - 1], tagged[n - 1 + 1]);
      assert TakesTo(states[n - 1], steps[n - 1], states[n - 1 + 1]);
      MoveKeepsGood(Point(states[n - 1], tagged[n - 1]), steps[n - 1], Point(states[n], tagged[n]));
    }
  }

  lemma FirstIsGood(states: seq<System>, steps: seq<Step>, tagged: seq<seq<Tags>>)
    requires TaggedRun(states, steps, tagged)
    ensures Good(Point(states[0], tagged[0]))
  {
    hide TagsFollow, TakesTo;
    RunKeeps(states, steps, 0);
    RunTracked(states, steps, tagged, 0);
  }

  // ---- one connection ----

  /** What there is of connection i at a point. */
  datatype Link = Link(phase: PeerPhase, down: seq<Down>, downTags: seq<nat>, client: Client, up: seq<Up>, upTags: seq<nat>)

  ghost predicate Has(x: Point, i: nat) { i < |x.s.ends| && i < |x.s.srv.peers| && i < |x.tags| }

  ghost function LinkOf(x: Point, i: nat): Link
    requires Has(x, i)
  {
    Link(x.s.srv.peers[i].phase, x.s.srv.peers[i].down, x.tags[i].down, x.s.ends[i].client, x.s.ends[i].up, x.tags[i].up)
  }

  ghost predicate LinkGood(reg: Objects, l: Link) {
    |l.downTags| == |l.down| && |l.upTags| == |l.up| && ClientOk(l.client) &&
    LinkOk(reg, Peer(l.phase, l.down), l.client)
  }

  lemma GoodLink(x: Point, i: nat)
    requires Good(x) && Has(x, i)
    ensures LinkGood(Registered(x.s.srv.store), LinkOf(x, i)) && SrvOk(x.s.srv)
  {
    hide CallsMeant, SrvOk, Covered;
    SameSizes(x.s);
    ConnectionOf(x.s, i);
    assert Tracked(x.s.srv.peers[i], x.s.ends[i], x.tags[i]);
  }

  /** The client is about to take an ACK that was sent for another call and completes q. */
  ghost predicate Mistaken(x: Point, i: nat, q: Pending) {
    Has(x, i) && Enabled(x.s, ClientTakes(i)) && LinkMistaken(LinkOf(x, i), q)
  }

  ghost predicate LinkMistaken(l: Link, q: Pending) {
    q in l.client.calls && l.down != [] && l.downTags != [] && IsAckFor(l.down[0], q.call) && l.downTags[0] != q.id
  }

  /** The run can go on to such a point. */
  ghost predicate CanMistake(x: Point, i: nat, q: Pending) {
    exists z :: Leads(x, z) && Mistaken(z, i, q)
  }

  lemma MistakeLater(x: Point, t: Step, y: Point, i: nat, q: Pending)
    requires Moves(x, t, y) && CanMistake(y, i, q)
    ensures CanMistake(x, i, q)
  {
    hide Moves, Leads, Mistaken;
    var z :| Leads(y, z) && Mistaken(z, i, q);
    LeadsFirst(x, t, y, z);
  }

  // ---- what each step does to connection i ----

  lemma TakeDownEffect(x: Point, i: nat, y: Point)
    requires Has(x, i) && Moves(x, ClientTakes(i), y) && |x.tags[i].down| == |x.s.srv.peers[i].down|
    ensures Has(y, i)
    ensures var l := LinkOf(x, i);
            l.down != [] && LinkOf(y, i) == l.(down := l.down[1..], downTags := l.downTags[1..], client := Receive(l.client, l.down[0]))
    ensures y.s.srv.store == x.s.srv.store && y.s.srv.schema == x.s.srv.schema
  {
    hide SrvOk, Receive;
  }

  /** A server call: one packet more, no ACK, for connected peers, or nothing. */
  lemma ServerCallEffect(x: Point, t: Step, y: Point, i: nat)
    requires Has(x, i) && Moves(x, t, y) && (t.New? || t.Destroy? || t.Reg? || t.Unreg? || t.Send? || t.SendBus?)
    ensures Has(y, i)
    ensures var l, l' := LinkOf(x, i), LinkOf(y, i);
            l' == l || exists pkt: Down :: !pkt.AckPkt? && l' == l.(down := l.down + [pkt], downTags := l.downTags + [0])
  {
    hide SrvOk, Enabled, NewObject, DestroyObject, Register, Unregister, SendEvent, SendBusEvent;
    var pkt := ServerCallSends(x.s, t);
    var p, p' := x.s.srv.peers[i], y.s.srv.peers[i];
    assert |y.s.srv.peers| == |x.s.srv.peers|;
    assert p' == p || p' == Sent(p, pkt);
    assert UpTags(x.s, x.tags, t, i) == x.tags[i].up;
    assert TagOf(x.s, x.tags, t, i) == 0;
    assert y.tags[i] == Tags(UpTags(x.s, x.tags, t, i), DownTags(x.s, x.tags, t, i));
  }

  /** The server takes a packet from connection i and may answer it. */
  ghost predicate Answered(srv: Srv, l: Link, l': Link) {
    l.up != [] && l.upTags != [] && l'.client == l.client && l'.up == l.up[1..] && l'.upTags == l.upTags[1..] &&
    (l.phase == PeerConnected ==> l'.phase == PeerConnected) &&
    if l.up[0].CallPkt? && Decodes(srv, l.up[0])
    then exists status :: l'.down == l.down + [AckPkt(l.up[0].call, status)] && l'.downTags == l.downTags + [l.upTags[0]]
    else if l.up[0].CallPkt? || l.phase != PeerIdle then l'.down == l.down && l'.downTags == l.downTags
    else exists a, items :: l'.down == l.down + [ConResp(a, items)] && l'.downTags == l.downTags + [l.upTags[0]]
  }

  lemma TakeUpEffect(x: Point, t: Step, y: Point, i: nat)
    requires Has(x, i) && Moves(x, t, y) && t.ServerTakes? && t.i == i && |x.tags[i].up| == |x.s.ends[i].up|
    ensures Has(y, i) && Answered(x.s.srv, LinkOf(x, i), LinkOf(y, i)) && y.s.srv.schema == x.s.srv.schema
  {
    hide SrvOk, Decodes, AckStatus, Welcome, ItemsOf;
    var l, l' := LinkOf(x, i), LinkOf(y, i);
    var u := l.up[0];
    if u.CallPkt? && Decodes(x.s.srv, u) {
      var status := AckStatus(x.s.srv, u, t.attempts);
      assert l'.down == l.down + [AckPkt(u.call, status)] && l'.downTags == l.downTags + [l.upTags[0]];
    } else if u.ConReq? && l.phase == PeerIdle {
      var pkt := l'.down[|l.down|];
      assert l'.down == l.down + [ConResp(pkt.accepted, pkt.snapshot)] && l'.downTags == l.downTags + [l.upTags[0]];
    }
  }

  lemma CallEffect(x: Point, t: Step, y: Point, i: nat)
    requires Has(x, i) && Moves(x, t, y) && t.Call? && t.i == i
    ensures Has(y, i)
    ensures var l := LinkOf(x, i);
            LinkOf(y, i) == if !CanCall(x.s.srv.schema, l.client, t.h, t.mid, t.k) then l
                            else l.(client := StartCall(l.client, t.h, t.k), upTags := l.upTags + [l.client.next],
                                    up := l.up + [CallPacket(l.client, t.h, t.mid, t.k, t.args)])
  {
    hide SrvOk, CanCall;
  }

  lemma DropEffect(x: Point, t: Step, y: Point, i: nat)
    requires Has(x, i) && Moves(x, t, y) && |x.tags[i].down| == |x.s.srv.peers[i].down|
    requires (t.PeerDrops? && t.i == i) || (t.ClientDrops? && t.i == i) || (t.Loses? && t.i == i)
    ensures Has(y, i)
    ensures var l := LinkOf(x, i);
            LinkOf(y, i) == if t.PeerDrops? then l.(phase := PeerGone)
                            else if t.ClientDrops? then l.(client := Disconnect(l.client))
                            else l.(down := l.down[..t.n], downTags := l.downTags[..t.n])
    ensures t.Loses? ==> LinkOf(x, i).phase == PeerGone
  {
    hide SrvOk, Disconnect;
  }

  /** Steps of other connections leave this one alone. */
  lemma ElsewhereEffect(x: Point, t: Step, y: Point, i: nat)
    requires Has(x, i) && Moves(x, t, y)
    requires t.Connect? || ((t.ServerTakes? || t.ClientTakes? || t.Call? || t.PeerDrops? || t.ClientDrops? || t.Loses?) && t.i != i)
    ensures Has(y, i) && LinkOf(y, i) == LinkOf(x, i)
  {
    hide SrvOk, Receive, Disconnect, CanCall, Decodes, AckStatus, Welcome, ItemsOf;
  }

  // ---- the condition ----

  /** A CALL that the server may still answer to this call: it carries its handle, and it is not a
      call on the same object under another type, which the server cannot decode as long as the
      client holds the object. */
  ghost predicate Qualifies(u: Up, q: Pending, bus: Objects) {
    u.CallPkt? && u.call == q.call && (u.handle == q.obj ==> Held(bus, q.obj, u.uid))
  }

  ghost predicate NoneEnds(ps: seq<Down>, q: Pending) { forall l :: 0 <= l < |ps| ==> !Ends(ps[l], q) }

  /** What in flight when q is made endangers it: on the way down, the first packet that ends it is
      an ACK; or none ends it, and on the way up there is a CALL that may be answered to it. */
  ghost predicate Threatened(l: Link, q: Pending) {
    (exists j: nat :: EndedBy(q, l.down, j) && l.down[j].AckPkt?) ||
    (l.phase == PeerConnected && NoneEnds(l.down, q) && exists m :: 0 <= m < |l.up| && Qualifies(l.up[m], q, l.client.bus))
  }

  // ---- a threat can come true ----

  /** A pending call means a connected client. */
  lemma PendingMeansConnected(c: Client, q: Pending)
    requires ClientOk(c) && q in c.calls
    ensures c.phase == Connected && q.obj in c.bus.at && BodyOk(c)
  {
  }

  /** The foreign ACK is on its way down: the client takes what is before it. */
  lemma {:induction false} DownThreat(x: Point, i: nat, q: Pending, j: nat)
    requires Good(x) && Has(x, i)
    requires var l := LinkOf(x, i);
             q in l.client.calls && EndedBy(q, l.down, j) && l.down[j].AckPkt? && |l.downTags| == |l.down| && l.downTags[j] != q.id
    ensures CanMistake(x, i, q)
    decreases j
  {
    hide Good, Leads, Ends, Moves, ClientOk, LinkOk, Receive;
    var l := LinkOf(x, i);
    GoodLink(x, i);
    PendingMeansConnected(l.client, q);
    if j == 0 {
      LeadsHere(x);
      assert IsAckFor(l.down[0], q.call) by { AckEndsIt(l.down[0], q); }
      assert Mistaken(x, i, q);
    } else {
      var y := Move(x, ClientTakes(i));
      TakeDownEffect(x, i, y);
      ReceiveEnds(l.client, l.down[0], q);
      assert l.down[1..][j - 1] == l.down[j];
      assert forall n :: 0 <= n < j - 1 ==> l.down[1..][n] == l.down[n + 1];
      DownThreat(y, i, q, j - 1);
      MistakeLater(x, ClientTakes(i), y, i, q);
    }
  }

  lemma AckEndsIt(p: Down, q: Pending)
    requires Ends(p, q) && p.AckPkt?
    ensures IsAckFor(p, q.call)
  {
  }

  /** While nothing in flight removes it, a held object is registered on the server, same type. */
  lemma StillThere(x: Point, i: nat, h: Handle)
    requires Good(x) && Has(x, i)
    requires var l := LinkOf(x, i);
             l.phase == PeerConnected && l.client.phase == Connected && h in l.client.bus.at && !RemovedIn(l.down, h)
    ensures var st := x.s.srv.store;
            h in st.reg && h in st.objs && st.objs[h].uid == LinkOf(x, i).client.bus.at[h].uid
  {
    hide Good, SrvOk, Replay, ReplayOk, ClientOk, RemovedIn;
    GoodLink(x, i);
    var l := LinkOf(x, i);
    var v := ViewOf(l.client);
    if !Held(Replay(v, l.down).bus, h, v.bus.at[h].uid) {
      LostOnlyByRemoval(v, l.down, h);
    }
  }

  lemma NoneRemoves(ps: seq<Down>, q: Pending)
    requires NoneEnds(ps, q)
    ensures !RemovedIn(ps, q.obj)
  {
  }

  /** A server call that does not touch the object of q. */
  lemma HarmlessCall(x: Point, t: Step, i: nat, q: Pending, g: Handle) returns (y: Point)
    requires Good(x) && Has(x, i) && g != q.obj && (t == Unreg(g) || t == Destroy(g) || t.New?)
    requires LinkOf(x, i).phase == PeerConnected && NoneEnds(LinkOf(x, i).down, q)
    ensures Moves(x, t, y) && Good(y) && Has(y, i) && y.s.srv == Next(x.s, t).srv
    ensures var l, l' := LinkOf(x, i), LinkOf(y, i);
            l'.client == l.client && l'.up == l.up && l'.upTags == l.upTags && l'.phase == PeerConnected && NoneEnds(l'.down, q)
  {
    hide Good, Moves, Next, SrvOk;
    y := Move(x, t);
    MovesTo(x, t, y);
    GoodLink(x, i);
    ServerCallEffect(x, t, y, i);
    HarmlessPacket(x, t, y, i, q, g);
  }

  lemma MovesTo(x: Point, t: Step, y: Point)
    requires Moves(x, t, y)
    ensures SrvOk(x.s.srv) && Enabled(x.s, t) && y.s == Next(x.s, t)
  {
  }

  lemma HarmlessPacket(x: Point, t: Step, y: Point, i: nat, q: Pending, g: Handle)
    requires Has(x, i) && Has(y, i) && Moves(x, t, y) && g != q.obj && (t == Unreg(g) || t == Destroy(g) || t.New?)
    requires NoneEnds(LinkOf(x, i).down, q)
    ensures NoneEnds(LinkOf(y, i).down, q)
  {
    hide SrvOk;
    var d, d' := LinkOf(x, i).down, LinkOf(y, i).down;
    if d' != d {
      assert t == Unreg(g) && d' == d + [RemovePkt(Ref(g, x.s.srv.store.objs[g].uid))];
    }
  }

  /** The server can always come to decode a CALL that qualifies: by having an object of that
      handle and type, made for it if need be. */
  lemma MadeDecodable(x: Point, i: nat, q: Pending) returns (y: Point)
    requires Good(x) && Has(x, i)
    requires var l := LinkOf(x, i);
             q in l.client.calls && l.phase == PeerConnected && NoneEnds(l.down, q) && l.up != [] && Qualifies(l.up[0], q, l.client.bus)
    ensures Good(y) && Has(y, i) && (CanMistake(y, i, q) ==> CanMistake(x, i, q))
    ensures var l, l' := LinkOf(x, i), LinkOf(y, i);
            l'.client == l.client && l'.up == l.up && l'.upTags == l.upTags && l'.phase == PeerConnected && NoneEnds(l'.down, q) &&
            Decodes(y.s.srv, l.up[0])
  {
    hide Good, CanMistake, Moves, NoneEnds, SrvOk, ClientOk, LinkOk, Next;
    var l := LinkOf(x, i);
    var u := l.up[0];
    var g := u.handle;
    GoodLink(x, i);
    PendingMeansConnected(l.client, q);
    UpIsMeant(x, i);
    if g == q.obj {
      NoneRemoves(l.down, q);
      StillThere(x, i, g);
      y := x;
    } else if Decodes(x.s.srv, u) {
      y := x;
    } else {
      var a := HarmlessCall(x, Unreg(g), i, q, g);
      var b := HarmlessCall(a, Destroy(g), i, q, g);
      y := HarmlessCall(b, New(g, u.uid, map[]), i, q, g);
      if CanMistake(y, i, q) {
        MistakeLater(b, New(g, u.uid, map[]), y, i, q);
        MistakeLater(a, Destroy(g), b, i, q);
        MistakeLater(x, Unreg(g), a, i, q);
      }
      SrvOkOf(x);
      SrvOkOf(a);
      SrvOkOf(b);
      Renewed(x.s.srv, a.s.srv, b.s.srv, y.s.srv, g, u) by {
        NextServer(x.s, Unreg(g));
        NextServer(a.s, Destroy(g));
        NextServer(b.s, New(g, u.uid, map[]));
      }
    }
  }

  lemma SrvOkOf(x: Point)
    requires Good(x)
    ensures SrvOk(x.s.srv)
  {
  }

  lemma NextServer(s: System, t: Step)
    requires SrvOk(s.srv) && Enabled(s, t)
    ensures t.Unreg? ==> Next(s, t).srv == Unregister(s.srv, t.h)
    ensures t.Destroy? ==> Next(s, t).srv == DestroyObject(s.srv, t.h)
    ensures t.New? ==> Next(s, t).srv == NewObject(s.srv, t.h, t.uid, t.info)
  {
  }

  lemma Renewed(s: Srv, a: Srv, b: Srv, c: Srv, g: Handle, u: Up)
    requires SrvOk(s) && a == Unregister(s, g) && b == DestroyObject(a, g) && u.CallPkt? && c == NewObject(b, g, u.uid, map[])
    requires u.handle == g != INVALID_HANDLE && u.uid in s.schema.classes && u.mid in s.schema.classes[u.uid].methods
    ensures Decodes(c, u)
  {
    assert g !in a.store.reg;
  }

  lemma UpIsMeant(x: Point, i: nat)
    requires Good(x) && Has(x, i) && x.s.ends[i].up != []
    ensures CallMeant(x.s.srv.schema, x.s.ends[i].up[0])
  {
    hide Inv, AllTracked, CallMeant;
  }

  /** Nothing on the way down ends the call, and a CALL on the way up qualifies: the server takes
      what is before it and answers it. */
  lemma {:induction false} UpThreat(x: Point, i: nat, q: Pending, m: nat)
    requires Good(x) && Has(x, i)
    requires var l := LinkOf(x, i);
             q in l.client.calls && l.phase == PeerConnected && NoneEnds(l.down, q) && m < |l.up| == |l.upTags| &&
             Qualifies(l.up[m], q, l.client.bus) && l.upTags[m] != q.id &&
             forall n :: 0 <= n < m ==> !Qualifies(l.up[n], q, l.client.bus)
    ensures CanMistake(x, i, q)
    decreases m
  {
    hide Good, CanMistake, Moves, ClientOk, LinkOk, SrvOk, Decodes, Qualifies;
    var l := LinkOf(x, i);
    GoodLink(x, i);
    PendingMeansConnected(l.client, q);
    if m == 0 {
      var y := MadeDecodable(x, i, q);
      assert l.up[0].CallPkt? && l.up[0].call == q.call by { QualifyingCall(l.up[0], q, l.client.bus); }
      AnswerThreat(y, i, q);
    } else {
      var t := ServerTakes(i, true, []);
      var y := Move(x, t);
      TakeUpEffect(x, t, y, i);
      NotAnswered(x, y, i, q);
      var l' := LinkOf(y, i);
      assert l.up[1..][m - 1] == l.up[m] && l.upTags[1..][m - 1] == l.upTags[m];
      assert forall n :: 0 <= n < m - 1 ==> l.up[1..][n] == l.up[n + 1];
      UpThreat(y, i, q, m - 1);
      MistakeLater(x, t, y, i, q);
    }
  }

  lemma QualifyingCall(u: Up, q: Pending, bus: Objects)
    requires Qualifies(u, q, bus)
    ensures u.CallPkt? && u.call == q.call
  {
  }

  lemma AnswerThreat(x: Point, i: nat, q: Pending)
    requires Good(x) && Has(x, i)
    requires var l := LinkOf(x, i);
             q in l.client.calls && l.phase == PeerConnected && NoneEnds(l.down, q) && l.up != [] && |l.up| == |l.upTags| &&
             l.up[0].CallPkt? && l.up[0].call == q.call && Decodes(x.s.srv, l.up[0]) && l.upTags[0] != q.id
    ensures CanMistake(x, i, q)
  {
    hide Good, CanMistake, Moves, ClientOk, LinkOk, SrvOk, Decodes;
    var l := LinkOf(x, i);
    GoodLink(x, i);
    PendingMeansConnected(l.client, q);
    var t := ServerTakes(i, true, []);
    var y := Move(x, t);
    TakeUpEffect(x, t, y, i);
    var l' := LinkOf(y, i);
    assert l'.down[|l.down|].AckPkt? && EndedBy(q, l'.down, |l.down|);
    DownThreat(y, i, q, |l.down|);
    MistakeLater(x, t, y, i, q);
  }

  /** A CALL that does not qualify, and a connection request, are not answered to q. */
  lemma NotAnswered(x: Point, y: Point, i: nat, q: Pending)
    requires Good(x) && Has(x, i) && Has(y, i) && Answered(x.s.srv, LinkOf(x, i), LinkOf(y, i))
    requires var l := LinkOf(x, i);
             q in l.client.calls && l.phase == PeerConnected && NoneEnds(l.down, q) && !Qualifies(l.up[0], q, l.client.bus)
    ensures NoneEnds(LinkOf(y, i).down, q)
  {
    hide Good, ClientOk, LinkOk, SrvOk;
    var l := LinkOf(x, i);
    GoodLink(x, i);
    PendingMeansConnected(l.client, q);
    NoneRemoves(l.down, q);
    StillThere(x, i, q.obj);
    if l.up[0].CallPkt? && l.up[0].call == q.call {
      assert !Decodes(x.s.srv, l.up[0]);
    }
  }

  // ---- without a threat it cannot ----

  /** No foreign ACK can come first: each on the way down has something before it that ends q, and
      as long as nothing on the way down ends q, no foreign CALL on the way up qualifies. */
  ghost predicate Safe(l: Link, q: Pending) {
    |l.downTags| == |l.down| && |l.upTags| == |l.up| && q.id < l.client.next &&
    (q in l.client.calls ==>
      (forall j :: 0 <= j < |l.down| && IsAckFor(l.down[j], q.call) && l.downTags[j] != q.id ==> !NoneEnds(l.down[..j], q)) &&
      (l.phase != PeerConnected || !NoneEnds(l.down, q) ||
       forall m :: 0 <= m < |l.up| && Qualifies(l.up[m], q, l.client.bus) ==> l.upTags[m] == q.id))
  }

  lemma SafeIsNotMistaken(l: Link, q: Pending)
    requires Safe(l, q)
    ensures !LinkMistaken(l, q)
  {
    assert NoneEnds(l.down[..0], q);
  }

  /** More on the way down does not help a foreign ACK. */
  lemma SafeAfterSend(l: Link, l': Link, q: Pending, pkt: Down, tag: nat)
    requires Safe(l, q) && l' == l.(down := l.down + [pkt], downTags := l.downTags + [tag])
    requires IsAckFor(pkt, q.call) && tag != q.id && q in l.client.calls ==> !NoneEnds(l.down, q)
    ensures Safe(l', q)
  {
    forall j | 0 <= j < |l'.down|
      ensures l'.down[..j] == if j < |l.down| then l.down[..j] else l.down
    {
    }
    if !NoneEnds(l.down, q) {
      var n :| 0 <= n < |l.down| && Ends(l.down[n], q);
      assert l'.down[n] == l.down[n];
    }
  }

  lemma SafeAfterTakeUp(l: Link, q: Pending)
    requires Safe(l, q) && l.up != []
    ensures Safe(l.(up := l.up[1..], upTags := l.upTags[1..]), q)
  {
  }

  lemma SafeAfterAnswer(x: Point, y: Point, i: nat, q: Pending)
    requires Good(x) && Has(x, i) && Has(y, i) && Safe(LinkOf(x, i), q)
    requires Answered(x.s.srv, LinkOf(x, i), LinkOf(y, i))
    requires LinkOf(x, i).phase != PeerGone
    ensures Safe(LinkOf(y, i), q)
  {
    hide Good, ClientOk, LinkOk, SrvOk, Safe, Decodes, Qualifies;
    var l, l' := LinkOf(x, i), LinkOf(y, i);
    GoodLink(x, i);
    assert |l.downTags| == |l.down|;
    var u := l.up[0];
    var l1 := l.(up := l.up[1..], upTags := l.upTags[1..]);
    SafeAfterTakeUp(l, q);
    if q in l.client.calls {
      PendingMeansConnected(l.client, q);
      assert l.phase == PeerConnected by { PhaseIsConnected(x, i); }
      if u.CallPkt? && Decodes(x.s.srv, u) {
        if u.call == q.call && l.upTags[0] != q.id {
          ForeignAnswerComesLate(x, y, i, q);
        }
        SafeAfterSend(l1, l', q, l'.down[|l.down|], l.upTags[0]);
      }
    } else {
      SafeWhenDone(l, l', q);
    }
  }

  lemma AnswerEnds(srv: Srv, l: Link, l': Link, q: Pending)
    requires Answered(srv, l, l') && l.up[0].CallPkt? && Decodes(srv, l.up[0]) && l.up[0].call == q.call
    ensures !NoneEnds(l'.down, q)
  {
    hide Decodes;
    assert Ends(l'.down[|l.down|], q);
  }

  lemma ForeignAnswerComesLate(x: Point, y: Point, i: nat, q: Pending)
    requires Good(x) && Has(x, i) && Has(y, i) && Safe(LinkOf(x, i), q) && Answered(x.s.srv, LinkOf(x, i), LinkOf(y, i))
    requires var l := LinkOf(x, i);
             l.phase == PeerConnected && q in l.client.calls && l.up[0].CallPkt? && Decodes(x.s.srv, l.up[0]) &&
             l.up[0].call == q.call && l.upTags[0] != q.id
    ensures !NoneEnds(LinkOf(x, i).down, q)
  {
    hide Good, Safe, NoneEnds, Decodes, Qualifies;
    var l := LinkOf(x, i);
    AnswerEnds(x.s.srv, l, LinkOf(y, i), q);
    if NoneEnds(l.down, q) {
      ForeignQualifies(l, q);
      NotAnswered(x, y, i, q);
    }
  }

  lemma ForeignQualifies(l: Link, q: Pending)
    requires Safe(l, q) && q in l.client.calls && l.phase == PeerConnected && NoneEnds(l.down, q) && l.up != [] && l.upTags[0] != q.id
    ensures !Qualifies(l.up[0], q, l.client.bus)
  {
  }

  lemma PhaseIsConnected(x: Point, i: nat)
    requires Good(x) && Has(x, i) && LinkOf(x, i).client.phase == Connected && LinkOf(x, i).phase != PeerGone
    ensures LinkOf(x, i).phase == PeerConnected
  {
    hide Good, ReplayOk, Replay;
    GoodLink(x, i);
  }

  lemma SafeWhenDone(l: Link, l': Link, q: Pending)
    requires Safe(l, q) && q !in l'.client.calls && l'.client.next >= l.client.next
    requires |l'.downTags| == |l'.down| && |l'.upTags| == |l'.up|
    ensures Safe(l', q)
  {
  }

  /** The client takes a packet: either it ends q, or what is left is as safe as before. */
  lemma SafeAfterTakeDown(x: Point, i: nat, q: Pending, l': Link)
    requires Good(x) && Has(x, i) && Safe(LinkOf(x, i), q) && LinkOf(x, i).down != [] && LinkOf(x, i).client.phase != Closed
    requires var l := LinkOf(x, i);
             l' == l.(down := l.down[1..], downTags := l.downTags[1..], client := Receive(l.client, l.down[0]))
    ensures Safe(l', q)
  {
    hide Good, ClientOk, LinkOk, SrvOk, Receive, Ends;
    var l := LinkOf(x, i);
    GoodLink(x, i);
    ReceiveMakesNoCalls(l.client, l.down[0]);
    if q in l'.client.calls {
      PendingMeansConnected(l.client, q);
      ReceiveEnds(l.client, l.down[0], q);
      SameTypeAfter(x, i, q);
      forall j | 0 <= j < |l'.down| && IsAckFor(l'.down[j], q.call) && l'.downTags[j] != q.id
        ensures !NoneEnds(l'.down[..j], q)
      {
        assert l'.down[j] == l.down[j + 1];
        var n :| 0 <= n < j + 1 && Ends(l.down[..j + 1][n], q);
        assert l'.down[..j][n - 1] == l.down[..j + 1][n];
      }
      if !NoneEnds(l.down, q) {
        var n :| 0 <= n < |l.down| && Ends(l.down[n], q);
        assert l'.down[n - 1] == l.down[n];
      }
    }
  }

  lemma SameTypeAfter(x: Point, i: nat, q: Pending)
    requires Good(x) && Has(x, i) && LinkOf(x, i).down != [] && LinkOf(x, i).client.phase == Connected
    requires q in LinkOf(x, i).client.calls && !Ends(LinkOf(x, i).down[0], q)
    ensures var l := LinkOf(x, i);
            var bus' := Receive(l.client, l.down[0]).bus;
            q.obj in l.client.bus.at && q.obj in bus'.at && bus'.at[q.obj].uid == l.client.bus.at[q.obj].uid
  {
    hide Good, SrvOk, Receive, Replay;
    var l := LinkOf(x, i);
    GoodLink(x, i);
    PendingMeansConnected(l.client, q);
    HeadApplicable(Registered(x.s.srv.store), Peer(l.phase, l.down), l.client);
    ReceiveView(l.client, l.down[0]);
    ApplyKeeps(ViewOf(l.client), l.down[0], q.obj);
  }

  /** A new call has another serial, and while q is pending another handle. */
  lemma SafeAfterCall(l: Link, l': Link, q: Pending, sc: Schema, h: Handle, mid: u16, k: Handle, pkt: Up)
    requires Safe(l, q) && CanCall(sc, l.client, h, mid, k) && pkt.CallPkt? && pkt.call == k
    requires l' == l.(client := StartCall(l.client, h, k), upTags := l.upTags + [l.client.next], up := l.up + [pkt])
    ensures Safe(l', q)
  {
  }

  lemma SafeAfterLoss(l: Link, q: Pending, n: nat)
    requires Safe(l, q) && l.phase == PeerGone && n <= |l.down|
    ensures Safe(l.(down := l.down[..n], downTags := l.downTags[..n]), q)
  {
    forall j | 0 <= j < n
      ensures l.down[..n][..j] == l.down[..j]
    {
    }
  }

  /** Every step keeps q safe. */
  lemma MoveKeepsSafe(x: Point, t: Step, y: Point, i: nat, q: Pending)
    requires Good(x) && Has(x, i) && Moves(x, t, y) && Safe(LinkOf(x, i), q)
    ensures Has(y, i) && Safe(LinkOf(y, i), q)
  {
    hide Good, Moves, Safe, ClientOk, LinkOk, SrvOk, CanCall, Next, Receive, Disconnect, Answered;
    var l := LinkOf(x, i);
    GoodLink(x, i);
    MovesTo(x, t, y);
    if t.New? || t.Destroy? || t.Reg? || t.Unreg? || t.Send? || t.SendBus? {
      ServerCallEffect(x, t, y, i);
      var l' := LinkOf(y, i);
      if l' != l {
        var pkt: Down :| !pkt.AckPkt? && l' == l.(down := l.down + [pkt], downTags := l.downTags + [0]);
        SafeAfterSend(l, l', q, pkt, 0);
      }
    } else if t.Connect? || t.i != i {
      ElsewhereEffect(x, t, y, i);
    } else if t.ServerTakes? {
      TakeUpEffect(x, t, y, i);
      SafeAfterAnswer(x, y, i, q);
    } else if t.ClientTakes? {
      TakeDownEffect(x, i, y);
      SafeAfterTakeDown(x, i, q, LinkOf(y, i));
    } else if t.Call? {
      CallEffect(x, t, y, i);
      if CanCall(x.s.srv.schema, l.client, t.h, t.mid, t.k) {
        CallHolds(x.s.srv.schema, l.client, t.h, t.mid, t.k);
        SafeAfterCall(l, LinkOf(y, i), q, x.s.srv.schema, t.h, t.mid, t.k, CallPacket(l.client, t.h, t.mid, t.k, t.args));
      }
    } else {
      DropEffect(x, t, y, i);
      SafeAfterDrop(x, t, i, q);
    }
  }

  lemma CallHolds(sc: Schema, c: Client, h: Handle, mid: u16, k: Handle)
    requires CanCall(sc, c, h, mid, k)
    ensures h in c.bus.at
  {
  }

  lemma SafeAfterDrop(x: Point, t: Step, i: nat, q: Pending)
    requires Good(x) && Has(x, i) && Safe(LinkOf(x, i), q) && Enabled(x.s, t)
    requires (t.PeerDrops? && t.i == i) || (t.ClientDrops? && t.i == i) || (t.Loses? && t.i == i)
    ensures var l := LinkOf(x, i);
            Safe(if t.PeerDrops? then l.(phase := PeerGone)
                 else if t.ClientDrops? then l.(client := Disconnect(l.client))
                 else l.(down := l.down[..t.n], downTags := l.downTags[..t.n]), q)
  {
    hide Good, ClientOk, LinkOk, SrvOk, Disconnect, Ends, Qualifies;
    var l := LinkOf(x, i);
    GoodLink(x, i);
    if t.ClientDrops? {
      DisconnectOk(l.client);
    } else if t.Loses? {
      SafeAfterLoss(l, q, t.n);
    }
  }

  lemma {:induction false} PathKeepsSafe(xs: seq<Point>, ts: seq<Step>, n: nat, i: nat, q: Pending)
    requires Path(xs, ts) && n < |xs| && Good(xs[0]) && Has(xs[0], i) && Safe(LinkOf(xs[0], i), q)
    ensures Good(xs[n]) && Has(xs[n], i) && Safe(LinkOf(xs[n], i), q)
  {
    hide Good, Moves, Safe;
    if n > 0 {
      PathKeepsSafe(xs, ts, n - 1, i, q);
      assert Moves(xs[n - 1], ts[n - 1], xs[n - 1 + 1]);
      MoveKeepsGood(xs[n - 1], ts[n - 1], xs[n]);
      MoveKeepsSafe(xs[n - 1], ts[n - 1], xs[n], i, q);
    }
  }

  lemma SafeNeverMistakes(x: Point, i: nat, q: Pending)
    requires Good(x) && Has(x, i) && Safe(LinkOf(x, i), q)
    ensures !CanMistake(x, i, q)
  {
    hide Good, Moves, Safe, Enabled;
    forall z | Leads(x, z)
      ensures !Mistaken(z, i, q)
    {
      var xs, ts :| Path(xs, ts) && xs[0] == x && xs[|xs| - 1] == z;
      PathKeepsSafe(xs, ts, |xs| - 1, i, q);
      SafeIsNotMistaken(LinkOf(z, i), q);
    }
  }

  // ---- the theorem ----

  /** Just after the call: threatened before means a threat that can come true, and not threatened
      means safe. */
  lemma NewCallIsSafe(l: Link, l': Link, q: Pending, pkt: Up)
    requires |l.downTags| == |l.down| && |l.upTags| == |l.up| && q.id == l.client.next && !Threatened(l, q)
    requires pkt.CallPkt? && l'.client.bus == l.client.bus && l'.client.next == l.client.next + 1
    requires l'.phase == l.phase && l'.down == l.down && l'.downTags == l.downTags
    requires l'.up == l.up + [pkt] && l'.upTags == l.upTags + [q.id]
    ensures Safe(l', q)
  {
    hide Ends;
    forall j | 0 <= j < |l.down| && IsAckFor(l.down[j], q.call)
      ensures !NoneEnds(l.down[..j], q)
    {
      FirstAck(l.down, j, q);
    }
  }

  lemma FirstAck(down: seq<Down>, j: nat, q: Pending)
    requires j < |down| && IsAckFor(down[j], q.call)
    ensures NoneEnds(down[..j], q) ==> EndedBy(q, down, j)
  {
    assert forall n :: 0 <= n < j ==> down[..j][n] == down[n];
  }

  lemma NewCallIsThreatened(y: Point, i: nat, q: Pending, l: Link)
    requires Good(y) && Has(y, i) && Threatened(l, q)
    requires var l' := LinkOf(y, i);
             q in l'.client.calls && l'.client.bus == l.client.bus && l'.phase == l.phase && l'.down == l.down && l'.downTags == l.downTags &&
             |l.downTags| == |l.down| && |l.upTags| == |l.up| && |l'.up| == |l'.upTags| == |l.up| + 1 &&
             l'.up[..|l.up|] == l.up && l'.upTags[..|l.up|] == l.upTags
    requires forall j :: 0 <= j < |l.down| && l.down[j].AckPkt? ==> l.downTags[j] != q.id
    requires forall m :: 0 <= m < |l.up| && l.up[m].CallPkt? ==> l.upTags[m] != q.id
    ensures CanMistake(y, i, q)
  {
    hide Good, CanMistake, Ends;
    var l' := LinkOf(y, i);
    if j: nat :| EndedBy(q, l.down, j) && l.down[j].AckPkt? {
      DownThreat(y, i, q, j);
    } else {
      var m := FirstQualifying(l.up, q, l.client.bus);
      assert l'.up[m] == l'.up[..|l.up|][m] && l'.upTags[m] == l'.upTags[..|l.up|][m];
      assert forall n :: 0 <= n < m ==> l'.up[n] == l'.up[..|l.up|][n];
      UpThreat(y, i, q, m);
    }
  }

  lemma {:induction false} FirstQualifying(up: seq<Up>, q: Pending, bus: Objects) returns (m: nat)
    requires exists n :: 0 <= n < |up| && Qualifies(up[n], q, bus)
    ensures m < |up| && Qualifies(up[m], q, bus) && forall n :: 0 <= n < m ==> !Qualifies(up[n], q, bus)
  {
    hide Qualifies;
    m := 0;
    while !Qualifies(up[m], q, bus)
      invariant m < |up| && (forall n :: 0 <= n < m ==> !Qualifies(up[n], q, bus))
      decreases |up| - m
    {
      m := m + 1;
    }
  }

  /** At any point of any run, for a call that is about to be made: the run can go on, from this
      call, to the client taking an ACK that was sent for another call and completes this one, if
      and only if the call is threatened by what is in flight. */
  lemma MistakenAnswer(states: seq<System>, steps: seq<Step>, tagged: seq<seq<Tags>>, n: nat, i: nat,
                       h: Handle, mid: u16, k: Handle, args: Struct, y: Point)
    requires TaggedRun(states, steps, tagged) && n < |states| && i < |states[n].ends|
    requires CanCall(states[n].srv.schema, states[n].ends[i].client, h, mid, k)
    requires Moves(Point(states[n], tagged[n]), Call(i, h, mid, k, args), y)
    ensures Has(Point(states[n], tagged[n]), i)
    ensures var l := LinkOf(Point(states[n], tagged[n]), i);
            var q := Pending(k, l.client.next, h);
            CanMistake(y, i, q) <==> Threatened(l, q)
  {
    hide Good, CanMistake, Moves, CanCall, Threatened, Safe, Tracked, IsRun, TagsFollow, Inv;
    var x, t := Point(states[n], tagged[n]), Call(i, h, mid, k, args);
    RunIsGood(states, steps, tagged, n);
    PointHas(x, i);
    var l := LinkOf(x, i);
    var q := Pending(k, l.client.next, h);
    MoveKeepsGood(x, t, y);
    CallEffect(x, t, y, i);
    CallHolds(states[n].srv.schema, l.client, h, mid, k);
    var l' := LinkOf(y, i);
    TagsArePast(x, i);
    if Threatened(l, q) {
      assert l'.up[..|l.up|] == l.up && l'.upTags[..|l.up|] == l.upTags;
      NewCallIsThreatened(y, i, q, l);
    } else {
      NewCallIsSafe(l, l', q, CallPacket(l.client, h, mid, k, args));
      SafeNeverMistakes(y, i, q);
    }
  }

  lemma PointHas(x: Point, i: nat)
    requires Good(x) && i < |x.s.ends|
    ensures Has(x, i)
  {
  }

  lemma TagsArePast(x: Point, i: nat)
    requires Good(x) && Has(x, i)
    ensures var l := LinkOf(x, i);
            |l.downTags| == |l.down| && |l.upTags| == |l.up| &&
            (forall j :: 0 <= j < |l.down| && l.down[j].AckPkt? ==> l.downTags[j] < l.client.next) &&
            (forall m :: 0 <= m < |l.up| && l.up[m].CallPkt? ==> l.upTags[m] < l.client.next)
  {
    hide Inv, CallsMeant;
    assert Tracked(x.s.srv.peers[i], x.s.ends[i], x.tags[i]);
  }

  // ---- it happens in a run ----

  const METHOD: u16 := 7
  const TYPE: u16 := 1

  /** One object type with one method, enabled from the start. */
  function SmallSchema(): Schema {
    Schema([1], 0, map[TYPE := Class(map[METHOD := One(Bits(1))], {METHOD}, map[])])
  }

  lemma Take(s: System, t: Step) returns (s': System)
    requires Reachable(s) && SrvOk(s.srv) && Enabled(s, t)
    ensures Reachable(s') && SrvOk(s'.srv) && TakesTo(s, t, s')
  {
    hide Next, Enabled, Reachable;
    EveryEnabledStepIsTaken(s, t);
    s' := Next(s, t);
    ReachableInv(s');
    SameSizes(s');
  }

  /** An object of that type whose method is enabled. */
  ghost predicate Callable(st: Store, h: Handle) {
    h in st.objs && st.objs[h].uid == TYPE && METHOD in st.objs[h].info && st.objs[h].info[METHOD] == One(Bits(1))
  }

  lemma MakeObject(s: System, h: Handle) returns (s': System)
    requires Reachable(s) && SrvOk(s.srv) && s.srv.schema == SmallSchema() && h != INVALID_HANDLE && h !in s.srv.store.objs
    requires s.ends == [] && s.srv.peers == []
    ensures Reachable(s') && SrvOk(s'.srv) && s'.srv.schema == s.srv.schema && s'.ends == [] && s'.srv.peers == []
    ensures s'.srv.store.reg == s.srv.store.reg + [h] && Callable(s'.srv.store, h)
    ensures s'.srv.store.objs.Keys == s.srv.store.objs.Keys + {h}
    ensures forall g :: Callable(s.srv.store, g) ==> Callable(s'.srv.store, g)
  {
    hide Reachable, SrvOk;
    var a := Take(s, New(h, TYPE, map[]));
    NewStep(s, h, a);
    s' := Take(a, Reg(h));
    RegStep(a, h, s');
  }

  lemma NewStep(s: System, h: Handle, s': System)
    requires TakesTo(s, New(h, TYPE, map[]), s') && s.srv.schema == SmallSchema() && h != INVALID_HANDLE && h !in s.srv.store.objs
    ensures s'.srv.schema == s.srv.schema && s'.ends == s.ends && s'.srv.peers == s.srv.peers && s'.srv.store.reg == s.srv.store.reg
    ensures Callable(s'.srv.store, h) && forall g :: Callable(s.srv.store, g) ==> Callable(s'.srv.store, g)
    ensures h !in s.srv.store.reg && s'.srv.store.objs.Keys == s.srv.store.objs.Keys + {h}
  {
  }

  lemma RegStep(s: System, h: Handle, s': System)
    requires TakesTo(s, Reg(h), s') && h in s.srv.store.objs && h !in s.srv.store.reg && s.srv.peers == []
    ensures s'.srv.schema == s.srv.schema && s'.ends == s.ends && s'.srv.peers == []
    ensures s'.srv.store.objs == s.srv.store.objs && s'.srv.store.reg == s.srv.store.reg + [h]
  {
    hide SrvOk;
  }

  lemma ConnectSteps(s: System) returns (s': System)
    requires Reachable(s) && SrvOk(s.srv) && s.srv.schema == SmallSchema() && s.ends == [] && s.srv.peers == []
    ensures Reachable(s') && SrvOk(s'.srv) && s'.srv.schema == s.srv.schema && s'.srv.store == s.srv.store
    ensures |s'.ends| == |s'.srv.peers| == 1 && s'.srv.peers[0] == Peer(PeerConnected, []) && s'.ends[0].up == []
    ensures s'.ends[0].client.calls == [] && s'.ends[0].client.phase == Connected
  {
    hide Reachable, SrvOk;
    var req := ConReq(PROTOCOL_VERSION, [1], 0, [1]);
    var a := Take(s, Connect(req));
    ConnectStep(s, req, a);
    var b := Take(a, ServerTakes(0, true, []));
    AcceptStep(a, req, b);
    s' := Take(b, ClientTakes(0));
    FirstPacketStep(b, s');
  }

  lemma ConnectStep(s: System, req: Up, s': System)
    requires req.ConReq? && TakesTo(s, Connect(req), s') && s.ends == [] && s.srv.peers == []
    ensures s'.srv.schema == s.srv.schema && s'.srv.store == s.srv.store
    ensures s'.srv.peers == [Peer(PeerIdle, [])] && s'.ends == [End(NEW_CLIENT, [req])]
  {
    hide SrvOk;
  }

  lemma AcceptStep(s: System, req: Up, s': System)
    requires req == ConReq(PROTOCOL_VERSION, [1], 0, [1]) && s.srv.schema == SmallSchema()
    requires TakesTo(s, ServerTakes(0, true, []), s') && s.srv.peers == [Peer(PeerIdle, [])] && s.ends == [End(NEW_CLIENT, [req])]
    ensures s'.srv.schema == s.srv.schema && s'.srv.store == s.srv.store && s'.ends == [End(NEW_CLIENT, [])]
    ensures |s'.srv.peers| == 1 && s'.srv.peers[0].phase == PeerConnected && |s'.srv.peers[0].down| == 1
    ensures s'.srv.peers[0].down[0].ConResp? && s'.srv.peers[0].down[0].accepted
  {
    hide SrvOk;
    assert [req][1..] == [];
    var u := s.ends[0].up[0];
    assert Welcome(s.srv.schema, u);
  }

  lemma FirstPacketStep(s: System, s': System)
    requires |s.ends| == 1 && s.ends[0] == End(NEW_CLIENT, []) && |s.srv.peers| == 1 && TakesTo(s, ClientTakes(0), s')
    requires s.srv.peers[0].phase == PeerConnected && |s.srv.peers[0].down| == 1
    requires s.srv.peers[0].down[0].ConResp? && s.srv.peers[0].down[0].accepted
    ensures s'.srv.schema == s.srv.schema && s'.srv.store == s.srv.store
    ensures |s'.ends| == |s'.srv.peers| == 1 && s'.srv.peers[0] == Peer(PeerConnected, []) && s'.ends[0].up == []
    ensures s'.ends[0].client.calls == [] && s'.ends[0].client.phase == Connected
  {
    hide SrvOk;
    assert s.srv.peers[0].down[1..] == [];
  }

  /** A state in which the client may call one method on each of two objects. */
  lemma TwoCallsReachable() returns (s: System)
    ensures Reachable(s) && TwoCalls(s, 0, 1, METHOD, 2, METHOD, 1)
  {
    hide Reachable, SrvOk, Callable;
    var s0 := System(Srv(SmallSchema(), Store(map[], []), [], 0), []);
    StartReachable(s0);
    var s1 := MakeObject(s0, 1);
    var s2 := MakeObject(s1, 2);
    s := ConnectSteps(s2);
    ReplicaConvergence(s, 0);
    MayCallOn(s, 1);
    MayCallOn(s, 2);
  }

  lemma MayCallOn(s: System, h: Handle)
    requires |s.ends| == 1 && s.srv.schema == SmallSchema() && Callable(s.srv.store, h) && h in s.srv.store.reg
    requires var c := s.ends[0].client; c.phase == Connected && c.calls == [] && c.bus == Registered(s.srv.store)
    ensures CanCall(s.srv.schema, s.ends[0].client, h, METHOD, 1)
  {
  }

  lemma StartReachable(s: System)
    requires Initial(s)
    ensures Reachable(s) && SrvOk(s.srv)
  {
    StartsWell(s);
    var states, steps: seq<Step> := [s], [];
    assert IsRun(states, steps) && states[|states| - 1] == s;
  }

  lemma StepReaches(s: System, t: Step, s': System)
    requires Reachable(s) && TakesTo(s, t, s')
    ensures Reachable(s')
  {
    EveryEnabledStepIsTaken(s, t);
  }

  /** There is a run, and a call at its end, after which a client takes the ACK of another call for
      the answer to this one. */
  lemma MistakeHappens() returns (states: seq<System>, steps: seq<Step>, tagged: seq<seq<Tags>>, y: Point, q: Pending)
    ensures TaggedRun(states, steps, tagged)
    ensures Moves(Point(states[|states| - 1], tagged[|states| - 1]), Call(0, 2, METHOD, 1, map[]), y)
    ensures q == Pending(1, states[|states| - 1].ends[0].client.next, 2) && CanMistake(y, 0, q)
  {
    hide Inv, TakesTo, CanCall, Reachable, TaggedRun, Moves, CanMistake, Good, Next, NextTags;
    var s := TwoCallsReachable();
    ReachableInv(s);
    var s1, s2, s3, s4 := StaleAckAnswers(s, 0, 1, METHOD, 2, METHOD, 1, map[]);
    StepReaches(s, Call(0, 1, METHOD, 1, map[]), s1);
    StepReaches(s1, Unreg(1), s2);
    StepReaches(s2, ServerTakes(0, true, []), s3);
    StepReaches(s3, ClientTakes(0), s4);
    states, steps := RunTo(s4);
    tagged := EveryRunIsTagged(states, steps);
    TaggedIsRun(states, steps, tagged);
    var n := |states| - 1;
    RunIsGood(states, steps, tagged, n);
    y := Move(Point(states[n], tagged[n]), Call(0, 2, METHOD, 1, map[]));
    q := Pending(1, s4.ends[0].client.next, 2);
    MistakenAnswer(states, steps, tagged, n, 0, 2, METHOD, 1, map[], y);
    var l := LinkOf(Point(states[n], tagged[n]), 0);
    assert EndedBy(q, l.down, 0) && l.down[0].AckPkt?;
  }

  lemma RunTo(s: System) returns (states: seq<System>, steps: seq<Step>)
    requires Reachable(s)
    ensures IsRun(states, steps) && states[|states| - 1] == s
  {
    states, steps :| IsRun(states, steps) && states[|states| - 1] == s;
  }

  lemma TaggedIsRun(states: seq<System>, steps: seq<Step>, tagged: seq<seq<Tags>>)
    requires TaggedRun(states, steps, tagged)
    ensures IsRun(states, steps) && |tagged| == |states|
  {
  }
}
