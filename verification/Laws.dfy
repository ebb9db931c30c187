/** What the operations do to fields, stated on the fields themselves: which values an event leaves
    behind, on the server and on a client, one event or many. */
module Laws {
  import opened Values
  import opened Lists
  import opened Bus
  import opened ObjectStore
  import opened ServerSpec

  // ---- values ----

  /** A slot that was given a value: numbers and texts as they are, a NULL text empty, a boolean 1
      if it was anything but 0. */
  ghost predicate HoldsScalar(now: Scalar, given: Scalar) {
    match given
    case Bits(raw) => now == Bits(raw)
    case Flag(raw) => now == Flag(if raw == 0 then 0 else 1)
    case Text(chars) => now.Text? && now.chars == Some(if chars.None? then [] else chars.value)
  }

  ghost predicate HoldsValue(now: Value, given: Value) {
    match given
    case One(x) => now.One? && HoldsScalar(now.item, x)
    case Many(xs) => now.Many? && |now.items| == |xs| && forall i :: 0 <= i < |xs| ==> HoldsScalar(now.items[i], xs[i])
  }

  ghost predicate SameField(a: Struct, b: Struct, f: u16) { (f in a <==> f in b) && (f in a ==> a[f] == b[f]) }

  ghost predicate SameObject(a: map<Handle, Obj>, b: map<Handle, Obj>, h: Handle) {
    (h in a <==> h in b) && (h in a ==> a[h] == b[h])
  }

  lemma CopyHolds(v: Value)
    ensures HoldsValue(CopyValue(v), v) && HoldsValue(CopyValue(WireValue(v)), v)
  {
  }

  /** A merge: fields present in the source take its values, the others keep presence and value. */
  lemma MergeTakes(dst: Struct, src: Struct)
    ensures forall f :: f in src ==> f in Merge(dst, src) && HoldsValue(Merge(dst, src)[f], src[f])
    ensures forall f :: f in src ==> f in Merge(dst, WireStruct(src)) && HoldsValue(Merge(dst, WireStruct(src))[f], src[f])
    ensures forall f :: f !in src ==> SameField(Merge(dst, src), dst, f) && SameField(Merge(dst, WireStruct(src)), dst, f)
  {
    hide HoldsValue, CopyValue, WireValue;
    forall f | f in src
      ensures HoldsValue(CopyValue(src[f]), src[f]) && HoldsValue(CopyValue(WireValue(src[f])), src[f])
    {
      CopyHolds(src[f]);
    }
  }

  /** A text as the wire carries it: NULL stays NULL. */
  ghost predicate CarriesScalar(now: Scalar, given: Scalar) {
    match given
    case Bits(raw) => now == Bits(raw)
    case Flag(raw) => now == Flag(if raw == 0 then 0 else 1)
    case Text(chars) => now == Text(chars)
  }

  ghost predicate CarriesValue(now: Value, given: Value) {
    match given
    case One(x) => now.One? && CarriesScalar(now.item, x)
    case Many(xs) => now.Many? && |now.items| == |xs| && forall i :: 0 <= i < |xs| ==> CarriesScalar(now.items[i], xs[i])
  }

  /** A struct that came over the wire: the same fields, their values as the wire carries them. */
  ghost predicate CarriesStruct(now: Struct, given: Struct) {
    now.Keys == given.Keys && forall f :: f in given ==> CarriesValue(now[f], given[f])
  }

  lemma WireHolds(s: Struct)
    ensures CarriesStruct(WireStruct(s), s)
  {
  }

  /** A client's new object: as the server sent it. */
  ghost predicate ObjectAdded(at: map<Handle, Obj>, at': map<Handle, Obj>, it: Item) {
    it.handle in at' && at'[it.handle].uid == it.uid && CarriesStruct(at'[it.handle].info, it.info) &&
    forall g :: g != it.handle ==> SameObject(at', at, g)
  }

  // ---- one event ----

  /** The schema lets this event of this object type update this field. */
  ghost predicate Declares(sc: Schema, uid: u16, event: u16, f: u16) {
    uid in sc.classes && event in sc.classes[uid].updates && f in sc.classes[uid].updates[event]
  }

  /** An event request as it is announced: the declared ones of its fields, with their values. */
  ghost predicate Announces(sc: Schema, uid: u16, r: EventReq, e: Event) {
    e.handle == r.handle && e.uid == uid && e.event == r.event &&
    forall f :: (f in e.info <==> f in r.info && Declares(sc, uid, r.event, f)) && (f in e.info ==> e.info[f] == r.info[f])
  }

  /** What an event leaves behind in its object: the declared fields it gives, and nothing else. */
  ghost predicate EventTook(sc: Schema, uid: u16, event: u16, given: Struct, before: Struct, now: Struct) {
    forall f ::
      if f in given && Declares(sc, uid, event, f) then f in now && HoldsValue(now[f], given[f]) else SameField(now, before, f)
  }

  lemma SanitizedAnnounces(s: Srv, r: EventReq)
    requires r.handle in s.store.objs
    ensures Announces(s.schema, s.store.objs[r.handle].uid, r, Sanitized(s, r))
  {
  }

  lemma MergeTookEvent(sc: Schema, uid: u16, r: EventReq, e: Event, before: Struct)
    requires Announces(sc, uid, r, e)
    ensures EventTook(sc, uid, r.event, r.info, before, Merge(before, e.info))
  {
    hide HoldsValue, Declares, Merge;
    MergeTakes(before, e.info);
  }

  // ---- events one after another ----

  /** The event gives field f of the object with handle h a value. */
  ghost predicate Writes(objs: map<Handle, Obj>, e: Event, h: Handle, f: u16) {
    e.handle == h && h in objs && objs[h].uid == e.uid && f in e.info
  }

  ghost predicate LastWrite(objs: map<Handle, Obj>, es: seq<Event>, j: nat, h: Handle, f: u16) {
    j < |es| && Writes(objs, es[j], h, f) && forall l :: j < l < |es| ==> !Writes(objs, es[l], h, f)
  }

  /** What a list of events leaves behind: in every field of every object the value the last event
      that gives it one gave it, or what was there. */
  ghost predicate EventsTook(before: map<Handle, Obj>, now: map<Handle, Obj>, es: seq<Event>) {
    now.Keys == before.Keys &&
    forall h :: h in before ==> now[h].uid == before[h].uid && forall f :: FieldTook(before, now, es, h, f)
  }

  ghost predicate FieldTook(before: map<Handle, Obj>, now: map<Handle, Obj>, es: seq<Event>, h: Handle, f: u16)
    requires h in before && h in now
  {
    (forall j: nat :: LastWrite(before, es, j, h, f) ==> f in now[h].info && HoldsValue(now[h].info[f], es[j].info[f])) &&
    ((forall j :: 0 <= j < |es| ==> !Writes(before, es[j], h, f)) ==> SameField(now[h].info, before[h].info, f))
  }

  /** One event, taken first. */
  ghost predicate FirstTook(before: map<Handle, Obj>, mid: map<Handle, Obj>, e: Event) {
    mid.Keys == before.Keys &&
    forall h :: h in before ==>
      mid[h].uid == before[h].uid &&
      forall f :: if Writes(before, e, h, f) then f in mid[h].info && HoldsValue(mid[h].info[f], e.info[f])
                  else SameField(mid[h].info, before[h].info, f)
  }

  lemma FieldThenRest(before: map<Handle, Obj>, mid: map<Handle, Obj>, now: map<Handle, Obj>, es: seq<Event>, h: Handle, f: u16)
    requires es != [] && h in before && h in mid && h in now && FieldTook(mid, now, es[1..], h, f)
    requires mid[h].uid == before[h].uid
    requires if Writes(before, es[0], h, f) then f in mid[h].info && HoldsValue(mid[h].info[f], es[0].info[f])
             else SameField(mid[h].info, before[h].info, f)
    ensures FieldTook(before, now, es, h, f)
  {
    hide HoldsValue;
    var rest := es[1..];
    assert forall j :: 0 <= j < |rest| ==> rest[j] == es[j + 1] && (Writes(mid, rest[j], h, f) <==> Writes(before, es[j + 1], h, f));
    forall j: nat | LastWrite(before, es, j, h, f)
      ensures f in now[h].info && HoldsValue(now[h].info[f], es[j].info[f])
    {
      if j > 0 {
        assert LastWrite(mid, rest, j - 1, h, f);
      } else {
        assert forall l :: 0 <= l < |rest| ==> !Writes(mid, rest[l], h, f);
      }
    }
  }

  lemma TookThenRest(before: map<Handle, Obj>, mid: map<Handle, Obj>, now: map<Handle, Obj>, es: seq<Event>)
    requires es != [] && FirstTook(before, mid, es[0]) && EventsTook(mid, now, es[1..])
    ensures EventsTook(before, now, es)
  {
    hide HoldsValue, FieldTook, SameField, Writes;
    forall h, f | h in before
      ensures FieldTook(before, now, es, h, f)
    {
      FieldThenRest(before, mid, now, es, h, f);
    }
  }

  lemma NothingTook(objs: map<Handle, Obj>)
    ensures EventsTook(objs, objs, [])
  {
  }

  lemma MergeTookFirst(objs: map<Handle, Obj>, e: Event, info: Struct)
    requires e.handle in objs && objs[e.handle].uid == e.uid
    requires info == Merge(objs[e.handle].info, e.info) || info == Merge(objs[e.handle].info, WireStruct(e.info))
    ensures FirstTook(objs, objs[e.handle := Obj(e.uid, info)], e)
  {
    hide HoldsValue, Merge, WireStruct;
    MergeTakes(objs[e.handle].info, e.info);
  }

  /** The server commits its own events. */
  lemma {:induction false} CommitAllTook(st: Store, es: seq<Event>)
    requires forall i :: 0 <= i < |es| && es[i].handle in st.objs ==> st.objs[es[i].handle].uid == es[i].uid
    ensures EventsTook(st.objs, CommitAll(st, es).objs, es) && CommitAll(st, es).reg == st.reg
    decreases |es|
  {
    hide Merge, EventsTook, FirstTook;
    if es == [] {
      NothingTook(st.objs);
    } else {
      var e := es[0];
      if e.handle in st.objs {
        var mid := Commit(st, e);
        CommitAllTook(mid, es[1..]);
        MergeTookFirst(st.objs, e, Merge(st.objs[e.handle].info, e.info));
        TookThenRest(st.objs, mid.objs, CommitAll(st, es).objs, es);
      } else {
        CommitAllTook(st, es[1..]);
        NoFirst(st.objs, e);
        TookThenRest(st.objs, st.objs, CommitAll(st, es).objs, es);
      }
    }
  }

  lemma {:induction false} CommitAllReg(st: Store, es: seq<Event>)
    ensures CommitAll(st, es).reg == st.reg
    decreases |es|
  {
    if es != [] {
      CommitAllReg(if es[0].handle in st.objs then Commit(st, es[0]) else st, es[1..]);
    }
  }

  lemma NoFirst(objs: map<Handle, Obj>, e: Event)
    requires e.handle !in objs || objs[e.handle].uid != e.uid
    ensures FirstTook(objs, objs, e)
  {
  }

  /** A client takes them. */
  lemma {:induction false} UpdateAllTook(b: Objects, es: seq<Event>)
    ensures EventsTook(b.at, UpdateAll(b, es).at, es) && UpdateAll(b, es).order == b.order
    decreases |es|
  {
    hide Merge, EventsTook, FirstTook, WireStruct;
    if es == [] {
      NothingTook(b.at);
    } else {
      var e := es[0];
      var mid := Update(b, e);
      UpdateAllTook(mid, es[1..]);
      if Held(b, e.handle, e.uid) {
        MergeTookFirst(b.at, e, Merge(b.at[e.handle].info, WireStruct(e.info)));
      } else {
        NoFirst(b.at, e);
      }
      TookThenRest(b.at, mid.at, UpdateAll(b, es).at, es);
    }
  }

  // ---- server calls ----

  /** Exactly the connected peers get the packet, behind what they were sent before. */
  ghost predicate AllGot(peers: seq<Peer>, peers': seq<Peer>, pkt: Down) {
    |peers'| == |peers| &&
    forall i :: 0 <= i < |peers| ==>
      peers'[i] == if peers[i].phase == PeerConnected then Peer(PeerConnected, peers[i].down + [pkt]) else peers[i]
  }

  lemma BroadcastGot(peers: seq<Peer>, pkt: Down)
    ensures AllGot(peers, Broadcast(peers, pkt), pkt)
  {
  }

  /** A new object: the fields it is given, and the defaults of its type in the others. */
  ghost predicate Made(sc: Schema, objs: map<Handle, Obj>, objs': map<Handle, Obj>, h: Handle, uid: u16, info: Struct) {
    uid in sc.classes && h !in objs && h in objs' && objs'[h].uid == uid &&
    (forall f :: if f in info then f in objs'[h].info && HoldsValue(objs'[h].info[f], info[f])
                 else SameField(objs'[h].info, sc.classes[uid].defaults, f)) &&
    forall g :: g != h ==> SameObject(objs', objs, g)
  }

  lemma NewObjectMade(s: Srv, h: Handle, uid: u16, info: Struct)
    requires h != INVALID_HANDLE && h !in s.store.objs && uid in s.schema.classes
    ensures Made(s.schema, s.store.objs, NewObject(s, h, uid, info).store.objs, h, uid, info)
  {
    hide HoldsValue, Merge;
    MergeTakes(s.schema.classes[uid].defaults, info);
  }

  /** An event that was sent: announced to the connected peers, and left behind in its object. */
  ghost predicate EventSent(sc: Schema, objs: map<Handle, Obj>, peers: seq<Peer>, r: EventReq,
                            objs': map<Handle, Obj>, peers': seq<Peer>) {
    r.handle in objs && r.handle in objs' && objs'[r.handle].uid == objs[r.handle].uid &&
    EventTook(sc, objs[r.handle].uid, r.event, r.info, objs[r.handle].info, objs'[r.handle].info) &&
    (forall g :: g != r.handle ==> SameObject(objs', objs, g)) &&
    exists e :: Announces(sc, objs[r.handle].uid, r, e) && AllGot(peers, peers', EventPkt(e))
  }

  lemma SendEventSent(s: Srv, r: EventReq)
    requires r.handle in s.store.objs && r.handle in s.store.reg
    ensures EventSent(s.schema, s.store.objs, s.peers, r, SendEvent(s, r).store.objs, SendEvent(s, r).peers)
  {
    hide Announces, EventTook, Merge, AllGot;
    var e := Sanitized(s, r);
    SanitizedAnnounces(s, r);
    MergeTookEvent(s.schema, s.store.objs[r.handle].uid, r, e, s.store.objs[r.handle].info);
    BroadcastGot(s.peers, EventPkt(e));
  }

  ghost predicate ItemsMade(objs: map<Handle, Obj>, hs: seq<Handle>, items: seq<Item>) {
    |items| == |hs| &&
    forall i :: 0 <= i < |hs| ==> hs[i] in objs && items[i] == Item(hs[i], objs[hs[i]].uid, objs[hs[i]].info)
  }

  ghost predicate RefsMade(objs: map<Handle, Obj>, hs: seq<Handle>, refs: seq<Ref>) {
    |refs| == |hs| && forall i :: 0 <= i < |hs| ==> hs[i] in objs && refs[i] == Ref(hs[i], objs[hs[i]].uid)
  }

  ghost predicate EventsMade(sc: Schema, objs: map<Handle, Obj>, rs: seq<EventReq>, es: seq<Event>) {
    |es| == |rs| && forall i :: 0 <= i < |rs| ==> rs[i].handle in objs && Announces(sc, objs[rs[i].handle].uid, rs[i], es[i])
  }

  /** A bus event that was sent: the objects to add as they are, the objects to remove, the events as
      announced; and all of it done. */
  ghost predicate BusEventSent(sc: Schema, objs: map<Handle, Obj>, reg: seq<Handle>, peers: seq<Peer>,
                               uid: u16, adds: seq<Handle>, removes: seq<Handle>, rs: seq<EventReq>,
                               objs': map<Handle, Obj>, reg': seq<Handle>, peers': seq<Peer>) {
    (forall h :: h in reg' <==> (h in reg || h in adds) && h !in removes) &&
    exists items, refs, es ::
      ItemsMade(objs, adds, items) && RefsMade(objs, removes, refs) && EventsMade(sc, objs, rs, es) &&
      AllGot(peers, peers', BusEventPkt(uid, items, refs, es)) && EventsTook(objs, objs', es)
  }

  lemma {:induction false} DelistAllMembers(st: Store, hs: seq<Handle>)
    ensures forall h :: h in DelistAll(st, hs).reg <==> h in st.reg && h !in hs
    ensures DelistAll(st, hs).objs == st.objs
    decreases |hs|
  {
    if hs != [] {
      DelistAllMembers(Delist(st, hs[0]), hs[1..]);
    }
  }

  lemma AllAnnounced(s: Srv, rs: seq<EventReq>)
    requires forall i :: 0 <= i < |rs| ==> rs[i].handle in s.store.objs
    ensures EventsMade(s.schema, s.store.objs, rs, SanitizedAll(s, rs))
  {
    hide Announces;
    forall i | 0 <= i < |rs|
      ensures Announces(s.schema, s.store.objs[rs[i].handle].uid, rs[i], SanitizedAll(s, rs)[i])
    {
      SanitizedAnnounces(s, rs[i]);
    }
  }

  lemma AnnouncedTypes(sc: Schema, objs: map<Handle, Obj>, rs: seq<EventReq>, es: seq<Event>)
    requires EventsMade(sc, objs, rs, es)
    ensures forall i :: 0 <= i < |es| && es[i].handle in objs ==> objs[es[i].handle].uid == es[i].uid
  {
    forall i | 0 <= i < |es|
      ensures es[i].handle in objs && objs[es[i].handle].uid == es[i].uid
    {
      assert Announces(sc, objs[rs[i].handle].uid, rs[i], es[i]);
    }
  }

  lemma SendBusEventSent(s: Srv, uid: u16, adds: seq<Handle>, removes: seq<Handle>, rs: seq<EventReq>)
    requires CheckBusEvent(s, adds, removes, rs)
    ensures var s' := SendBusEvent(s, uid, adds, removes, rs);
            BusEventSent(s.schema, s.store.objs, s.store.reg, s.peers, uid, adds, removes, rs, s'.store.objs, s'.store.reg, s'.peers)
  {
    hide Announces, EventsMade, EventsTook, AllGot, CommitAll, DelistAll, SanitizedAll, CheckBusEvent;
    ChecksOut(s, adds, removes, rs);
    var es, st := SanitizedAll(s, rs), EnlistAll(s.store, adds);
    AllAnnounced(s, rs);
    AnnouncedTypes(s.schema, s.store.objs, rs, es);
    CommitAllTook(st, es);
    DelistAllMembers(CommitAll(st, es), removes);
    BroadcastGot(s.peers, BusEventOf(s, uid, adds, removes, rs));
    assert ItemsMade(s.store.objs, adds, ItemsOf(s.store, adds));
    assert RefsMade(s.store.objs, removes, RefsOf(s.store, removes));
  }

  lemma ChecksOut(s: Srv, adds: seq<Handle>, removes: seq<Handle>, rs: seq<EventReq>)
    requires CheckBusEvent(s, adds, removes, rs)
    ensures forall h :: h in adds || h in removes ==> h in s.store.objs
    ensures forall i :: 0 <= i < |rs| ==> rs[i].handle in s.store.objs
  {
  }

  // ---- connection requests ----

  /** What a connection request makes of its peer. */
  ghost predicate Decided(sc: Schema, objs: map<Handle, Obj>, reg: seq<Handle>, p: Peer, r: Up, userAccepts: bool, p': Peer)
    requires r.ConReq?
  {
    if p.phase != PeerIdle then p' == p
    else if r.version == 2 && r.bus == sc.name && r.crc == sc.crc && r.client != [] && userAccepts then
      exists items :: ItemsMade(objs, reg, items) && p' == Peer(PeerConnected, p.down + [ConResp(true, items)])
    else p' == Peer(PeerRefused, p.down + [ConResp(false, [])])
  }

  lemma RequestDecided(s: Srv, i: nat, r: Up, userAccepts: bool)
    requires i < |s.peers| && r.ConReq? && forall h :: h in s.store.reg ==> h in s.store.objs
    ensures var s' := ConnectionRequest(s, i, r, userAccepts);
            |s'.peers| == |s.peers| && Decided(s.schema, s.store.objs, s.store.reg, s.peers[i], r, userAccepts, s'.peers[i]) &&
            forall j :: 0 <= j < |s.peers| && j != i ==> s'.peers[j] == s.peers[j]
  {
    assert ItemsMade(s.store.objs, s.store.reg, ItemsOf(s.store, s.store.reg));
  }

  // ---- calls ----

  /** The server holds the object of this call with its type, and the type has the method. */
  ghost predicate Placed(sc: Schema, objs: map<Handle, Obj>, c: Up)
    requires c.CallPkt?
  {
    c.handle in objs && objs[c.handle].uid == c.uid && c.uid in sc.classes && c.mid in sc.classes[c.uid].methods
  }

  /** The first acknowledgement that carries the call's handle. */
  ghost predicate FirstFor(attempts: seq<Attempt>, call: Handle, j: nat) {
    j < |attempts| && attempts[j].call == call && forall l :: 0 <= l < j ==> attempts[l].call != call
  }

  /** The status a call is answered with: the object must be registered; the field of the method says
      whether it is enabled (1), disabled (2) or not supported (0), and one that is not there counts
      as disabled; an enabled method is answered by its handler, or refused. */
  ghost predicate StatusIs(objs: map<Handle, Obj>, reg: seq<Handle>, c: Up, attempts: seq<Attempt>, status: Status)
    requires c.CallPkt? && c.handle in objs
  {
    var info := objs[c.handle].info;
    (c.handle !in reg ==> status == Aborted) &&
    (c.handle in reg && c.mid !in info ==> status == MethodDisabled) &&
    (c.handle in reg && c.mid in info && !(info[c.mid].One? && info[c.mid].item.Bits?) ==> status == MethodDisabled) &&
    (c.handle in reg && c.mid in info ==>
      (info[c.mid] == One(Bits(2)) ==> status == MethodDisabled) &&
      (info[c.mid] == One(Bits(0)) ==> status == MethodNotSupported) &&
      (info[c.mid] == One(Bits(1)) ==>
        (forall j: nat :: FirstFor(attempts, c.call, j) ==> status == attempts[j].status) &&
        ((forall j :: 0 <= j < |attempts| ==> attempts[j].call != c.call) ==> status == Refused)) &&
      (info[c.mid].One? && info[c.mid].item.Bits? && info[c.mid].item.raw > 2 ==> status == Refused))
  }

  lemma {:induction false} FirstMatchIsFirst(attempts: seq<Attempt>, call: Handle)
    ensures FirstMatch(attempts, call).None? <==> forall j :: 0 <= j < |attempts| ==> attempts[j].call != call
    ensures forall j: nat :: FirstFor(attempts, call, j) ==> FirstMatch(attempts, call) == Some(attempts[j].status)
  {
    if attempts != [] {
      FirstMatchIsFirst(attempts[1..], call);
      assert forall j :: 0 <= j < |attempts[1..]| ==> attempts[1..][j] == attempts[j + 1];
      forall j: nat | FirstFor(attempts, call, j)
        ensures FirstMatch(attempts, call) == Some(attempts[j].status)
      {
        if j > 0 {
          assert FirstFor(attempts[1..], call, j - 1);
        }
      }
    }
  }

  lemma AckStatusIs(s: Srv, c: Up, attempts: seq<Attempt>)
    requires c.CallPkt? && Decodes(s, c)
    ensures StatusIs(s.store.objs, s.store.reg, c, attempts, AckStatus(s, c, attempts))
  {
    hide FirstMatch, FirstFor;
    FirstMatchIsFirst(attempts, c.call);
  }

  /** A call that was taken: exactly one ACK more for its caller, with its handle and that status; a
      call the server cannot place gets none. Nothing else changes. */
  ghost predicate CallTaken(sc: Schema, objs: map<Handle, Obj>, reg: seq<Handle>, peers: seq<Peer>, i: nat, c: Up,
                            attempts: seq<Attempt>, peers': seq<Peer>)
    requires c.CallPkt? && i < |peers|
  {
    if Placed(sc, objs, c) then
      exists status :: StatusIs(objs, reg, c, attempts, status) &&
        peers' == peers[i := Peer(peers[i].phase, peers[i].down + [AckPkt(c.call, status)])]
    else peers' == peers
  }

  lemma CallIsTaken(s: Srv, i: nat, c: Up, attempts: seq<Attempt>)
    requires i < |s.peers| && c.CallPkt?
    ensures var s' := CallRequest(s, i, c, attempts);
            CallTaken(s.schema, s.store.objs, s.store.reg, s.peers, i, c, attempts, s'.peers) && s'.store == s.store
  {
    hide StatusIs, AckStatus;
    if Decodes(s, c) {
      AckStatusIs(s, c, attempts);
    }
  }
}
