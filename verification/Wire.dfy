/** End to end: packets, their bytes, the stream decoder and the replica, composed. */
module Wire {
  import opened Values
  import opened Bytes
  import opened Codec
  import opened Bus
  import opened ObjectStore
  import opened ServerSpec
  import opened ClientSpec
  import opened Runs
  import opened Packets
  import opened Framing
  import opened Typed
  import T = Transport

  ghost predicate Encodable(api: Api, busEvents: set<u16>, p: Down) {
    FitsDown(api, p) && Declared(api, busEvents, p) && HEADER_SIZE + |EncPayload(api, p)| < 0x1_0000_0000
  }

  ghost predicate AllEncodable(api: Api, busEvents: set<u16>, ps: seq<Down>) {
    forall i :: 0 <= i < |ps| ==> Encodable(api, busEvents, ps[i])
  }

  /** obus_packet_encode_header over the payload: magic, total size, type. */
  ghost function Header(api: Api, p: Down): seq<byte>
    requires FitsDown(api, p) && HEADER_SIZE + |EncPayload(api, p)| < 0x1_0000_0000
  {
    MAGIC + (U32(HEADER_SIZE + |EncPayload(api, p)|) + [PacketType(p)])
  }

  ghost function EncPacket(api: Api, p: Down): seq<byte>
    requires FitsDown(api, p) && HEADER_SIZE + |EncPayload(api, p)| < 0x1_0000_0000
  {
    Header(api, p) + EncPayload(api, p)
  }

  ghost function EncPackets(api: Api, busEvents: set<u16>, ps: seq<Down>): seq<seq<byte>>
    requires AllEncodable(api, busEvents, ps)
  {
    seq(|ps|, i requires 0 <= i < |ps| => EncPacket(api, ps[i]))
  }

  lemma PacketWellFormed(api: Api, p: Down)
    requires FitsDown(api, p) && HEADER_SIZE + |EncPayload(api, p)| < 0x1_0000_0000
    ensures IsPacket(EncPacket(api, p)) && EncPacket(api, p)[8] == PacketType(p)
  {
    hide EncPayload, FitsDown;
    var f, n := EncPacket(api, p), HEADER_SIZE + |EncPayload(api, p)|;
    assert f[..HEADER_SIZE] == Header(api, p);
    assert f[4] == U32(n)[0] && f[5] == U32(n)[1] && f[6] == U32(n)[2] && f[7] == U32(n)[3];
    FromU32Inverse(n);
  }

  /** A framed packet decodes at a client it is applicable to, whatever bytes already follow it
      in the buffer and whatever lies in the buffer's unused memory. */
  lemma PacketDecodes(api: Api, busEvents: set<u16>, v: View, p: Down, b: Buf)
    requires Encodable(api, busEvents, p) && Applicable(v, p) && INVALID_HANDLE !in v.bus.at
    requires At(b, 0, EncPacket(api, p))
    ensures DecPayload(api, busEvents, v.bus, b.mem[8], b, HEADER_SIZE) == Some(WireDown(p))
  {
    AtConcat(b, 0, Header(api, p), EncPayload(api, p));
    PacketWellFormed(api, p);
    assert b.mem[8] == b.mem[0..|EncPacket(api, p)|][8];
    PayloadRoundTrip(api, busEvents, v, p, b, HEADER_SIZE);
  }

  /** The buffer in which a packet is decoded: the packet stands at its start, and anything may
      stand behind it, since payload decoding is bounded by the buffer's length and not by the size
      in the header. */
  ghost predicate InBuffer(b: Buf, f: seq<byte>) { At(b, 0, f) && b.len >= HEADER_SIZE }

  ghost predicate InBuffers(bufs: seq<Buf>, frames: seq<seq<byte>>) {
    |bufs| == |frames| && forall i :: 0 <= i < |frames| ==> InBuffer(bufs[i], frames[i])
  }

  /** What a client does with the packets its stream decoder takes, each decoded in its buffer. */
  ghost function Deliver(api: Api, busEvents: set<u16>, v: View, frames: seq<seq<byte>>, bufs: seq<Buf>): View
    requires InBuffers(bufs, frames)
    decreases |frames|
  {
    if frames == [] then v
    else
      var b := bufs[0];
      var p := DecPayload(api, busEvents, v.bus, b.mem[8], b, HEADER_SIZE);
      Deliver(api, busEvents, if p.None? then v else Apply(v, p.value), frames[1..], bufs[1..])
  }

  /** What stands behind an encoded packet makes no difference, whatever the receiver's schema. */
  lemma PacketStandsAlone(api1: Api, api2: Api, busEvents: set<u16>, bus: Objects, p: Down, b: Buf)
    requires FitsDown(api1, p) && HEADER_SIZE + |EncPayload(api1, p)| < 0x1_0000_0000 && InBuffer(b, EncPacket(api1, p))
    ensures DecPayload(api2, busEvents, bus, b.mem[8], b, HEADER_SIZE) == KnownDown(api1, api2, busEvents, bus, p)
  {
    hide DecPayload, KnownDown, EncPayload, FitsDown;
    PayloadInBuffer(api1, p, b);
    PayloadAt(api1, api2, busEvents, bus, p, b, HEADER_SIZE);
  }

  lemma PayloadInBuffer(api: Api, p: Down, b: Buf)
    requires FitsDown(api, p) && HEADER_SIZE + |EncPayload(api, p)| < 0x1_0000_0000 && At(b, 0, EncPacket(api, p))
    ensures b.len >= HEADER_SIZE && b.mem[8] == PacketType(p) && At(b, HEADER_SIZE, EncPayload(api, p))
  {
    hide EncPayload, FitsDown;
    AtConcat(b, 0, Header(api, p), EncPayload(api, p));
    PacketWellFormed(api, p);
    assert b.mem[8] == b.mem[0..|EncPacket(api, p)|][8];
  }

  lemma ApplyKeepsBusOk(v: View, p: Down)
    requires BusOk(v.bus)
    ensures BusOk(Apply(v, p).bus)
  {
    match p
    case ConResp(_, snapshot) => AddAllOk(v.bus, snapshot);
    case AddPkt(it) => AddOk(v.bus, it);
    case RemovePkt(r) => RemoveOk(v.bus, r.handle);
    case BusEventPkt(_, adds, removes, events) =>
      AddAllOk(v.bus, adds);
      UpdateAllOk(AddAll(v.bus, adds), ResolveEvents(v.bus, events));
      RemoveAllOk(UpdateAll(AddAll(v.bus, adds), ResolveEvents(v.bus, events)), ResolveRefs(v.bus, removes));
    case _ =>
  }

  lemma {:induction false} RemoveAllOk(b: Objects, refs: seq<Ref>)
    requires BusOk(b)
    ensures BusOk(RemoveAll(b, refs))
    decreases |refs|
  {
    if refs != [] {
      RemoveOk(b, refs[0].handle);
      RemoveAllOk(Remove(b, refs[0].handle), refs[1..]);
    }
  }

  lemma {:induction false} DeliverReplays(api: Api, busEvents: set<u16>, v: View, ps: seq<Down>, bufs: seq<Buf>)
    requires AllEncodable(api, busEvents, ps) && ReplayOk(v, ps) && BusOk(v.bus)
    requires InBuffers(bufs, EncPackets(api, busEvents, ps))
    ensures Deliver(api, busEvents, v, EncPackets(api, busEvents, ps), bufs) == Replay(v, ps)
    decreases |ps|
  {
    hide Encodable, EncPacket, DecPayload, Apply, Applicable, BusOk, InBuffer;
    if ps != [] {
      var frames := EncPackets(api, busEvents, ps);
      assert frames[1..] == EncPackets(api, busEvents, ps[1..]);
      OneDelivered(api, busEvents, v, ps[0], bufs[0]);
      ApplyKeepsBusOk(v, ps[0]);
      DeliverReplays(api, busEvents, Apply(v, ps[0]), ps[1..], bufs[1..]);
    }
  }

  lemma OneDelivered(api: Api, busEvents: set<u16>, v: View, p: Down, b: Buf)
    requires Encodable(api, busEvents, p) && Applicable(v, p) && BusOk(v.bus) && InBuffer(b, EncPacket(api, p))
    ensures b.Valid() && b.len >= HEADER_SIZE
    ensures var d := DecPayload(api, busEvents, v.bus, b.mem[8], b, HEADER_SIZE);
            d.Some? && Apply(v, d.value) == Apply(v, p)
  {
    hide Applicable, EncPayload, Apply, DecPayload;
    PacketDecodes(api, busEvents, v, p, b);
    WireActsAlike(v, p);
  }

  lemma EncodedArePackets(api: Api, busEvents: set<u16>, ps: seq<Down>)
    requires AllEncodable(api, busEvents, ps)
    ensures forall i :: 0 <= i < |ps| ==> IsPacket(EncPackets(api, busEvents, ps)[i])
  {
    hide IsPacket, EncPacket, FitsDown, EncPayload, Declared;
    forall i | 0 <= i < |ps|
      ensures IsPacket(EncPackets(api, busEvents, ps)[i])
    {
      PacketWellFormed(api, ps[i]);
    }
  }

  /** However the bytes of a channel are cut into reads, and whatever stands behind each packet
      when it is decoded, the client ends up as if it had replayed the packets. */
  lemma ChannelCarriesPackets(api: Api, busEvents: set<u16>, v: View, ps: seq<Down>, events: seq<seq<seq<byte>>>, bufs: seq<Buf>)
    requires AllEncodable(api, busEvents, ps) && ReplayOk(v, ps) && BusOk(v.bus)
    requires Received(events) == Flatten(EncPackets(api, busEvents, ps))
    requires InBuffers(bufs, Session(Fresh(0), events, []).frames)
    ensures Deliver(api, busEvents, v, Session(Fresh(0), events, []).frames, bufs) == Replay(v, ps)
  {
    hide Session, Flatten, Received, Deliver, Replay, ReplayOk, EncPackets, AllEncodable, BusOk, InBuffers;
    EncodedArePackets(api, busEvents, ps);
    assert |EncPackets(api, busEvents, ps)| == |ps| by { EncPacketsLength(api, busEvents, ps); }
    PacketsDelivered(EncPackets(api, busEvents, ps), events);
    DeliverReplays(api, busEvents, v, ps, bufs);
  }

  lemma EncPacketsLength(api: Api, busEvents: set<u16>, ps: seq<Down>)
    requires AllEncodable(api, busEvents, ps)
    ensures |EncPackets(api, busEvents, ps)| == |ps|
  {
  }

  // ---- typed runs ----

  ghost predicate SmallInfo(api: Api, uid: u16, info: Struct) {
    TypedInfo(api, uid, info) ==> |EncStruct(api.objects[uid], info)| < 0x1_0000_0000
  }

  /** The packet's sizes fit their 32-bit fields. */
  ghost predicate Small(api: Api, p: Down) {
    (match p
     case ConResp(_, snapshot) => forall i :: 0 <= i < |snapshot| ==> SmallInfo(api, snapshot[i].uid, snapshot[i].info)
     case AddPkt(it) => SmallInfo(api, it.uid, it.info)
     case EventPkt(e) => SmallInfo(api, e.uid, e.info)
     case BusEventPkt(_, adds, _, events) =>
       (forall i :: 0 <= i < |adds| ==> SmallInfo(api, adds[i].uid, adds[i].info)) &&
       (forall i :: 0 <= i < |events| ==> SmallInfo(api, events[i].uid, events[i].info))
     case _ => true) &&
    (FitsDown(api, p) ==> HEADER_SIZE + |EncPayload(api, p)| < 0x1_0000_0000)
  }

  lemma TypedEncodable(api: Api, busEvents: set<u16>, p: Down)
    requires TypedDown(api, busEvents, p) && Small(api, p)
    ensures Encodable(api, busEvents, p)
  {
    hide FitsStruct, DescOk, EncStruct, EncPayload;
  }

  lemma InFlightEncodable(api: Api, busEvents: set<u16>, s: System, i: nat)
    requires TypedReachable(api, busEvents, s) && i < |s.srv.peers|
    requires forall j :: 0 <= j < |s.srv.peers[i].down| ==> Small(api, s.srv.peers[i].down[j])
    ensures AllEncodable(api, busEvents, s.srv.peers[i].down)
  {
    hide TypedReachable, TypedDown, Small, Encodable;
    var down := s.srv.peers[i].down;
    forall j | 0 <= j < |down|
      ensures Encodable(api, busEvents, down[j])
    {
      InFlightIsTyped(api, busEvents, s, i, j);
      TypedEncodable(api, busEvents, down[j]);
    }
  }

  /** In every state an application reaches that passes data of the right types: once the bytes in
      flight to a connected client have arrived, in whatever pieces, its replica is the server's
      registered objects. */
  lemma EndToEnd(s: System, i: nat, api: Api, busEvents: set<u16>, events: seq<seq<seq<byte>>>, bufs: seq<Buf>)
    requires TypedReachable(api, busEvents, s) && i < |s.ends| && i < |s.srv.peers|
    requires s.srv.peers[i].phase == PeerConnected && s.ends[i].client.phase != Closed
    requires forall j :: 0 <= j < |s.srv.peers[i].down| ==> Small(api, s.srv.peers[i].down[j])
    requires (InFlightEncodable(api, busEvents, s, i);
              Received(events) == Flatten(EncPackets(api, busEvents, s.srv.peers[i].down)))
    requires InBuffers(bufs, Session(Fresh(0), events, []).frames)
    ensures Deliver(api, busEvents, ViewOf(s.ends[i].client), Session(Fresh(0), events, []).frames, bufs)
         == View(Connected, Registered(s.srv.store))
  {
    hide TypedReachable, Small, AllEncodable, EncPackets, Session, Received, Flatten, Deliver, InBuffers, Covered;
    InFlightEncodable(api, busEvents, s, i);
    TypedIsReachable(api, busEvents, s);
    ReachableInv(s);
    assert ConnOk(s.srv.schema, Registered(s.srv.store), s.srv.peers[i], s.ends[i]);
    ChannelCarriesPackets(api, busEvents, ViewOf(s.ends[i].client), s.srv.peers[i].down, events, bufs);
  }

  // ---- from the write queue ----

  /** What was submitted to a connection are the bytes of these packets. */
  ghost predicate Channel(api: Api, busEvents: set<u16>, io: T.Io, ps: seq<Down>) {
    AllEncodable(api, busEvents, ps) && io.submitted == Flatten(EncPackets(api, busEvents, ps))
  }

  lemma ChannelGrows(api: Api, busEvents: set<u16>, was: T.Io, now: T.Io, ps: seq<Down>, p: Down)
    requires Channel(api, busEvents, was, ps) && Encodable(api, busEvents, p)
    requires now.submitted == was.submitted + EncPacket(api, p)
    ensures Channel(api, busEvents, now, ps + [p])
  {
    hide FitsDown, EncPayload, Declared, EncPacket;
    FlattenAppend(EncPackets(api, busEvents, ps), EncPacket(api, p));
    assert EncPackets(api, busEvents, ps + [p]) == EncPackets(api, busEvents, ps) + [EncPacket(api, p)];
  }

  /** Encoding a packet into a pool buffer and sending it, as every broadcast of obus_server.c
      does: the stream of each connected peer grows by exactly this packet. */
  method SendPacket(pool: T.Pool, bytes: seq<byte>, connected: seq<bool>, rooms: seq<nat>,
                    ghost api: Api, ghost busEvents: set<u16>, ghost p: Down, ghost sent: seq<seq<Down>>)
    requires pool.Valid() && |connected| == |pool.ios| == |rooms| == |sent|
    requires forall i :: 0 <= i < |pool.ios| && connected[i] ==> pool.ios[i].open
    requires Encodable(api, busEvents, p) && bytes == EncPacket(api, p)
    requires forall i :: 0 <= i < |pool.ios| ==> Channel(api, busEvents, pool.ios[i], sent[i])
    modifies pool
    ensures pool.Valid() && |pool.ios| == |sent|
    ensures forall i :: 0 <= i < |sent| ==>
              Channel(api, busEvents, pool.ios[i], if connected[i] then sent[i] + [p] else sent[i])
  {
    hide Channel, Encodable, EncPacket, T.IoOk, T.Accounted, T.Holders;
    var b := pool.Peek();
    pool.Fill(b, bytes);
    ghost var was := pool.ios;
    pool.SendPeers(b, connected, rooms);
    pool.Unref(b);
    forall i | 0 <= i < |sent|
      ensures Channel(api, busEvents, pool.ios[i], if connected[i] then sent[i] + [p] else sent[i])
    {
      if connected[i] {
        ChannelGrows(api, busEvents, was[i], pool.ios[i], sent[i], p);
      }
    }
  }

  /** From the queue to the replica: whatever part of a channel is on the wire, the client has
      replayed exactly the packets that are completely on it, and all of them once the queue is
      empty. */
  lemma QueueToReplica(api: Api, busEvents: set<u16>, mem: seq<T.Buffer>, io: T.Io, v: View, ps: seq<Down>,
                       events: seq<seq<seq<byte>>>, bufs: seq<Buf>)
    requires T.IoOk(mem, io) && io.open && Channel(api, busEvents, io, ps) && ReplayOk(v, ps) && BusOk(v.bus)
    requires Received(events) == io.wire && InBuffers(bufs, Session(Fresh(0), events, []).frames)
    ensures var n := Whole(EncPackets(api, busEvents, ps), |io.wire|);
            n <= |ps| && Deliver(api, busEvents, v, Session(Fresh(0), events, []).frames, bufs) == Replay(v, ps[..n])
    ensures io.queue == [] ==> Deliver(api, busEvents, v, Session(Fresh(0), events, []).frames, bufs) == Replay(v, ps)
  {
    hide Session, Flatten, Received, Deliver, Replay, ReplayOk, BusOk, InBuffers, T.IoOk, Whole, Encodable, EncPacket;
    T.WireIsPrefix(mem, io);
    var fs := EncPackets(api, busEvents, ps);
    var n := Whole(fs, |io.wire|);
    EncodedArePackets(api, busEvents, ps);
    PrefixDelivered(fs, events);
    assert fs[..n] == EncPackets(api, busEvents, ps[..n]);
    ReplayPrefixOk(v, ps, n);
    DeliverReplays(api, busEvents, v, ps[..n], bufs);
    if io.queue == [] {
      WholeAll(fs);
      assert ps[..n] == ps;
    }
  }

  lemma {:induction false} ReplayPrefixOk(v: View, ps: seq<Down>, n: nat)
    requires ReplayOk(v, ps) && n <= |ps|
    ensures ReplayOk(v, ps[..n])
    decreases n
  {
    if n > 0 {
      assert ps[..n][1..] == ps[1..][..n - 1];
      ReplayPrefixOk(Apply(v, ps[0]), ps[1..], n - 1);
    }
  }
}
