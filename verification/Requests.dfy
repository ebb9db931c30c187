/** The bytes on the way up: connection requests and calls, as the client encodes and the server
    decodes them (obus_call.c, obus_packet.c). */
module Requests {
  import opened Values
  import opened Bytes
  import opened Codec
  import opened Bus
  import opened ObjectStore
  import opened ServerSpec
  import opened Packets
  import opened Framing

  /** The methods a side knows, by type and method uid, with the descriptor of their arguments;
      None is a method without arguments. */
  type Methods = map<(u16, u16), Option<Desc>>

  ghost predicate FitsCall(ms: Methods, u: Up) {
    u.CallPkt? && (u.uid, u.mid) in ms &&
    match ms[(u.uid, u.mid)]
    case None => u.args == map[]
    case Some(d) => DescOk(d) && FitsStruct(d, u.args) && |EncStruct(d, u.args)| < 0x1_0000_0000
  }

  ghost function EncArgs(ms: Methods, u: Up): (r: seq<byte>)
    requires FitsCall(ms, u)
    ensures |r| < 0x1_0000_0000
  {
    var d := ms[(u.uid, u.mid)];
    if d.None? then [] else EncStruct(d.value, u.args)
  }

  /** obus_call_encode: the arguments after their back-patched size. */
  ghost function EncCall(ms: Methods, u: Up): seq<byte>
    requires FitsCall(ms, u)
  {
    U16(u.uid) + (U16(u.handle) + (U16(u.mid) + (U16(u.call) + (U32(|EncArgs(ms, u)|) + EncArgs(ms, u)))))
  }

  /** The method a call names, if the server holds the object with that type and knows the method. */
  function MethodFor(ms: Methods, objs: map<Handle, Obj>, uid: u16, handle: Handle, mid: u16): Option<Option<Desc>> {
    if handle in objs && objs[handle].uid == uid && (uid, mid) in ms then Some(ms[(uid, mid)]) else None
  }

  /** The arguments: read if the method has any, then on to the end the size marker gives. */
  function DecArgs(m: Option<Option<Desc>>, b: Buf, size: u32, pos: nat): Parsed<Struct>
    requires b.Valid()
  {
    if m == Some(None) then Parsed(Some(map[]), Goto(b, pos, pos + size))
    else DecSized(if m.None? then None else m.value, b, size, pos)
  }

  /** obus_call_decode. */
  function DecCall(ms: Methods, objs: map<Handle, Obj>, b: Buf, pos: nat): Parsed<Up>
    requires b.Valid()
  {
    var uid := ReadU16(b, pos);
    if uid.Fail? then Parsed(None, pos) else
    var handle := ReadU16(b, uid.next);
    if handle.Fail? then Parsed(None, uid.next) else
    var mid := ReadU16(b, handle.next);
    if mid.Fail? then Parsed(None, handle.next) else
    var call := ReadU16(b, mid.next);
    if call.Fail? then Parsed(None, mid.next) else
    var size := ReadU32(b, call.next);
    if size.Fail? then Parsed(None, call.next) else
    var r := DecArgs(MethodFor(ms, objs, uid.value, handle.value, mid.value), b, size.value, size.next);
    Parsed(if r.item.Some? then Some(CallPkt(uid.value, handle.value, mid.value, call.value, r.item.value)) else None, r.next)
  }

  /** What a server with methods ms2 and these objects makes of a call sent under ms1. */
  function KnownCall(ms1: Methods, ms2: Methods, objs: map<Handle, Obj>, u: Up): Option<Up>
    requires u.CallPkt? && (u.uid, u.mid) in ms1
  {
    var m := MethodFor(ms2, objs, u.uid, u.handle, u.mid);
    if m.None? then None
    else
      var d1, d2 := ms1[(u.uid, u.mid)], m.value;
      Some(u.(args := if d1.None? || d2.None? then map[] else Common(d1.value, d2.value, u.args)))
  }

  lemma CallHeadAt(b: Buf, pos: nat, u: Up, sized: seq<byte>)
    requires u.CallPkt? && At(b, pos, U16(u.uid) + (U16(u.handle) + (U16(u.mid) + (U16(u.call) + sized))))
    ensures ReadU16(b, pos) == Got(u.uid, pos + 2) && ReadU16(b, pos + 2) == Got(u.handle, pos + 4)
    ensures ReadU16(b, pos + 4) == Got(u.mid, pos + 6) && ReadU16(b, pos + 6) == Got(u.call, pos + 8) && At(b, pos + 8, sized)
  {
    hide At, ReadU16;
    AtConcat(b, pos, U16(u.uid), U16(u.handle) + (U16(u.mid) + (U16(u.call) + sized)));
    ReadU16At(b, pos, u.uid);
    AtConcat(b, pos + 2, U16(u.handle), U16(u.mid) + (U16(u.call) + sized));
    ReadU16At(b, pos + 2, u.handle);
    AtConcat(b, pos + 4, U16(u.mid), U16(u.call) + sized);
    ReadU16At(b, pos + 4, u.mid);
    AtConcat(b, pos + 6, U16(u.call), sized);
    ReadU16At(b, pos + 6, u.call);
  }

  lemma ArgsAt(ms1: Methods, m: Option<Option<Desc>>, u: Up, b: Buf, pos: nat)
    requires FitsCall(ms1, u) && At(b, pos, U32(|EncArgs(ms1, u)|) + EncArgs(ms1, u))
    requires m.Some? && m.value.Some? ==> ms1[(u.uid, u.mid)].Some?
    ensures ReadU32(b, pos) == Got(|EncArgs(ms1, u)|, pos + 4)
    ensures var d1 := ms1[(u.uid, u.mid)];
            DecArgs(m, b, |EncArgs(ms1, u)|, pos + 4) ==
            Parsed(if m.None? then None
                   else Some(if d1.None? || m.value.None? then map[] else Common(d1.value, m.value.value, u.args)),
                   pos + 4 + |EncArgs(ms1, u)|)
  {
    hide ReadU32, DecStruct, EncStruct, FitsStruct, DescOk;
    var enc := EncArgs(ms1, u);
    AtConcat(b, pos, U32(|enc|), enc);
    ReadU32At(b, pos, |enc|);
    if m.Some? && m.value.Some? {
      SchemaEvolution(ms1[(u.uid, u.mid)].value, m.value.value, u.args, b, pos + 4);
    }
  }

  /** An encoded call decodes, whatever follows it, to what the server knows of it, or is skipped by
      its size marker: between any two schemas that do not disagree on whether the method has
      arguments at all. */
  lemma CallAt(ms1: Methods, ms2: Methods, objs: map<Handle, Obj>, u: Up, b: Buf, pos: nat)
    requires FitsCall(ms1, u) && At(b, pos, EncCall(ms1, u))
    requires (u.uid, u.mid) in ms2 && ms2[(u.uid, u.mid)].Some? ==> ms1[(u.uid, u.mid)].Some?
    ensures DecCall(ms2, objs, b, pos) == Parsed(KnownCall(ms1, ms2, objs, u), pos + |EncCall(ms1, u)|)
  {
    hide ReadU16, ReadU32, DecArgs, EncArgs, At, U16, U32;
    var sized := U32(|EncArgs(ms1, u)|) + EncArgs(ms1, u);
    CallHeadAt(b, pos, u, sized);
    ArgsAt(ms1, MethodFor(ms2, objs, u.uid, u.handle, u.mid), u, b, pos + 8);
    CallLength(ms1, u);
  }

  lemma CallLength(ms: Methods, u: Up)
    requires FitsCall(ms, u)
    ensures |EncCall(ms, u)| == 12 + |EncArgs(ms, u)|
  {
    hide EncStruct;
  }

  // ---- connection requests ----

  ghost predicate FitsText(s: seq<byte>) { FitsScalar(StringType, Text(Some(s))) }

  ghost function EncText(s: seq<byte>): seq<byte>
    requires FitsText(s)
  {
    EncScalar(StringType, Text(Some(s)))
  }

  ghost predicate FitsUp(ms: Methods, u: Up) {
    match u
    case ConReq(_, bus, _, client) => FitsText(bus) && FitsText(client)
    case CallPkt(_, _, _, _, _) => FitsCall(ms, u)
  }

  ghost function EncUp(ms: Methods, u: Up): seq<byte>
    requires FitsUp(ms, u)
  {
    match u
    case ConReq(version, bus, crc, client) => [version] + (EncText(bus) + (U32(crc) + EncText(client)))
    case CallPkt(_, _, _, _, _) => EncCall(ms, u)
  }

  function OrEmpty(v: Scalar): seq<byte> { if v.Text? && v.chars.Some? then v.chars.value else [] }

  /** obus_packet_conreq_decode. */
  function DecConReq(b: Buf, pos: nat): Option<Up>
    requires b.Valid()
  {
    var version := ReadU8(b, pos);
    if version.Fail? then None else
    var bus := DecString(b, version.next);
    if bus.Fail? then None else
    var crc := ReadU32(b, bus.next);
    if crc.Fail? then None else
    var client := DecString(b, crc.next);
    if client.Fail? then None else Some(ConReq(version.value, OrEmpty(bus.value), crc.value, OrEmpty(client.value)))
  }

  function UpType(u: Up): byte { if u.ConReq? then 0 else 6 }

  /** The server's half of the switch in obus_packet_decoder_read. */
  function DecUp(ms: Methods, objs: map<Handle, Obj>, typ: byte, b: Buf, pos: nat): Option<Up>
    requires b.Valid()
  {
    if typ == 0 then DecConReq(b, pos) else if typ == 6 then DecCall(ms, objs, b, pos).item else None
  }

  lemma ConReqAt(version: byte, bus: seq<byte>, crc: u32, client: seq<byte>, b: Buf, pos: nat)
    requires FitsText(bus) && FitsText(client)
    requires At(b, pos, [version] + (EncText(bus) + (U32(crc) + EncText(client))))
    ensures DecConReq(b, pos) == Some(ConReq(version, bus, crc, client))
  {
    hide At, ReadU8, ReadU32, DecString, EncScalar, FitsScalar;
    var e1, e2 := EncText(bus), EncText(client);
    AtConcat(b, pos, [version], e1 + (U32(crc) + e2));
    ReadU8At(b, pos, version);
    AtConcat(b, pos + 1, e1, U32(crc) + e2);
    StringAt(b, pos + 1, Text(Some(bus)));
    AtConcat(b, pos + 1 + |e1|, U32(crc), e2);
    ReadU32At(b, pos + 1 + |e1|, crc);
    StringAt(b, pos + 5 + |e1|, Text(Some(client)));
  }

  // ---- and what the server's model says ----

  /** The methods are those of the schema. */
  ghost predicate MethodsOf(ms: Methods, sc: Schema) {
    forall uid, mid :: (uid, mid) in ms <==> uid in sc.classes && mid in sc.classes[uid].methods
  }

  /** A request decodes to itself, except a call the server cannot place, which is rejected: exactly
      the calls that ServerSpec.Decodes excludes. */
  lemma RequestAt(ms: Methods, srv: Srv, u: Up, b: Buf, pos: nat)
    requires FitsUp(ms, u) && MethodsOf(ms, srv.schema) && At(b, pos, EncUp(ms, u))
    ensures DecUp(ms, srv.store.objs, UpType(u), b, pos) ==
            if u.ConReq? then Some(u) else if Decodes(srv, u) then Some(u.(args := WireStruct(u.args))) else None
  {
    hide DecCall, DecConReq, EncCall, EncText, At;
    match u
    case ConReq(version, bus, crc, client) => ConReqAt(version, bus, crc, client, b, pos);
    case CallPkt(uid, handle, mid, call, args) =>
      CallAt(ms, ms, srv.store.objs, u, b, pos);
      CallKnown(ms, srv, u);
  }

  lemma CallKnown(ms: Methods, srv: Srv, u: Up)
    requires FitsCall(ms, u) && MethodsOf(ms, srv.schema)
    ensures KnownCall(ms, ms, srv.store.objs, u) == if Decodes(srv, u) then Some(u.(args := WireStruct(u.args))) else None
  {
    hide EncStruct, FitsStruct, DescOk, Common;
    var d := ms[(u.uid, u.mid)];
    if d.Some? {
      CommonWithSelf(d.value, u.args);
    } else {
      assert WireStruct(map[]) == map[];
    }
  }

  // ---- framed ----

  /** A payload behind its header, as obus_packet_encode_header leaves it. */
  function Framed(typ: byte, payload: seq<byte>): seq<byte>
    requires HEADER_SIZE + |payload| < 0x1_0000_0000
  {
    MAGIC + (U32(HEADER_SIZE + |payload|) + [typ]) + payload
  }

  lemma FramedIsPacket(typ: byte, payload: seq<byte>)
    requires HEADER_SIZE + |payload| < 0x1_0000_0000 && typ < PACKET_TYPES
    ensures IsPacket(Framed(typ, payload)) && Framed(typ, payload)[8] == typ
  {
    var f, n := Framed(typ, payload), HEADER_SIZE + |payload|;
    assert f[4] == U32(n)[0] && f[5] == U32(n)[1] && f[6] == U32(n)[2] && f[7] == U32(n)[3];
    FromU32Inverse(n);
  }

  ghost function UpPacket(ms: Methods, u: Up): seq<byte>
    requires FitsUp(ms, u) && HEADER_SIZE + |EncUp(ms, u)| < 0x1_0000_0000
  {
    Framed(UpType(u), EncUp(ms, u))
  }

  /** A call the server cannot place is a rejected payload, so a request that arrives with it in one
      read is left in the buffer until more bytes come. */
  lemma UnplacedCallHidesNext(ms: Methods, srv: Srv, u: Up, w: Up, b: Buf)
    requires FitsUp(ms, u) && HEADER_SIZE + |EncUp(ms, u)| < 0x1_0000_0000
    requires FitsUp(ms, w) && HEADER_SIZE + |EncUp(ms, w)| < 0x1_0000_0000
    requires MethodsOf(ms, srv.schema) && u.CallPkt? && !Decodes(srv, u) && At(b, 0, UpPacket(ms, u))
    ensures DecUp(ms, srv.store.objs, b.mem[8], b, HEADER_SIZE) == None
    ensures Stalls(Fresh(0), [UpPacket(ms, u) + UpPacket(ms, w)], [false])
  {
    hide DecUp, EncUp, Stalls, Decodes, MethodsOf, FitsUp;
    var head := MAGIC + (U32(HEADER_SIZE + |EncUp(ms, u)|) + [UpType(u)]);
    AtConcat(b, 0, head, EncUp(ms, u));
    FramedIsPacket(UpType(u), EncUp(ms, u));
    FramedIsPacket(UpType(w), EncUp(ms, w));
    assert b.mem[8] == b.mem[0..|UpPacket(ms, u)|][8];
    RequestAt(ms, srv, u, b, HEADER_SIZE);
    RejectedPacketHidesNext(UpPacket(ms, u), UpPacket(ms, w));
  }
}
