/** Packet payloads: objects, events and bus events with their size markers, decoded against the
    receiver's schema and bus while unknown items are skipped. */
module Packets {
  import opened Values
  import opened Bytes
  import opened Codec
  import opened Bus

  /** What a side knows: the info descriptor of each object type, and each type's events. */
  datatype Api = Api(objects: map<u16, Desc>, events: map<u16, set<u16>>)

  // ---- items with a size marker ----

  ghost predicate FitsInfo(api: Api, uid: u16, info: Struct) {
    uid in api.objects && DescOk(api.objects[uid]) && FitsStruct(api.objects[uid], info) &&
    |EncStruct(api.objects[uid], info)| < 0x1_0000_0000
  }

  /** The struct after its back-patched size. */
  ghost function EncSized(api: Api, uid: u16, info: Struct): seq<byte>
    requires FitsInfo(api, uid, info)
  {
    U32(|EncStruct(api.objects[uid], info)|) + EncStruct(api.objects[uid], info)
  }

  ghost function EncItem(api: Api, it: Item): seq<byte>
    requires FitsInfo(api, it.uid, it.info)
  {
    U16(it.uid) + (U16(it.handle) + EncSized(api, it.uid, it.info))
  }

  ghost function EncRef(r: Ref): seq<byte> { U16(r.uid) + U16(r.handle) }

  ghost function EncEvent(api: Api, e: Event): seq<byte>
    requires FitsInfo(api, e.uid, e.info)
  {
    U16(e.uid) + (U16(e.handle) + (U16(e.event) + EncSized(api, e.uid, e.info)))
  }

  datatype Parsed<+T> = Parsed(item: Option<T>, next: nat)

  /** The data after a size marker, under the descriptor the receiver has for it: an unknown
      type is skipped by the marker, and reading always ends where the marker says. */
  function DecSized(desc: Option<Desc>, b: Buf, size: u32, pos: nat): Parsed<Struct>
    requires b.Valid()
  {
    if desc.None? then Parsed(None, Goto(b, pos, pos + size))
    else
      var st := DecStruct(desc.value, b, pos);
      if st.Fail? then Parsed(None, Goto(b, pos, pos + size))
      else Parsed(Some(st.value), if st.next != pos + size then Goto(b, st.next, pos + size) else st.next)
  }

  function DescFor(api: Api, uid: u16, handle: Handle): Option<Desc> {
    if uid == INVALID_UID || handle == INVALID_HANDLE || uid !in api.objects then None else Some(api.objects[uid])
  }

  /** obus_object_add_decode. */
  function DecItem(api: Api, b: Buf, pos: nat): Parsed<Item>
    requires b.Valid()
  {
    var uid := ReadU16(b, pos);
    if uid.Fail? then Parsed(None, pos) else
    var handle := ReadU16(b, uid.next);
    if handle.Fail? then Parsed(None, uid.next) else
    var size := ReadU32(b, handle.next);
    if size.Fail? then Parsed(None, handle.next) else
    var r := DecSized(DescFor(api, uid.value, handle.value), b, size.value, size.next);
    Parsed(if r.item.Some? then Some(Item(handle.value, uid.value, r.item.value)) else None, r.next)
  }

  /** obus_object_remove_decode: looked up by handle alone. */
  function DecRef(bus: Objects, b: Buf, pos: nat): Parsed<Ref>
    requires b.Valid()
  {
    var uid := ReadU16(b, pos);
    if uid.Fail? then Parsed(None, pos) else
    var handle := ReadU16(b, uid.next);
    if handle.Fail? then Parsed(None, uid.next) else
    Parsed(if handle.value != INVALID_HANDLE && handle.value in bus.at then Some(Ref(handle.value, uid.value)) else None,
           handle.next)
  }

  function DescForEvent(api: Api, bus: Objects, uid: u16, handle: Handle, event: u16): Option<Desc> {
    if event == INVALID_UID || DescFor(api, uid, handle).None? || !Held(bus, handle, uid)
       || uid !in api.events || event !in api.events[uid] then None
    else DescFor(api, uid, handle)
  }

  /** obus_event_decode. */
  function DecEvent(api: Api, bus: Objects, b: Buf, pos: nat): Parsed<Event>
    requires b.Valid()
  {
    var uid := ReadU16(b, pos);
    if uid.Fail? then Parsed(None, pos) else
    var handle := ReadU16(b, uid.next);
    if handle.Fail? then Parsed(None, uid.next) else
    var event := ReadU16(b, handle.next);
    if event.Fail? then Parsed(None, handle.next) else
    var size := ReadU32(b, event.next);
    if size.Fail? then Parsed(None, event.next) else
    var r := DecSized(DescForEvent(api, bus, uid.value, handle.value, event.value), b, size.value, size.next);
    Parsed(if r.item.Some? then Some(Event(handle.value, uid.value, event.value, r.item.value)) else None, r.next)
  }

  // ---- lists ----

  datatype Listed<+T> = Listed(items: seq<T>, next: nat)

  function Cons<T>(x: Option<T>, xs: seq<T>): seq<T> { if x.Some? then [x.value] + xs else xs }

  function DecItems(api: Api, n: nat, b: Buf, pos: nat): Listed<Item>
    requires b.Valid()
  {
    if n == 0 then Listed([], pos)
    else
      var x := DecItem(api, b, pos);
      var xs := DecItems(api, n - 1, b, x.next);
      Listed(Cons(x.item, xs.items), xs.next)
  }

  function DecRefs(bus: Objects, n: nat, b: Buf, pos: nat): Listed<Ref>
    requires b.Valid()
  {
    if n == 0 then Listed([], pos)
    else
      var x := DecRef(bus, b, pos);
      var xs := DecRefs(bus, n - 1, b, x.next);
      Listed(Cons(x.item, xs.items), xs.next)
  }

  function DecEvents(api: Api, bus: Objects, n: nat, b: Buf, pos: nat): Listed<Event>
    requires b.Valid()
  {
    if n == 0 then Listed([], pos)
    else
      var x := DecEvent(api, bus, b, pos);
      var xs := DecEvents(api, bus, n - 1, b, x.next);
      Listed(Cons(x.item, xs.items), xs.next)
  }

  ghost predicate FitsItems(api: Api, items: seq<Item>) {
    |items| < 0x1_0000_0000 && forall i :: 0 <= i < |items| ==> FitsInfo(api, items[i].uid, items[i].info)
  }

  ghost predicate FitsEvents(api: Api, es: seq<Event>) {
    |es| < 0x1_0000_0000 && forall i :: 0 <= i < |es| ==> FitsInfo(api, es[i].uid, es[i].info)
  }

  ghost function EncItems(api: Api, items: seq<Item>): seq<byte>
    requires FitsItems(api, items)
  {
    if items == [] then [] else EncItem(api, items[0]) + EncItems(api, items[1..])
  }

  ghost function EncRefs(refs: seq<Ref>): seq<byte> {
    if refs == [] then [] else EncRef(refs[0]) + EncRefs(refs[1..])
  }

  ghost function EncEvents(api: Api, es: seq<Event>): seq<byte>
    requires FitsEvents(api, es)
  {
    if es == [] then [] else EncEvent(api, es[0]) + EncEvents(api, es[1..])
  }

  /** What receiver api2 makes of an item sent by api1. */
  function KnownItem(api1: Api, api2: Api, it: Item): Option<Item>
    requires it.uid in api1.objects
  {
    var d := DescFor(api2, it.uid, it.handle);
    if d.None? then None else Some(it.(info := Common(api1.objects[it.uid], d.value, it.info)))
  }

  function KnownItems(api1: Api, api2: Api, items: seq<Item>): seq<Item>
    requires forall i :: 0 <= i < |items| ==> items[i].uid in api1.objects
  {
    if items == [] then [] else Cons(KnownItem(api1, api2, items[0]), KnownItems(api1, api2, items[1..]))
  }

  function KnownRefs(bus: Objects, refs: seq<Ref>): seq<Ref> {
    if refs == [] then []
    else Cons(if refs[0].handle != INVALID_HANDLE && refs[0].handle in bus.at then Some(refs[0]) else None, KnownRefs(bus, refs[1..]))
  }

  function KnownEvent(api1: Api, api2: Api, bus: Objects, e: Event): Option<Event>
    requires e.uid in api1.objects
  {
    var d := DescForEvent(api2, bus, e.uid, e.handle, e.event);
    if d.None? then None else Some(e.(info := Common(api1.objects[e.uid], d.value, e.info)))
  }

  function KnownEvents(api1: Api, api2: Api, bus: Objects, es: seq<Event>): seq<Event>
    requires forall i :: 0 <= i < |es| ==> es[i].uid in api1.objects
  {
    if es == [] then [] else Cons(KnownEvent(api1, api2, bus, es[0]), KnownEvents(api1, api2, bus, es[1..]))
  }

  /** What is common: the fields that are present and that both sides describe with the same uid and
      type. */
  lemma CommonIs(d1: Desc, d2: Desc, s: Struct)
    requires DescOk(d1) && DescOk(d2)
    ensures forall u :: u in Common(d1, d2, s) <==> u in s && exists d :: d in d1 && d in d2 && d.uid == u
    ensures forall u :: u in Common(d1, d2, s) ==> Common(d1, d2, s)[u] == WireValue(s[u])
  {
    forall u | u in s && exists d :: d in d1 && d in d2 && d.uid == u
      ensures u in Common(d1, d2, s)
    {
      var d :| d in d1 && d in d2 && d.uid == u;
      DescInFind(d1, d);
      DescInFind(d2, d);
    }
  }

  /** An object is known exactly if its handle and type are valid and the receiver describes the type;
      an event, if also the receiver holds the object with that type and declares the event. */
  lemma KnownIs(api1: Api, api2: Api, bus: Objects, it: Item, e: Event)
    requires it.uid in api1.objects && e.uid in api1.objects
    ensures KnownItem(api1, api2, it).Some? <==> it.handle != 0 && it.uid != 0 && it.uid in api2.objects
    ensures KnownItem(api1, api2, it).Some? ==>
              KnownItem(api1, api2, it).value == Item(it.handle, it.uid, Common(api1.objects[it.uid], api2.objects[it.uid], it.info))
    ensures KnownEvent(api1, api2, bus, e).Some? <==>
              e.handle != 0 && e.uid != 0 && e.event != 0 && e.uid in api2.objects && e.uid in api2.events && e.event in api2.events[e.uid] &&
              e.handle in bus.at && bus.at[e.handle].uid == e.uid
    ensures KnownEvent(api1, api2, bus, e).Some? ==>
              KnownEvent(api1, api2, bus, e).value == Event(e.handle, e.uid, e.event, Common(api1.objects[e.uid], api2.objects[e.uid], e.info))
  {
  }

  /** The statuses and packet types in the order of their enumerations. */
  const STATUSES := [InvalidStatus, Acked, Aborted, MethodDisabled, MethodNotSupported, InvalidArguments, Refused]

  lemma NumberedInOrder(s: Status, p: Down)
    ensures StatusCode(s) < |STATUSES| && STATUSES[StatusCode(s)] == s && StatusOf(StatusCode(s)) == s
    ensures PacketType(p) == if p.ConResp? then 1 else if p.AddPkt? then 2 else if p.RemovePkt? then 3 else if p.BusEventPkt? then 4
                             else if p.EventPkt? then 5 else 7
  {
  }

  // ---- nested round trip ----

  lemma SizedAt(api1: Api, uid: u16, info: Struct, d: Option<Desc>, b: Buf, pos: nat)
    requires FitsInfo(api1, uid, info) && At(b, pos, EncSized(api1, uid, info))
    ensures var size := ReadU32(b, pos);
            size.Got? && DecSized(d, b, size.value, size.next)
            == Parsed(if d.None? then None else Some(Common(api1.objects[uid], d.value, info)), pos + |EncSized(api1, uid, info)|)
  {
    var enc := EncStruct(api1.objects[uid], info);
    AtConcat(b, pos, U32(|enc|), enc);
    ReadU32At(b, pos, |enc|);
    if d.Some? {
      SchemaEvolution(api1.objects[uid], d.value, info, b, pos + 4);
    }
  }

  lemma ItemAt(api1: Api, api2: Api, it: Item, b: Buf, pos: nat)
    requires FitsInfo(api1, it.uid, it.info) && At(b, pos, EncItem(api1, it))
    ensures DecItem(api2, b, pos) == Parsed(KnownItem(api1, api2, it), pos + |EncItem(api1, it)|)
  {
    var sized := EncSized(api1, it.uid, it.info);
    AtConcat(b, pos, U16(it.uid), U16(it.handle) + sized);
    ReadU16At(b, pos, it.uid);
    AtConcat(b, pos + 2, U16(it.handle), sized);
    ReadU16At(b, pos + 2, it.handle);
    SizedAt(api1, it.uid, it.info, DescFor(api2, it.uid, it.handle), b, pos + 4);
  }

  lemma RefAt(bus: Objects, r: Ref, b: Buf, pos: nat)
    requires At(b, pos, EncRef(r))
    ensures DecRef(bus, b, pos)
         == Parsed(if r.handle != INVALID_HANDLE && r.handle in bus.at then Some(r) else None, pos + |EncRef(r)|)
  {
    AtConcat(b, pos, U16(r.uid), U16(r.handle));
    ReadU16At(b, pos, r.uid);
    ReadU16At(b, pos + 2, r.handle);
  }

  lemma EventAt(api1: Api, api2: Api, bus: Objects, e: Event, b: Buf, pos: nat)
    requires FitsInfo(api1, e.uid, e.info) && At(b, pos, EncEvent(api1, e))
    ensures DecEvent(api2, bus, b, pos) == Parsed(KnownEvent(api1, api2, bus, e), pos + |EncEvent(api1, e)|)
  {
    var sized := EncSized(api1, e.uid, e.info);
    AtConcat(b, pos, U16(e.uid), U16(e.handle) + (U16(e.event) + sized));
    ReadU16At(b, pos, e.uid);
    AtConcat(b, pos + 2, U16(e.handle), U16(e.event) + sized);
    ReadU16At(b, pos + 2, e.handle);
    AtConcat(b, pos + 4, U16(e.event), sized);
    ReadU16At(b, pos + 4, e.event);
    SizedAt(api1, e.uid, e.info, DescForEvent(api2, bus, e.uid, e.handle, e.event), b, pos + 6);
  }

  /** A list of objects decodes, whatever follows, to exactly those of known type, in order. */
  lemma {:induction false} ItemsAt(api1: Api, api2: Api, items: seq<Item>, b: Buf, pos: nat)
    requires FitsItems(api1, items) && At(b, pos, EncItems(api1, items))
    ensures DecItems(api2, |items|, b, pos) == Listed(KnownItems(api1, api2, items), pos + |EncItems(api1, items)|)
    decreases |items|
  {
    hide DecItem, EncItem, KnownItem, FitsInfo, At;
    if items != [] {
      AtConcat(b, pos, EncItem(api1, items[0]), EncItems(api1, items[1..]));
      ItemAt(api1, api2, items[0], b, pos);
      ItemsAt(api1, api2, items[1..], b, pos + |EncItem(api1, items[0])|);
    }
  }

  lemma {:induction false} RefsAt(bus: Objects, refs: seq<Ref>, b: Buf, pos: nat)
    requires At(b, pos, EncRefs(refs))
    ensures DecRefs(bus, |refs|, b, pos) == Listed(KnownRefs(bus, refs), pos + |EncRefs(refs)|)
    decreases |refs|
  {
    hide DecRef, EncRef;
    if refs != [] {
      AtConcat(b, pos, EncRef(refs[0]), EncRefs(refs[1..]));
      RefAt(bus, refs[0], b, pos);
      RefsAt(bus, refs[1..], b, pos + |EncRef(refs[0])|);
    }
  }

  lemma {:induction false} EventsAt(api1: Api, api2: Api, bus: Objects, es: seq<Event>, b: Buf, pos: nat)
    requires FitsEvents(api1, es) && At(b, pos, EncEvents(api1, es))
    ensures DecEvents(api2, bus, |es|, b, pos) == Listed(KnownEvents(api1, api2, bus, es), pos + |EncEvents(api1, es)|)
    decreases |es|
  {
    hide DecEvent, EncEvent, KnownEvent, FitsInfo, At;
    if es != [] {
      AtConcat(b, pos, EncEvent(api1, es[0]), EncEvents(api1, es[1..]));
      EventAt(api1, api2, bus, es[0], b, pos);
      EventsAt(api1, api2, bus, es[1..], b, pos + |EncEvent(api1, es[0])|);
    }
  }

  // ---- whole payloads ----

  ghost predicate FitsDown(api: Api, p: Down) {
    match p
    case ConResp(_, snapshot) => FitsItems(api, snapshot)
    case AddPkt(it) => FitsInfo(api, it.uid, it.info)
    case RemovePkt(_) => true
    case EventPkt(e) => FitsInfo(api, e.uid, e.info)
    case BusEventPkt(_, adds, removes, events) =>
      FitsItems(api, adds) && |removes| < 0x1_0000_0000 && FitsEvents(api, events)
    case AckPkt(_, _) => true
  }

  function StatusCode(s: Status): byte {
    match s
    case InvalidStatus => 0 case Acked => 1 case Aborted => 2 case MethodDisabled => 3
    case MethodNotSupported => 4 case InvalidArguments => 5 case Refused => 6
  }

  function StatusOf(code: byte): Status {
    if code == 1 then Acked else if code == 2 then Aborted else if code == 3 then MethodDisabled
    else if code == 4 then MethodNotSupported else if code == 5 then InvalidArguments
    else if code == 6 then Refused else InvalidStatus
  }

  /** Packet type numbers as in obus_packet.h. */
  function PacketType(p: Down): byte {
    match p
    case ConResp(_, _) => 1 case AddPkt(_) => 2 case RemovePkt(_) => 3
    case BusEventPkt(_, _, _, _) => 4 case EventPkt(_) => 5 case AckPkt(_, _) => 7
  }

  ghost function EncBusEvent(api: Api, p: Down): seq<byte>
    requires p.BusEventPkt? && FitsDown(api, p)
  {
    U16(p.uid) + (U32(|p.adds|) + (U32(|p.removes|) + (U32(|p.events|) +
      (EncItems(api, p.adds) + (EncRefs(p.removes) + EncEvents(api, p.events))))))
  }

  function ConStatus(accepted: bool): byte { if accepted then 0 else 1 }

  ghost function EncPayload(api: Api, p: Down): seq<byte>
    requires FitsDown(api, p)
  {
    match p
    case ConResp(accepted, snapshot) => [ConStatus(accepted)] + (U32(|snapshot|) + EncItems(api, snapshot))
    case AddPkt(it) => EncItem(api, it)
    case RemovePkt(r) => EncRef(r)
    case EventPkt(e) => EncEvent(api, e)
    case BusEventPkt(_, _, _, _) => EncBusEvent(api, p)
    case AckPkt(call, status) => U16(call) + [StatusCode(status)]
  }

  function DecConResp(api: Api, b: Buf, pos: nat): Option<Down>
    requires b.Valid()
  {
    var status := ReadU8(b, pos);
    if status.Fail? || status.value > 2 then None else
    var n := ReadU32(b, status.next);
    if n.Fail? then None else
    Some(ConResp(status.value == 0, DecItems(api, n.value, b, n.next).items))
  }

  function DecBusEvent(api: Api, busEvents: set<u16>, bus: Objects, b: Buf, pos: nat): Option<Down>
    requires b.Valid()
  {
    var uid := ReadU16(b, pos);
    if uid.Fail? then None else
    var nAdds := ReadU32(b, uid.next);
    if nAdds.Fail? then None else
    var nRemoves := ReadU32(b, nAdds.next);
    if nRemoves.Fail? then None else
    var nEvents := ReadU32(b, nRemoves.next);
    if nEvents.Fail? then None else
    if uid.value == INVALID_UID || uid.value !in busEvents then None else
    var adds := DecItems(api, nAdds.value, b, nEvents.next);
    var removes := DecRefs(bus, nRemoves.value, b, adds.next);
    var events := DecEvents(api, bus, nEvents.value, b, removes.next);
    Some(BusEventPkt(uid.value, adds.items, removes.items, events.items))
  }

  function DecAck(b: Buf, pos: nat): Option<Down>
    requires b.Valid()
  {
    var call := ReadU16(b, pos);
    if call.Fail? then None else
    var status := ReadU8(b, call.next);
    if status.Fail? then None else Some(AckPkt(call.value, StatusOf(status.value)))
  }

  /** The client's half of the switch in obus_packet_decoder_read: None is a packet that is
      dropped. Handles are looked up in the client's bus as it stands. */
  function DecPayload(api: Api, busEvents: set<u16>, bus: Objects, typ: byte, b: Buf, pos: nat): Option<Down>
    requires b.Valid()
  {
    if typ == 1 then DecConResp(api, b, pos)
    else if typ == 2 then (var r := DecItem(api, b, pos).item; if r.None? then None else Some(AddPkt(r.value)))
    else if typ == 3 then (var r := DecRef(bus, b, pos).item; if r.None? then None else Some(RemovePkt(r.value)))
    else if typ == 4 then DecBusEvent(api, busEvents, bus, b, pos)
    else if typ == 5 then (var r := DecEvent(api, bus, b, pos).item; if r.None? then None else Some(EventPkt(r.value)))
    else if typ == 7 then DecAck(b, pos)
    else None
  }

  // ---- whole payloads between two schemas ----

  /** What a client with schema api2 and this bus makes of a packet sent under api1: exactly what
      it knows of it; None is a packet it drops. */
  ghost function KnownDown(api1: Api, api2: Api, busEvents: set<u16>, bus: Objects, p: Down): Option<Down>
    requires FitsDown(api1, p)
  {
    match p
    case ConResp(accepted, snapshot) => Some(ConResp(accepted, KnownItems(api1, api2, snapshot)))
    case AddPkt(it) => (var k := KnownItem(api1, api2, it); if k.None? then None else Some(AddPkt(k.value)))
    case RemovePkt(r) => if r.handle != INVALID_HANDLE && r.handle in bus.at then Some(p) else None
    case EventPkt(e) => (var k := KnownEvent(api1, api2, bus, e); if k.None? then None else Some(EventPkt(k.value)))
    case BusEventPkt(uid, adds, removes, events) =>
      if uid == INVALID_UID || uid !in busEvents then None
      else Some(BusEventPkt(uid, KnownItems(api1, api2, adds), KnownRefs(bus, removes), KnownEvents(api1, api2, bus, events)))
    case AckPkt(_, _) => Some(p)
  }

  lemma BusEventHeadAt(b: Buf, pos: nat, uid: u16, adds: u32, removes: u32, events: u32, lists: seq<byte>)
    requires At(b, pos, U16(uid) + (U32(adds) + (U32(removes) + (U32(events) + lists))))
    ensures At(b, pos + 14, lists) && ReadU16(b, pos) == Got(uid, pos + 2) && ReadU32(b, pos + 2) == Got(adds, pos + 6)
    ensures ReadU32(b, pos + 6) == Got(removes, pos + 10) && ReadU32(b, pos + 10) == Got(events, pos + 14)
  {
    hide At, ReadU16, ReadU32;
    AtConcat(b, pos, U16(uid), U32(adds) + (U32(removes) + (U32(events) + lists)));
    ReadU16At(b, pos, uid);
    AtConcat(b, pos + 2, U32(adds), U32(removes) + (U32(events) + lists));
    ReadU32At(b, pos + 2, adds);
    AtConcat(b, pos + 6, U32(removes), U32(events) + lists);
    ReadU32At(b, pos + 6, removes);
    AtConcat(b, pos + 10, U32(events), lists);
    ReadU32At(b, pos + 10, events);
  }

  lemma BusEventListsAt(api1: Api, api2: Api, bus: Objects, p: Down, b: Buf, pos: nat)
    requires p.BusEventPkt? && FitsDown(api1, p)
    requires At(b, pos, EncItems(api1, p.adds) + (EncRefs(p.removes) + EncEvents(api1, p.events)))
    ensures var adds := DecItems(api2, |p.adds|, b, pos);
            var removes := DecRefs(bus, |p.removes|, b, adds.next);
            var events := DecEvents(api2, bus, |p.events|, b, removes.next);
            adds.items == KnownItems(api1, api2, p.adds) && removes.items == KnownRefs(bus, p.removes) &&
            events.items == KnownEvents(api1, api2, bus, p.events)
  {
    hide DecItems, DecRefs, DecEvents, EncItems, EncRefs, EncEvents, KnownItems, KnownRefs, KnownEvents, At, FitsInfo;
    var e1, e2, e3 := EncItems(api1, p.adds), EncRefs(p.removes), EncEvents(api1, p.events);
    AtConcat(b, pos, e1, e2 + e3);
    AtConcat(b, pos + |e1|, e2, e3);
    ItemsAt(api1, api2, p.adds, b, pos);
    RefsAt(bus, p.removes, b, pos + |e1|);
    EventsAt(api1, api2, bus, p.events, b, pos + |e1| + |e2|);
  }

  /** A bus event decodes, whatever follows it, to exactly the items, references and events the
      receiver knows, in order, and is dropped as a whole if it does not know the bus event. */
  lemma BusEventAt(api1: Api, api2: Api, busEvents: set<u16>, bus: Objects, p: Down, b: Buf, pos: nat)
    requires p.BusEventPkt? && FitsDown(api1, p) && At(b, pos, EncBusEvent(api1, p))
    ensures DecBusEvent(api2, busEvents, bus, b, pos) == KnownDown(api1, api2, busEvents, bus, p)
  {
    hide DecItems, DecRefs, DecEvents, EncItems, EncRefs, EncEvents, KnownItems, KnownRefs, KnownEvents,
         ReadU16, ReadU32, U16, U32, At, FitsInfo;
    var lists := EncItems(api1, p.adds) + (EncRefs(p.removes) + EncEvents(api1, p.events));
    BusEventHeadAt(b, pos, p.uid, |p.adds|, |p.removes|, |p.events|, lists);
    BusEventListsAt(api1, api2, bus, p, b, pos + 14);
  }

  /** A connection response decodes to exactly the objects of known type, in order. */
  lemma ConRespAt(api1: Api, api2: Api, accepted: bool, snapshot: seq<Item>, b: Buf, pos: nat)
    requires FitsItems(api1, snapshot)
    requires At(b, pos, [ConStatus(accepted)] + (U32(|snapshot|) + EncItems(api1, snapshot)))
    ensures DecConResp(api2, b, pos) == Some(ConResp(accepted, KnownItems(api1, api2, snapshot)))
  {
    hide DecItems, EncItems, KnownItems, FitsInfo, At, ReadU8, ReadU32;
    var list := EncItems(api1, snapshot);
    AtConcat(b, pos, [ConStatus(accepted)], U32(|snapshot|) + list);
    ReadU8At(b, pos, ConStatus(accepted));
    AtConcat(b, pos + 1, U32(|snapshot|), list);
    ReadU32At(b, pos + 1, |snapshot|);
    ItemsAt(api1, api2, snapshot, b, pos + 5);
  }

  lemma AckAt(call: Handle, status: Status, b: Buf, pos: nat)
    requires At(b, pos, U16(call) + [StatusCode(status)])
    ensures DecAck(b, pos) == Some(AckPkt(call, status))
  {
    AtConcat(b, pos, U16(call), [StatusCode(status)]);
    ReadU16At(b, pos, call);
    ReadU8At(b, pos + 2, StatusCode(status));
  }

  /** Every packet, whatever follows it and whatever the two schemas share: the client makes of
      it exactly what it knows. */
  lemma PayloadAt(api1: Api, api2: Api, busEvents: set<u16>, bus: Objects, p: Down, b: Buf, pos: nat)
    requires FitsDown(api1, p) && At(b, pos, EncPayload(api1, p))
    ensures DecPayload(api2, busEvents, bus, PacketType(p), b, pos) == KnownDown(api1, api2, busEvents, bus, p)
  {
    hide DecItem, DecRef, DecEvent, DecBusEvent, DecConResp, DecAck, EncItem, EncEvent, EncBusEvent, EncItems,
         KnownItem, KnownItems, KnownRefs, KnownEvent, KnownEvents, At, U16, U32;
    match p
    case ConResp(accepted, snapshot) => ConRespAt(api1, api2, accepted, snapshot, b, pos);
    case AddPkt(it) => ItemAt(api1, api2, it, b, pos);
    case RemovePkt(r) => RefAt(bus, r, b, pos);
    case EventPkt(e) => EventAt(api1, api2, bus, e, b, pos);
    case BusEventPkt(_, _, _, _) => BusEventAt(api1, api2, busEvents, bus, p, b, pos);
    case AckPkt(call, status) => AckAt(call, status, b, pos);
  }

  /** A packet with its structs as the wire preserves them. */
  function WireItem(it: Item): Item { it.(info := WireStruct(it.info)) }
  function WireEvent(e: Event): Event { e.(info := WireStruct(e.info)) }

  function WireItems(items: seq<Item>): seq<Item> {
    if items == [] then [] else [WireItem(items[0])] + WireItems(items[1..])
  }

  function WireEvents(es: seq<Event>): seq<Event> {
    if es == [] then [] else [WireEvent(es[0])] + WireEvents(es[1..])
  }

  function WireDown(p: Down): Down {
    match p
    case ConResp(a, snapshot) => ConResp(a, WireItems(snapshot))
    case AddPkt(it) => AddPkt(WireItem(it))
    case EventPkt(e) => EventPkt(WireEvent(e))
    case BusEventPkt(uid, adds, removes, events) => BusEventPkt(uid, WireItems(adds), removes, WireEvents(events))
    case _ => p
  }

  // ---- the same schema on both sides ----

  lemma {:induction false} AllItemsKnown(api: Api, bus: Objects, items: seq<Item>)
    requires FitsItems(api, items) && FreshItems(bus, items)
    ensures KnownItems(api, api, items) == WireItems(items)
    decreases |items|
  {
    if items != [] {
      CommonWithSelf(api.objects[items[0].uid], items[0].info);
      AllItemsKnown(api, bus, items[1..]);
    }
  }

  lemma {:induction false} AllRefsKnown(bus: Objects, refs: seq<Ref>)
    requires HeldRefs(bus, refs) && INVALID_HANDLE !in bus.at
    ensures KnownRefs(bus, refs) == refs
    decreases |refs|
  {
    if refs != [] {
      AllRefsKnown(bus, refs[1..]);
    }
  }

  ghost predicate EventsDeclared(api: Api, es: seq<Event>) {
    forall i :: 0 <= i < |es| ==> EventDeclared(api, es[i])
  }

  ghost predicate EventDeclared(api: Api, e: Event) {
    e.event != INVALID_UID && e.uid != INVALID_UID && e.uid in api.events && e.event in api.events[e.uid]
  }

  lemma {:induction false} AllEventsKnown(api: Api, bus: Objects, es: seq<Event>)
    requires FitsEvents(api, es) && HeldEvents(bus, es) && INVALID_HANDLE !in bus.at && EventsDeclared(api, es)
    ensures KnownEvents(api, api, bus, es) == WireEvents(es)
    decreases |es|
  {
    if es != [] {
      assert EventDeclared(api, es[0]);
      CommonWithSelf(api.objects[es[0].uid], es[0].info);
      AllEventsKnown(api, bus, es[1..]);
    }
  }

  /** The schema declares what the packet announces. */
  ghost predicate Declared(api: Api, busEvents: set<u16>, p: Down) {
    match p
    case EventPkt(e) => EventDeclared(api, e)
    case BusEventPkt(uid, _, _, events) => uid != INVALID_UID && uid in busEvents && EventsDeclared(api, events)
    case _ => true
  }

  /** Under one schema, a client to which a packet is applicable knows all of it. */
  lemma AllKnown(api: Api, busEvents: set<u16>, v: View, p: Down)
    requires FitsDown(api, p) && Declared(api, busEvents, p) && Applicable(v, p) && INVALID_HANDLE !in v.bus.at
    ensures KnownDown(api, api, busEvents, v.bus, p) == Some(WireDown(p))
  {
    hide FitsStruct, DescOk, EncStruct, KnownItems, KnownRefs, KnownEvents, WireItems, WireEvents;
    match p
    case ConResp(accepted, snapshot) => AllItemsKnown(api, v.bus, snapshot);
    case AddPkt(it) => CommonWithSelf(api.objects[it.uid], it.info);
    case EventPkt(e) => CommonWithSelf(api.objects[e.uid], e.info);
    case BusEventPkt(_, adds, removes, events) =>
      AllItemsKnown(api, v.bus, adds);
      AllRefsKnown(v.bus, removes);
      AllEventsKnown(api, v.bus, events);
    case _ =>
  }

  /** So every packet a server may send decodes, at a client to which it is applicable, to the
      packet that was sent. */
  lemma PayloadRoundTrip(api: Api, busEvents: set<u16>, v: View, p: Down, b: Buf, pos: nat)
    requires FitsDown(api, p) && Declared(api, busEvents, p)
    requires Applicable(v, p) && INVALID_HANDLE !in v.bus.at && At(b, pos, EncPayload(api, p))
    ensures DecPayload(api, busEvents, v.bus, PacketType(p), b, pos) == Some(WireDown(p))
  {
    hide DecPayload, EncPayload, KnownDown, Applicable, Declared;
    PayloadAt(api, api, busEvents, v.bus, p, b, pos);
    AllKnown(api, busEvents, v, p);
  }

  // ---- what was sent and what was decoded act alike ----

  lemma WireTwice(s: Struct)
    ensures WireStruct(WireStruct(s)) == WireStruct(s)
  {
    forall f | f in s
      ensures WireValue(WireValue(s[f])) == WireValue(s[f])
    {
    }
  }

  lemma {:induction false} WireItemsActAlike(b: Objects, items: seq<Item>)
    ensures AddAll(b, WireItems(items)) == AddAll(b, items)
    decreases |items|
  {
    if items != [] {
      WireTwice(items[0].info);
      WireItemsActAlike(Add(b, items[0]), items[1..]);
    }
  }

  lemma {:induction false} WireEventsActAlike(b: Objects, es: seq<Event>)
    ensures UpdateAll(b, WireEvents(es)) == UpdateAll(b, es)
    decreases |es|
  {
    if es != [] {
      WireTwice(es[0].info);
      WireEventsActAlike(Update(b, es[0]), es[1..]);
    }
  }

  lemma {:induction false} WireEventsResolveAlike(b: Objects, es: seq<Event>)
    ensures ResolveEvents(b, WireEvents(es)) == WireEvents(ResolveEvents(b, es))
    decreases |es|
  {
    if es != [] {
      WireEventsResolveAlike(b, es[1..]);
      var rest := ResolveEvents(b, es[1..]);
      assert WireEvents(es)[1..] == WireEvents(es[1..]);
      assert ([es[0]] + rest)[1..] == rest && [] + rest == rest;
    }
  }

  /** So replaying decoded packets is replaying sent ones. */
  lemma WireActsAlike(v: View, p: Down)
    ensures Apply(v, WireDown(p)) == Apply(v, p)
  {
    match p
    case ConResp(_, snapshot) => WireItemsActAlike(v.bus, snapshot);
    case AddPkt(it) => WireTwice(it.info);
    case EventPkt(e) => WireTwice(e.info);
    case BusEventPkt(_, adds, removes, events) =>
      WireItemsActAlike(v.bus, adds);
      WireEventsResolveAlike(v.bus, events);
      WireEventsActAlike(AddAll(v.bus, adds), ResolveEvents(v.bus, events));
    case _ =>
  }
}
