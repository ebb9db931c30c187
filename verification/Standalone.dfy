/** Payloads and what stands behind them. Payload decoding is bounded by the buffer's length, not by
    the size in the packet's header: when it makes no difference, and when it does. */
module Standalone {
  import opened Values
  import opened Bytes
  import opened Codec
  import opened Bus
  import opened Packets
  import opened Framing
  import opened Bounds

  /** A buffer that begins with f, whatever stands behind. */
  ghost predicate Starts(b: Buf, f: seq<byte>) { b.Valid() && |f| <= b.len && b.mem[..|f|] == f }

  // ---- decoding that stays inside f: every read it makes succeeds ----

  predicate InSkipScalar(code: nat, f: seq<byte>, pos: nat) {
    match BaseOf(code)
    case None => true
    case Some(StringType) => (var n := ReadU32(Exact(f), pos); n.Got? && n.next + n.value <= |f|)
    case Some(t) => pos + Width(t) <= |f|
  }

  predicate InSkipScalars(code: nat, n: nat, f: seq<byte>, pos: nat)
    decreases n
  {
    n == 0 || (InSkipScalar(code, f, pos) && InSkipScalars(code, n - 1, f, SkipScalar(code, Exact(f), pos)))
  }

  predicate InSkip(typ: byte, f: seq<byte>, pos: nat) {
    if typ >= 0x80 then
      var n := ReadU32(Exact(f), pos);
      n.Got? && InSkipScalars(typ % 0x80, n.value, f, n.next)
    else InSkipScalar(typ % 0x80, f, pos)
  }

  predicate InField(desc: Desc, f: seq<byte>, pos: nat) {
    var uid := ReadU16(Exact(f), pos);
    uid.Got? &&
    var typ := ReadU8(Exact(f), uid.next);
    typ.Got? &&
    var d := Find(desc, uid.value);
    if d.None? || TypeByte(d.value) != typ.value then InSkip(typ.value, f, typ.next)
    else DecValue(d.value, Exact(f), typ.next).Got?
  }

  predicate InFields(desc: Desc, n: nat, f: seq<byte>, pos: nat)
    decreases n
  {
    n == 0 || (InField(desc, f, pos) && InFields(desc, n - 1, f, DecField(desc, Exact(f), pos).next))
  }

  predicate InStruct(desc: Desc, f: seq<byte>, pos: nat) {
    var n := ReadU16(Exact(f), pos);
    n.Got? && InFields(desc, n.value, f, n.next)
  }

  predicate InSized(desc: Option<Desc>, f: seq<byte>, size: u32, pos: nat) {
    pos + size <= |f| && (desc.Some? ==> InStruct(desc.value, f, pos))
  }

  predicate InItem(api: Api, f: seq<byte>, pos: nat) {
    var uid := ReadU16(Exact(f), pos);
    uid.Got? &&
    var handle := ReadU16(Exact(f), uid.next);
    handle.Got? &&
    var size := ReadU32(Exact(f), handle.next);
    size.Got? && InSized(DescFor(api, uid.value, handle.value), f, size.value, size.next)
  }

  predicate InRef(f: seq<byte>, pos: nat) { pos + 4 <= |f| }

  predicate InEvent(api: Api, bus: Objects, f: seq<byte>, pos: nat) {
    var uid := ReadU16(Exact(f), pos);
    uid.Got? &&
    var handle := ReadU16(Exact(f), uid.next);
    handle.Got? &&
    var event := ReadU16(Exact(f), handle.next);
    event.Got? &&
    var size := ReadU32(Exact(f), event.next);
    size.Got? && InSized(DescForEvent(api, bus, uid.value, handle.value, event.value), f, size.value, size.next)
  }

  predicate InItems(api: Api, n: nat, f: seq<byte>, pos: nat)
    decreases n
  {
    n == 0 || (InItem(api, f, pos) && InItems(api, n - 1, f, DecItem(api, Exact(f), pos).next))
  }

  predicate InRefs(bus: Objects, n: nat, f: seq<byte>, pos: nat)
    decreases n
  {
    n == 0 || (InRef(f, pos) && InRefs(bus, n - 1, f, DecRef(bus, Exact(f), pos).next))
  }

  predicate InEvents(api: Api, bus: Objects, n: nat, f: seq<byte>, pos: nat)
    decreases n
  {
    n == 0 || (InEvent(api, bus, f, pos) && InEvents(api, bus, n - 1, f, DecEvent(api, bus, Exact(f), pos).next))
  }

  predicate InConResp(api: Api, f: seq<byte>, pos: nat) {
    var status := ReadU8(Exact(f), pos);
    status.Got? && (status.value > 2 ||
      var n := ReadU32(Exact(f), status.next);
      n.Got? && InItems(api, n.value, f, n.next))
  }

  predicate InBusEvent(api: Api, busEvents: set<u16>, bus: Objects, f: seq<byte>, pos: nat) {
    var uid, nAdds, nRemoves, nEvents :=
      ReadU16(Exact(f), pos), ReadU32(Exact(f), pos + 2), ReadU32(Exact(f), pos + 6), ReadU32(Exact(f), pos + 10);
    uid.Got? && nAdds.Got? && nRemoves.Got? && nEvents.Got? &&
    (uid.value == INVALID_UID || uid.value !in busEvents ||
      var adds := DecItems(api, nAdds.value, Exact(f), nEvents.next);
      var removes := DecRefs(bus, nRemoves.value, Exact(f), adds.next);
      InItems(api, nAdds.value, f, nEvents.next) && InRefs(bus, nRemoves.value, f, adds.next) &&
      InEvents(api, bus, nEvents.value, f, removes.next))
  }

  /** Every read that decoding the payload of f makes succeeds inside f. */
  predicate InPayload(api: Api, busEvents: set<u16>, bus: Objects, typ: byte, f: seq<byte>, pos: nat) {
    if typ == 1 then InConResp(api, f, pos)
    else if typ == 2 then InItem(api, f, pos)
    else if typ == 3 then InRef(f, pos)
    else if typ == 4 then InBusEvent(api, busEvents, bus, f, pos)
    else if typ == 5 then InEvent(api, bus, f, pos)
    else if typ == 7 then pos + 3 <= |f|
    else true
  }

  // ---- then what stands behind makes no difference ----

  lemma ReadsStand(b: Buf, f: seq<byte>, pos: nat)
    requires Starts(b, f)
    ensures ReadU8(Exact(f), pos).Got? ==> ReadU8(b, pos) == ReadU8(Exact(f), pos)
    ensures ReadU16(Exact(f), pos).Got? ==> ReadU16(b, pos) == ReadU16(Exact(f), pos)
    ensures ReadU32(Exact(f), pos).Got? ==> ReadU32(b, pos) == ReadU32(Exact(f), pos)
  {
    assert forall i :: 0 <= i < |f| ==> b.mem[i] == b.mem[..|f|][i];
  }

  lemma WideReadStands(b: Buf, f: seq<byte>, pos: nat)
    requires Starts(b, f) && ReadU64(Exact(f), pos).Got?
    ensures ReadU64(b, pos) == ReadU64(Exact(f), pos)
  {
    hide FromU32;
    assert forall i :: 0 <= i < |f| ==> b.mem[i] == b.mem[..|f|][i];
  }

  lemma StartsValid(b: Buf, f: seq<byte>)
    requires Starts(b, f)
    ensures b.Valid() && |f| <= b.len
  {
  }

  lemma StringStands(b: Buf, f: seq<byte>, pos: nat)
    requires Starts(b, f) && DecString(Exact(f), pos).Got?
    ensures DecString(b, pos) == DecString(Exact(f), pos)
  {
    hide ReadU32, UntilNul;
    ReadsStand(b, f, pos);
    var n := ReadU32(b, pos);
    if n.value > 0 {
      SliceOfPrefix(b.mem, |f|, n.next, n.next + n.value - 1);
    }
  }

  lemma ScalarStands(t: Base, b: Buf, f: seq<byte>, pos: nat)
    requires Starts(b, f) && DecScalar(t, Exact(f), pos).Got?
    ensures DecScalar(t, b, pos) == DecScalar(t, Exact(f), pos)
  {
    hide DecString, ReadU8, ReadU16, ReadU32, ReadU64, Starts;
    StartsValid(b, f);
    ReadsStand(b, f, pos);
    if t == StringType {
      StringStands(b, f, pos);
    } else if Width(t) == 8 {
      WideReadStands(b, f, pos);
    }
  }

  lemma {:induction false} ScalarsStand(t: Base, n: nat, b: Buf, f: seq<byte>, pos: nat)
    requires Starts(b, f) && DecScalars(t, n, Exact(f), pos).Got?
    ensures DecScalars(t, n, b, pos) == DecScalars(t, n, Exact(f), pos)
    decreases n
  {
    hide DecScalar, Starts;
    StartsValid(b, f);
    if n > 0 {
      ScalarStands(t, b, f, pos);
      ScalarsStand(t, n - 1, b, f, DecScalar(t, Exact(f), pos).next);
    }
  }

  lemma ValueStands(d: FieldDesc, b: Buf, f: seq<byte>, pos: nat)
    requires Starts(b, f) && DecValue(d, Exact(f), pos).Got?
    ensures DecValue(d, b, pos) == DecValue(d, Exact(f), pos)
  {
    hide DecScalar, DecScalars, ReadU32, Starts;
    StartsValid(b, f);
    ReadsStand(b, f, pos);
    if d.isArray {
      var n := ReadU32(Exact(f), pos);
      ScalarsStand(d.base, n.value, b, f, n.next);
    } else {
      ScalarStands(d.base, b, f, pos);
    }
  }

  lemma SkipScalarStands(code: nat, b: Buf, f: seq<byte>, pos: nat)
    requires Starts(b, f) && InSkipScalar(code, f, pos)
    ensures SkipScalar(code, b, pos) == SkipScalar(code, Exact(f), pos)
  {
    hide ReadU32, BaseOf;
    ReadsStand(b, f, pos);
  }

  lemma {:induction false} SkipScalarsStand(code: nat, n: nat, b: Buf, f: seq<byte>, pos: nat)
    requires Starts(b, f) && InSkipScalars(code, n, f, pos)
    ensures SkipScalars(code, n, b, pos) == SkipScalars(code, n, Exact(f), pos)
    decreases n
  {
    hide SkipScalar, InSkipScalar, Starts;
    StartsValid(b, f);
    if n > 0 {
      SkipScalarStands(code, b, f, pos);
      SkipScalarsStand(code, n - 1, b, f, SkipScalar(code, Exact(f), pos));
    }
  }

  lemma SkipStands(typ: byte, b: Buf, f: seq<byte>, pos: nat)
    requires Starts(b, f) && InSkip(typ, f, pos)
    ensures SkipValue(typ, b, pos) == SkipValue(typ, Exact(f), pos)
  {
    hide SkipScalar, SkipScalars, InSkipScalar, InSkipScalars, ReadU32, Starts;
    StartsValid(b, f);
    ReadsStand(b, f, pos);
    if typ >= 0x80 {
      var n := ReadU32(Exact(f), pos);
      SkipScalarsStand(typ % 0x80, n.value, b, f, n.next);
    } else {
      SkipScalarStands(typ % 0x80, b, f, pos);
    }
  }

  lemma FieldStands(desc: Desc, b: Buf, f: seq<byte>, pos: nat)
    requires Starts(b, f) && InField(desc, f, pos)
    ensures DecField(desc, b, pos) == DecField(desc, Exact(f), pos)
  {
    hide ReadU8, ReadU16, DecValue, SkipValue, InSkip, Starts, Find, TypeByte;
    StartsValid(b, f);
    ReadsStand(b, f, pos);
    var uid := ReadU16(Exact(f), pos);
    ReadsStand(b, f, uid.next);
    var typ := ReadU8(Exact(f), uid.next);
    var d := Find(desc, uid.value);
    if d.None? || TypeByte(d.value) != typ.value {
      SkipStands(typ.value, b, f, typ.next);
    } else {
      ValueStands(d.value, b, f, typ.next);
    }
  }

  lemma {:induction false} FieldsStand(desc: Desc, n: nat, b: Buf, f: seq<byte>, pos: nat, acc: Struct)
    requires Starts(b, f) && InFields(desc, n, f, pos)
    ensures DecFields(desc, n, b, pos, acc) == DecFields(desc, n, Exact(f), pos, acc)
    decreases n
  {
    hide DecField, InField, Starts;
    StartsValid(b, f);
    if n > 0 {
      FieldStands(desc, b, f, pos);
      var g := DecField(desc, Exact(f), pos);
      FieldsStand(desc, n - 1, b, f, g.next, Put(acc, g.field));
    }
  }

  lemma StructStands(desc: Desc, b: Buf, f: seq<byte>, pos: nat)
    requires Starts(b, f) && InStruct(desc, f, pos)
    ensures DecStruct(desc, b, pos) == DecStruct(desc, Exact(f), pos)
  {
    hide DecFields, InFields, ReadU16, Starts;
    StartsValid(b, f);
    ReadsStand(b, f, pos);
    var n := ReadU16(Exact(f), pos);
    FieldsStand(desc, n.value, b, f, n.next, map[]);
  }

  lemma SizedStands(desc: Option<Desc>, b: Buf, f: seq<byte>, size: u32, pos: nat)
    requires Starts(b, f) && InSized(desc, f, size, pos)
    ensures DecSized(desc, b, size, pos) == DecSized(desc, Exact(f), size, pos)
  {
    hide DecStruct, InStruct, Starts;
    StartsValid(b, f);
    if desc.Some? {
      StructStands(desc.value, b, f, pos);
    }
  }

  lemma ItemStands(api: Api, b: Buf, f: seq<byte>, pos: nat)
    requires Starts(b, f) && InItem(api, f, pos)
    ensures DecItem(api, b, pos) == DecItem(api, Exact(f), pos)
  {
    hide DecSized, InSized, ReadU16, ReadU32, Starts, DescFor;
    StartsValid(b, f);
    ReadsStand(b, f, pos);
    var uid := ReadU16(Exact(f), pos);
    ReadsStand(b, f, uid.next);
    var handle := ReadU16(Exact(f), uid.next);
    ReadsStand(b, f, handle.next);
    var size := ReadU32(Exact(f), handle.next);
    SizedStands(DescFor(api, uid.value, handle.value), b, f, size.value, size.next);
  }

  lemma RefStands(bus: Objects, b: Buf, f: seq<byte>, pos: nat)
    requires Starts(b, f) && InRef(f, pos)
    ensures DecRef(bus, b, pos) == DecRef(bus, Exact(f), pos)
  {
    ReadsStand(b, f, pos);
    ReadsStand(b, f, pos + 2);
  }

  lemma EventStands(api: Api, bus: Objects, b: Buf, f: seq<byte>, pos: nat)
    requires Starts(b, f) && InEvent(api, bus, f, pos)
    ensures DecEvent(api, bus, b, pos) == DecEvent(api, bus, Exact(f), pos)
  {
    hide DecSized, InSized, ReadU16, ReadU32, Starts, DescForEvent;
    StartsValid(b, f);
    ReadsStand(b, f, pos);
    var uid := ReadU16(Exact(f), pos);
    ReadsStand(b, f, uid.next);
    var handle := ReadU16(Exact(f), uid.next);
    ReadsStand(b, f, handle.next);
    var event := ReadU16(Exact(f), handle.next);
    ReadsStand(b, f, event.next);
    var size := ReadU32(Exact(f), event.next);
    SizedStands(DescForEvent(api, bus, uid.value, handle.value, event.value), b, f, size.value, size.next);
  }

  lemma {:induction false} ItemsStand(api: Api, n: nat, b: Buf, f: seq<byte>, pos: nat)
    requires Starts(b, f) && InItems(api, n, f, pos)
    ensures DecItems(api, n, b, pos) == DecItems(api, n, Exact(f), pos)
    decreases n
  {
    hide DecItem, InItem, Starts;
    StartsValid(b, f);
    if n > 0 {
      ItemStands(api, b, f, pos);
      ItemsStand(api, n - 1, b, f, DecItem(api, Exact(f), pos).next);
    }
  }

  lemma {:induction false} RefsStand(bus: Objects, n: nat, b: Buf, f: seq<byte>, pos: nat)
    requires Starts(b, f) && InRefs(bus, n, f, pos)
    ensures DecRefs(bus, n, b, pos) == DecRefs(bus, n, Exact(f), pos)
    decreases n
  {
    hide DecRef, InRef, Starts;
    StartsValid(b, f);
    if n > 0 {
      RefStands(bus, b, f, pos);
      RefsStand(bus, n - 1, b, f, DecRef(bus, Exact(f), pos).next);
    }
  }

  lemma {:induction false} EventsStand(api: Api, bus: Objects, n: nat, b: Buf, f: seq<byte>, pos: nat)
    requires Starts(b, f) && InEvents(api, bus, n, f, pos)
    ensures DecEvents(api, bus, n, b, pos) == DecEvents(api, bus, n, Exact(f), pos)
    decreases n
  {
    hide DecEvent, InEvent, Starts;
    StartsValid(b, f);
    if n > 0 {
      EventStands(api, bus, b, f, pos);
      EventsStand(api, bus, n - 1, b, f, DecEvent(api, bus, Exact(f), pos).next);
    }
  }

  lemma ConRespStands(api: Api, b: Buf, f: seq<byte>, pos: nat)
    requires Starts(b, f) && InConResp(api, f, pos)
    ensures DecConResp(api, b, pos) == DecConResp(api, Exact(f), pos)
  {
    hide DecItems, InItems, ReadU8, ReadU32, Starts;
    StartsValid(b, f);
    ReadsStand(b, f, pos);
    var status := ReadU8(Exact(f), pos);
    if status.value <= 2 {
      ReadsStand(b, f, status.next);
      var n := ReadU32(Exact(f), status.next);
      ItemsStand(api, n.value, b, f, n.next);
    }
  }

  lemma BusEventStands(api: Api, busEvents: set<u16>, bus: Objects, b: Buf, f: seq<byte>, pos: nat)
    requires Starts(b, f) && InBusEvent(api, busEvents, bus, f, pos)
    ensures DecBusEvent(api, busEvents, bus, b, pos) == DecBusEvent(api, busEvents, bus, Exact(f), pos)
  {
    hide DecItems, DecRefs, DecEvents, InItems, InRefs, InEvents, ReadU16, ReadU32, Starts;
    StartsValid(b, f);
    ReadsStand(b, f, pos);
    ReadsStand(b, f, pos + 2);
    ReadsStand(b, f, pos + 6);
    ReadsStand(b, f, pos + 10);
    ReadAdvances(Exact(f), pos);
    ReadAdvances(Exact(f), pos + 2);
    ReadAdvances(Exact(f), pos + 6);
    var uid, nAdds, nRemoves, nEvents :=
      ReadU16(Exact(f), pos), ReadU32(Exact(f), pos + 2), ReadU32(Exact(f), pos + 6), ReadU32(Exact(f), pos + 10);
    if uid.value != INVALID_UID && uid.value in busEvents {
      var adds := DecItems(api, nAdds.value, Exact(f), nEvents.next);
      var removes := DecRefs(bus, nRemoves.value, Exact(f), adds.next);
      ItemsStand(api, nAdds.value, b, f, nEvents.next);
      RefsStand(bus, nRemoves.value, b, f, adds.next);
      EventsStand(api, bus, nEvents.value, b, f, removes.next);
    }
  }

  lemma AckStands(b: Buf, f: seq<byte>, pos: nat)
    requires Starts(b, f) && pos + 3 <= |f|
    ensures DecAck(b, pos) == DecAck(Exact(f), pos)
  {
    ReadsStand(b, f, pos);
    ReadsStand(b, f, pos + 2);
  }

  /** A received packet whose payload decodes inside the packet is decoded the same whatever stands
      behind it, for every packet type, schema and bus. */
  lemma InsideStands(api: Api, busEvents: set<u16>, bus: Objects, typ: byte, b: Buf, f: seq<byte>, pos: nat)
    requires Starts(b, f) && InPayload(api, busEvents, bus, typ, f, pos)
    ensures b.Valid() && DecPayload(api, busEvents, bus, typ, b, pos) == DecPayload(api, busEvents, bus, typ, Exact(f), pos)
  {
    hide DecConResp, DecItem, DecRef, DecBusEvent, DecEvent, DecAck, InConResp, InItem, InRef, InBusEvent, InEvent, Starts;
    StartsValid(b, f);
    if typ == 1 {
      ConRespStands(api, b, f, pos);
    } else if typ == 2 {
      ItemStands(api, b, f, pos);
    } else if typ == 3 {
      RefStands(bus, b, f, pos);
    } else if typ == 4 {
      BusEventStands(api, busEvents, bus, b, f, pos);
    } else if typ == 5 {
      EventStands(api, bus, b, f, pos);
    } else if typ == 7 {
      AckStands(b, f, pos);
    }
  }

  // ---- exactly when, for ACK and REMOVE ----

  lemma AckReads(f: seq<byte>, g: seq<byte>)
    requires |f| >= HEADER_SIZE
    ensures |f + g| < HEADER_SIZE + 3 ==> DecAck(Exact(f + g), HEADER_SIZE) == None
    ensures |f + g| >= HEADER_SIZE + 3 ==> DecAck(Exact(f + g), HEADER_SIZE).Some?
  {
  }

  lemma ExactStarts(f: seq<byte>, g: seq<byte>)
    ensures Starts(Exact(f + g), f)
  {
  }

  /** An acknowledgement: what follows makes no difference if and only if the packet holds a call
      handle and a status. */
  lemma ShortAckTakesWhatFollows(f: seq<byte>)
    requires |f| >= HEADER_SIZE
    ensures (forall g: seq<byte> :: DecAck(Exact(f + g), HEADER_SIZE) == DecAck(Exact(f), HEADER_SIZE))
       <==> |f| >= HEADER_SIZE + 3
  {
    hide DecAck;
    assert f + [] == f;
    AckReads(f, []);
    if |f| >= HEADER_SIZE + 3 {
      forall g: seq<byte>
        ensures DecAck(Exact(f + g), HEADER_SIZE) == DecAck(Exact(f), HEADER_SIZE)
      {
        ExactStarts(f, g);
        AckStands(Exact(f + g), f, HEADER_SIZE);
      }
    } else {
      var g: seq<byte> := [0, 0, 0];
      AckReads(f, g);
      assert DecAck(Exact(f + g), HEADER_SIZE) != DecAck(Exact(f), HEADER_SIZE);
    }
  }

  /** The handle can stand in a REMOVE that begins with f. */
  predicate Completes(f: seq<byte>, h: Handle) { |f| == HEADER_SIZE + 3 ==> h / 0x100 == f[HEADER_SIZE + 2] }

  lemma RefReads(bus: Objects, f: seq<byte>)
    ensures |f| < HEADER_SIZE + 4 ==> DecRef(bus, Exact(f), HEADER_SIZE).item == None
    ensures |f| >= HEADER_SIZE + 4 ==>
              (DecRef(bus, Exact(f), HEADER_SIZE).item.Some? <==>
               FromU16(f[11], f[12]) != INVALID_HANDLE && FromU16(f[11], f[12]) in bus.at)
  {
  }

  /** A REMOVE: what follows makes no difference if and only if the packet holds a type and a handle,
      or no held handle can be completed from it. */
  lemma ShortRemoveTakesWhatFollows(bus: Objects, f: seq<byte>)
    requires |f| >= HEADER_SIZE
    ensures (forall g: seq<byte> :: DecRef(bus, Exact(f + g), HEADER_SIZE).item == DecRef(bus, Exact(f), HEADER_SIZE).item)
       <==> |f| >= HEADER_SIZE + 4 || forall h :: h in bus.at && h != INVALID_HANDLE ==> !Completes(f, h)
  {
    hide DecRef;
    RefReads(bus, f);
    if |f| >= HEADER_SIZE + 4 {
      forall g: seq<byte>
        ensures DecRef(bus, Exact(f + g), HEADER_SIZE).item == DecRef(bus, Exact(f), HEADER_SIZE).item
      {
        ExactStarts(f, g);
        RefStands(bus, Exact(f + g), f, HEADER_SIZE);
      }
    } else if h :| h in bus.at && h != INVALID_HANDLE && Completes(f, h) {
      Completed(bus, f, h);
    } else {
      forall g: seq<byte>
        ensures DecRef(bus, Exact(f + g), HEADER_SIZE).item == DecRef(bus, Exact(f), HEADER_SIZE).item
      {
        RefReads(bus, f + g);
        if |f + g| >= HEADER_SIZE + 4 {
          NotCompleted(bus, f, g);
        }
      }
    }
  }

  lemma Completed(bus: Objects, f: seq<byte>, h: Handle)
    requires HEADER_SIZE <= |f| < HEADER_SIZE + 4 && h in bus.at && h != INVALID_HANDLE && Completes(f, h)
    ensures exists g: seq<byte> :: DecRef(bus, Exact(f + g), HEADER_SIZE).item != DecRef(bus, Exact(f), HEADER_SIZE).item
  {
    hide DecRef;
    var whole: seq<byte> := [0, 0, h / 0x100, h % 0x100];
    var g := whole[|f| - HEADER_SIZE..];
    assert |f + g| == HEADER_SIZE + 4;
    assert FromU16((f + g)[11], (f + g)[12]) == h;
    RefReads(bus, f);
    RefReads(bus, f + g);
  }

  lemma NotCompleted(bus: Objects, f: seq<byte>, g: seq<byte>)
    requires HEADER_SIZE <= |f| < HEADER_SIZE + 4 && |f + g| >= HEADER_SIZE + 4
    requires forall h :: h in bus.at && h != INVALID_HANDLE ==> !Completes(f, h)
    ensures var h := FromU16((f + g)[11], (f + g)[12]); h == INVALID_HANDLE || h !in bus.at
  {
    var h := FromU16((f + g)[11], (f + g)[12]);
    assert h / 0x100 == (f + g)[11];
  }

  // ---- packets that are completed with what follows ----

  lemma PayloadAtNine(hdr: seq<byte>, bytes: seq<byte>)
    requires |hdr| == HEADER_SIZE
    ensures At(Exact(hdr + bytes), HEADER_SIZE, bytes)
  {
  }

  /** An ADD of a known type whose struct is missing takes it from behind. */
  lemma ShortAddTakesWhatFollows(api: Api, hdr: seq<byte>, uid: u16, handle: Handle)
    requires |hdr| == HEADER_SIZE && DescFor(api, uid, handle).Some?
    ensures DecItem(api, Exact(hdr + (U16(uid) + (U16(handle) + (U32(2) + [])))), HEADER_SIZE).item == None
    ensures DecItem(api, Exact(hdr + (U16(uid) + (U16(handle) + (U32(2) + U16(0))))), HEADER_SIZE).item
         == Some(Item(handle, uid, map[]))
  {
    hide DescFor, DecItem, ReadU16, ReadU32;
    var f, g := hdr + (U16(uid) + (U16(handle) + (U32(2) + []))), hdr + (U16(uid) + (U16(handle) + (U32(2) + U16(0))));
    ItemHead(hdr, uid, handle, []);
    ItemHead(hdr, uid, handle, U16(0));
    EndOfBuffer(f);
    ReadU16At(Exact(g), 17, 0);
    EmptyItem(api, Exact(f), uid, handle);
    EmptyItem(api, Exact(g), uid, handle);
  }

  lemma EndOfBuffer(f: seq<byte>)
    ensures ReadU16(Exact(f), |f|).Fail? && ReadU32(Exact(f), |f|).Fail?
  {
  }

  lemma EmptyItem(api: Api, b: Buf, uid: u16, handle: Handle)
    requires b.Valid() && DescFor(api, uid, handle).Some?
    requires ReadU16(b, 9) == Got(uid, 11) && ReadU16(b, 11) == Got(handle, 13) && ReadU32(b, 13) == Got(2, 17)
    ensures ReadU16(b, 17).Fail? ==> DecItem(api, b, 9).item == None
    ensures ReadU16(b, 17) == Got(0, 19) ==> DecItem(api, b, 9).item == Some(Item(handle, uid, map[]))
  {
    hide ReadU16, ReadU32, DescFor;
  }

  lemma ItemHead(hdr: seq<byte>, uid: u16, handle: Handle, rest: seq<byte>)
    requires |hdr| == HEADER_SIZE
    ensures var b := Exact(hdr + (U16(uid) + (U16(handle) + (U32(2) + rest))));
            ReadU16(b, 9) == Got(uid, 11) && ReadU16(b, 11) == Got(handle, 13) && ReadU32(b, 13) == Got(2, 17) && At(b, 17, rest)
  {
    hide ReadU16, ReadU32, At;
    var b := Exact(hdr + (U16(uid) + (U16(handle) + (U32(2) + rest))));
    PayloadAtNine(hdr, U16(uid) + (U16(handle) + (U32(2) + rest)));
    AtConcat(b, 9, U16(uid), U16(handle) + (U32(2) + rest));
    ReadU16At(b, 9, uid);
    AtConcat(b, 11, U16(handle), U32(2) + rest);
    ReadU16At(b, 11, handle);
    AtConcat(b, 13, U32(2), rest);
    ReadU32At(b, 13, 2);
  }

  /** So does an EVENT. */
  lemma ShortEventTakesWhatFollows(api: Api, bus: Objects, hdr: seq<byte>, uid: u16, handle: Handle, event: u16)
    requires |hdr| == HEADER_SIZE && DescForEvent(api, bus, uid, handle, event).Some?
    ensures DecEvent(api, bus, Exact(hdr + (U16(uid) + (U16(handle) + (U16(event) + (U32(2) + []))))), HEADER_SIZE).item == None
    ensures DecEvent(api, bus, Exact(hdr + (U16(uid) + (U16(handle) + (U16(event) + (U32(2) + U16(0)))))), HEADER_SIZE).item
         == Some(Event(handle, uid, event, map[]))
  {
    hide DescForEvent, DecEvent, ReadU16, ReadU32;
    var f := hdr + (U16(uid) + (U16(handle) + (U16(event) + (U32(2) + []))));
    var g := hdr + (U16(uid) + (U16(handle) + (U16(event) + (U32(2) + U16(0)))));
    EventHead(hdr, uid, handle, event, []);
    EventHead(hdr, uid, handle, event, U16(0));
    EndOfBuffer(f);
    ReadU16At(Exact(g), 19, 0);
    EmptyEvent(api, bus, Exact(f), uid, handle, event);
    EmptyEvent(api, bus, Exact(g), uid, handle, event);
  }

  lemma EmptyEvent(api: Api, bus: Objects, b: Buf, uid: u16, handle: Handle, event: u16)
    requires b.Valid() && DescForEvent(api, bus, uid, handle, event).Some?
    requires ReadU16(b, 9) == Got(uid, 11) && ReadU16(b, 11) == Got(handle, 13) && ReadU16(b, 13) == Got(event, 15) && ReadU32(b, 15) == Got(2, 19)
    ensures ReadU16(b, 19).Fail? ==> DecEvent(api, bus, b, 9).item == None
    ensures ReadU16(b, 19) == Got(0, 21) ==> DecEvent(api, bus, b, 9).item == Some(Event(handle, uid, event, map[]))
  {
    hide ReadU16, ReadU32, DescForEvent;
  }

  lemma EventHead(hdr: seq<byte>, uid: u16, handle: Handle, event: u16, rest: seq<byte>)
    requires |hdr| == HEADER_SIZE
    ensures var b := Exact(hdr + (U16(uid) + (U16(handle) + (U16(event) + (U32(2) + rest)))));
            ReadU16(b, 9) == Got(uid, 11) && ReadU16(b, 11) == Got(handle, 13) && ReadU16(b, 13) == Got(event, 15) &&
            ReadU32(b, 15) == Got(2, 19) && At(b, 19, rest)
  {
    hide ReadU16, ReadU32, At;
    var b := Exact(hdr + (U16(uid) + (U16(handle) + (U16(event) + (U32(2) + rest)))));
    PayloadAtNine(hdr, U16(uid) + (U16(handle) + (U16(event) + (U32(2) + rest))));
    AtConcat(b, 9, U16(uid), U16(handle) + (U16(event) + (U32(2) + rest)));
    ReadU16At(b, 9, uid);
    AtConcat(b, 11, U16(handle), U16(event) + (U32(2) + rest));
    ReadU16At(b, 11, handle);
    AtConcat(b, 13, U16(event), U32(2) + rest);
    ReadU16At(b, 13, event);
    AtConcat(b, 15, U32(2), rest);
    ReadU32At(b, 15, 2);
  }

  /** A connection response without its object count. */
  lemma ShortConRespTakesWhatFollows(api: Api, hdr: seq<byte>)
    requires |hdr| == HEADER_SIZE
    ensures DecConResp(api, Exact(hdr + ([0] + [])), HEADER_SIZE) == None
    ensures DecConResp(api, Exact(hdr + ([0] + U32(0))), HEADER_SIZE) == Some(ConResp(true, []))
  {
    hide DecConResp, ReadU8, ReadU32;
    var f, g := hdr + ([0] + []), hdr + ([0] + U32(0));
    ConRespHead(hdr, []);
    ConRespHead(hdr, U32(0));
    EndOfBuffer(f);
    ReadU32At(Exact(g), 10, 0);
    EmptyConResp(api, Exact(f));
    EmptyConResp(api, Exact(g));
  }

  lemma ConRespHead(hdr: seq<byte>, rest: seq<byte>)
    requires |hdr| == HEADER_SIZE
    ensures var b := Exact(hdr + ([0] + rest)); ReadU8(b, 9) == Got(0, 10) && At(b, 10, rest)
  {
    hide ReadU8, At;
    var b := Exact(hdr + ([0] + rest));
    PayloadAtNine(hdr, [0] + rest);
    AtConcat(b, 9, [0], rest);
    ReadU8At(b, 9, 0);
  }

  lemma EmptyConResp(api: Api, b: Buf)
    requires b.Valid() && ReadU8(b, 9) == Got(0, 10)
    ensures ReadU32(b, 10).Fail? ==> DecConResp(api, b, 9) == None
    ensures ReadU32(b, 10) == Got(0, 14) ==> DecConResp(api, b, 9) == Some(ConResp(true, []))
  {
    hide ReadU8, ReadU32;
  }

  /** A bus event without its counts. */
  lemma ShortBusEventTakesWhatFollows(api: Api, busEvents: set<u16>, bus: Objects, hdr: seq<byte>, uid: u16)
    requires |hdr| == HEADER_SIZE && uid != INVALID_UID && uid in busEvents
    ensures DecBusEvent(api, busEvents, bus, Exact(hdr + (U16(uid) + [])), HEADER_SIZE) == None
    ensures DecBusEvent(api, busEvents, bus, Exact(hdr + (U16(uid) + (U32(0) + (U32(0) + (U32(0) + []))))), HEADER_SIZE)
         == Some(BusEventPkt(uid, [], [], []))
  {
    hide DecBusEvent, ReadU16, ReadU32, At;
    var f, rest := hdr + (U16(uid) + []), U32(0) + (U32(0) + (U32(0) + []));
    PayloadAtNine(hdr, U16(uid) + []);
    PayloadAtNine(hdr, U16(uid) + rest);
    AtConcat(Exact(f), 9, U16(uid), []);
    ReadU16At(Exact(f), 9, uid);
    EndOfBuffer(f);
    BusEventHeadAt(Exact(hdr + (U16(uid) + rest)), 9, uid, 0, 0, 0, []);
    EmptyBusEvent(api, busEvents, bus, Exact(f), uid);
    EmptyBusEvent(api, busEvents, bus, Exact(hdr + (U16(uid) + rest)), uid);
  }

  lemma EmptyBusEvent(api: Api, busEvents: set<u16>, bus: Objects, b: Buf, uid: u16)
    requires b.Valid() && uid != INVALID_UID && uid in busEvents && ReadU16(b, 9) == Got(uid, 11)
    ensures ReadU32(b, 11).Fail? ==> DecBusEvent(api, busEvents, bus, b, 9) == None
    ensures ReadU32(b, 11) == Got(0, 15) && ReadU32(b, 15) == Got(0, 19) && ReadU32(b, 19) == Got(0, 23) ==>
              DecBusEvent(api, busEvents, bus, b, 9) == Some(BusEventPkt(uid, [], [], []))
  {
    hide ReadU16, ReadU32;
  }
}
