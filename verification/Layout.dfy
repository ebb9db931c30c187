/** The format itself, read off the bytes: numbers are what their big-endian digits say, and every
    part of a packet stands at the offset the protocol gives it. Nothing here decodes. */
module Layout {
  import opened Values
  import opened Bytes
  import opened Codec
  import opened Bus
  import opened ServerSpec
  import opened Packets
  import opened Requests
  import opened Framing
  import opened Wire

  /** The number a run of bytes stands for, most significant byte first. */
  function Number(s: seq<byte>): nat {
    if s == [] then 0 else Number(s[..|s| - 1]) * 0x100 + s[|s| - 1]
  }

  /** A number of the given width stands at an offset. */
  ghost predicate NumberAt(s: seq<byte>, at: nat, width: nat, v: nat) {
    at + width <= |s| && Number(s[at..at + width]) == v
  }

  /** The rest of the bytes from an offset on. */
  ghost predicate RestIs(s: seq<byte>, at: nat, rest: seq<byte>) { at <= |s| && s[at..] == rest }

  lemma NumberOfTwo(a: byte, b: byte)
    ensures Number([a, b]) == FromU16(a, b)
  {
    var one := [a];
    assert [a, b][..1] == one;
    assert one[..0] == [];
    assert Number(one) == a;
  }

  lemma NumberOfFour(a: byte, b: byte, c: byte, d: byte)
    ensures Number([a, b, c, d]) == FromU32(a, b, c, d)
  {
    assert [a, b, c, d][..3] == [a, b, c];
    assert [a, b, c][..2] == [a, b];
    NumberOfTwo(a, b);
  }

  lemma Digit(s: seq<byte>, d: byte)
    ensures Number(s + [d]) == Number(s) * 0x100 + d
  {
    assert (s + [d])[..|s|] == s;
  }

  lemma NumberOfConcat(s: seq<byte>, t: seq<byte>)
    requires |t| == 4
    ensures Number(s + t) == Number(s) * 0x1_0000_0000 + Number(t)
  {
    var a, b, c, d := t[0], t[1], t[2], t[3];
    assert t == [a, b, c, d];
    NumberOfFour(a, b, c, d);
    Digit(s, a);
    Digit(s + [a], b);
    Digit(s + [a] + [b], c);
    Digit(s + [a] + [b] + [c], d);
    assert s + t == s + [a] + [b] + [c] + [d];
  }

  /** Integers are written big-endian in two, four or eight bytes. */
  lemma BigEndian(a: u16, b: u32, c: u64)
    ensures |U16(a)| == 2 && Number(U16(a)) == a
    ensures |U32(b)| == 4 && Number(U32(b)) == b
    ensures |U64(c)| == 8 && Number(U64(c)) == c
  {
    NumberOfTwo(a / 0x100, a % 0x100);
    NumberOfFourIs(b);
    var hi, lo := c / 0x1_0000_0000, c % 0x1_0000_0000;
    NumberOfFourIs(hi);
    NumberOfFourIs(lo);
    NumberOfConcat(U32(hi), U32(lo));
  }

  lemma NumberOfFourIs(v: u32)
    ensures Number(U32(v)) == v
  {
    NumberOfFour(v / 0x100_0000, v / 0x1_0000 % 0x100, v / 0x100 % 0x100, v % 0x100);
    FromU32Inverse(v);
  }

  lemma U16Stands(v: u16, rest: seq<byte>)
    ensures var e := U16(v) + rest; NumberAt(e, 0, 2, v) && RestIs(e, 2, rest)
  {
    BigEndian(v, 0, 0);
    assert (U16(v) + rest)[0..2] == U16(v);
  }

  lemma U32Stands(v: u32, rest: seq<byte>)
    ensures var e := U32(v) + rest; NumberAt(e, 0, 4, v) && RestIs(e, 4, rest)
  {
    BigEndian(0, v, 0);
    assert (U32(v) + rest)[0..4] == U32(v);
  }

  /** Offsets add up: what stands in the rest stands that much further in the whole. */
  lemma Shift(s: seq<byte>, at: nat, rest: seq<byte>)
    requires RestIs(s, at, rest)
    ensures forall i: nat, w: nat, v: nat :: NumberAt(rest, i, w, v) ==> NumberAt(s, at + i, w, v)
    ensures forall i: nat, r :: RestIs(rest, i, r) ==> RestIs(s, at + i, r)
    ensures |s| == at + |rest|
  {
    forall i: nat, w: nat, v: nat | NumberAt(rest, i, w, v)
      ensures NumberAt(s, at + i, w, v)
    {
      assert s[at..][i..i + w] == s[at + i..at + i + w];
    }
    forall i: nat, r | RestIs(rest, i, r)
      ensures RestIs(s, at + i, r)
    {
      assert s[at..][i..] == s[at + i..];
    }
  }

  // ---- fields and structs ----

  /** The field types in the order of their enumeration, with their sizes in bytes. */
  const BASES := [U8Type, I8Type, U16Type, I16Type, U32Type, I32Type, U64Type, I64Type,
                  EnumType, StringType, BoolType, F32Type, F64Type]
  const SIZES := [1, 1, 2, 2, 4, 4, 8, 8, 4, 0, 1, 4, 8]

  ghost predicate ScalarLayout(t: Base, v: Scalar, e: seq<byte>) {
    if t == StringType then
      if v.Text? && v.chars.Some? then
        NumberAt(e, 0, 4, |v.chars.value| + 1) && RestIs(e, 4, v.chars.value + [0])
      else e == [0, 0, 0, 0]
    else if t == BoolType then v.Flag? && e == [if v.raw == 0 then 0 else 1]
    else v.Bits? && NumberAt(e, 0, |e|, v.raw) && exists k :: 0 <= k < |BASES| && BASES[k] == t && |e| == SIZES[k]
  }

  lemma ScalarStands(t: Base, v: Scalar)
    requires FitsScalar(t, v)
    ensures ScalarLayout(t, v, EncScalar(t, v))
  {
    var e := EncScalar(t, v);
    if t == StringType {
      if v.chars.Some? {
        U32Stands(|v.chars.value| + 1, v.chars.value + [0]);
      }
    } else if t != BoolType {
      NumberedLikeTheEnum(FieldDesc(0, t, false));
      NumberOfOne(v.raw);
      BitsStand(Width(t), v.raw);
      assert e[0..|e|] == e;
    }
  }

  lemma NumberOfOne(raw: nat)
    ensures raw < 0x100 ==> Number([raw]) == raw
  {
    if raw < 0x100 {
      assert [raw as byte][..0] == [];
    }
  }

  lemma BitsStand(width: nat, raw: nat)
    requires width in {1, 2, 4, 8} && raw < Limit(width)
    ensures |EncBits(width, raw)| == width && Number(EncBits(width, raw)) == raw
  {
    if width == 1 {
      NumberOfOne(raw);
    } else if width == 2 {
      BigEndian(raw, 0, 0);
    } else if width == 4 {
      BigEndian(0, raw, 0);
    } else {
      BigEndian(0, 0, raw);
    }
  }

  /** The type byte is the type's place in the enumeration, plus the array flag. */
  lemma NumberedLikeTheEnum(d: FieldDesc)
    ensures TypeByte(d) % 0x80 < |BASES| && BASES[TypeByte(d) % 0x80] == d.base
    ensures Width(d.base) == SIZES[TypeByte(d) % 0x80]
    ensures TypeByte(d) >= 0x80 <==> d.isArray
  {
  }

  /** Two bytes uid, one byte type, then the value: a scalar, or a count and that many scalars. */
  ghost predicate FieldLayout(f: Field, e: seq<byte>) {
    NumberAt(e, 0, 2, f.desc.uid) &&
    3 <= |e| && (e[2] >= 0x80 <==> f.desc.isArray) && e[2] % 0x80 < |BASES| && BASES[e[2] % 0x80] == f.desc.base &&
    match f.value
    case One(v) => !f.desc.isArray && ScalarLayout(f.desc.base, v, e[3..])
    case Many(xs) =>
      f.desc.isArray && NumberAt(e, 3, 4, |xs|) &&
      exists parts: seq<seq<byte>> :: |parts| == |xs| && RestIs(e, 7, Flatten(parts)) &&
        forall i :: 0 <= i < |xs| ==> ScalarLayout(f.desc.base, xs[i], parts[i])
  }

  lemma {:induction false} ScalarsStand(t: Base, xs: seq<Scalar>) returns (parts: seq<seq<byte>>)
    requires forall i :: 0 <= i < |xs| ==> FitsScalar(t, xs[i])
    ensures |parts| == |xs| && EncScalars(t, xs) == Flatten(parts)
    ensures forall i :: 0 <= i < |xs| ==> ScalarLayout(t, xs[i], parts[i])
  {
    parts := [];
    if xs != [] {
      ScalarStands(t, xs[0]);
      var rest := ScalarsStand(t, xs[1..]);
      parts := [EncScalar(t, xs[0])] + rest;
      assert parts[1..] == rest;
    }
  }

  lemma FieldStands(f: Field)
    requires FitsValue(f.desc, f.value)
    ensures FieldLayout(f, EncField(f))
  {
    hide EncScalar, FitsScalar, ScalarLayout, NumberAt, RestIs, TypeByte, EncScalars;
    var e, val := EncField(f), EncValue(f.desc, f.value);
    U16Stands(f.desc.uid, [TypeByte(f.desc)] + val);
    NumberedLikeTheEnum(f.desc);
    TypeStands(f, val, e);
    match f.value {
      case One(v) =>
        ScalarStands(f.desc.base, v);
      case Many(xs) =>
        var parts := ScalarsStand(f.desc.base, xs);
        U32Stands(|xs|, Flatten(parts));
        Shift(e, 3, val);
    }
  }

  lemma TypeStands(f: Field, val: seq<byte>, e: seq<byte>)
    requires e == U16(f.desc.uid) + ([TypeByte(f.desc)] + val)
    ensures |e| >= 3 && e[2] == TypeByte(f.desc) && e[3..] == val && RestIs(e, 3, val)
  {
  }

  /** Two bytes with the number of present fields, then the fields, each once. */
  ghost predicate StructLayout(desc: Desc, s: Struct, e: seq<byte>) {
    NumberAt(e, 0, 2, |s|) &&
    exists fs: seq<Field>, parts: seq<seq<byte>> :: Codec.Lists(desc, s, fs) && |parts| == |fs| && RestIs(e, 2, Flatten(parts)) &&
      forall i :: 0 <= i < |fs| ==> FieldLayout(fs[i], parts[i])
  }

  lemma {:induction false} FieldsStand(fs: seq<Field>) returns (parts: seq<seq<byte>>)
    requires FitsFields(fs)
    ensures |parts| == |fs| && EncFields(fs) == Flatten(parts)
    ensures forall i :: 0 <= i < |fs| ==> FieldLayout(fs[i], parts[i])
  {
    hide EncField, FieldLayout;
    parts := [];
    if fs != [] {
      FieldStands(fs[0]);
      var rest := FieldsStand(fs[1..]);
      parts := [EncField(fs[0])] + rest;
      assert parts[1..] == rest;
    }
  }

  /** As many fields are listed as the struct holds. */
  lemma {:induction false} ListedCount(fs: seq<Field>, keys: set<u16>)
    requires DistinctFields(fs)
    requires forall i :: 0 <= i < |fs| ==> fs[i].desc.uid in keys
    requires forall u :: u in keys ==> exists i :: 0 <= i < |fs| && fs[i].desc.uid == u
    ensures |fs| == |keys|
  {
    if fs == [] {
      assert keys == {};
    } else {
      var u := fs[0].desc.uid;
      forall k | k in keys - {u}
        ensures exists i :: 0 <= i < |fs[1..]| && fs[1..][i].desc.uid == k
      {
        var i :| 0 <= i < |fs| && fs[i].desc.uid == k;
        assert fs[1..][i - 1].desc.uid == k;
      }
      ListedCount(fs[1..], keys - {u});
    }
  }

  lemma StructStands(desc: Desc, s: Struct)
    requires DescOk(desc) && FitsStruct(desc, s)
    ensures StructLayout(desc, s, EncStruct(desc, s))
  {
    hide FieldLayout, NumberAt, RestIs;
    var fs := Present(desc, s);
    PresentFits(desc, s);
    PresentIsListing(desc, s);
    ListedCount(fs, s.Keys);
    var parts := FieldsStand(fs);
    U16Stands(|fs|, Flatten(parts));
  }

  // ---- payloads ----

  /** A struct behind its size. */
  ghost predicate SizedLayout(api: Api, uid: u16, info: Struct, e: seq<byte>) {
    uid in api.objects && 4 <= |e| && NumberAt(e, 0, 4, |e| - 4) && StructLayout(api.objects[uid], info, e[4..])
  }

  ghost predicate ItemLayout(api: Api, it: Item, e: seq<byte>) {
    4 <= |e| && NumberAt(e, 0, 2, it.uid) && NumberAt(e, 2, 2, it.handle) && SizedLayout(api, it.uid, it.info, e[4..])
  }

  ghost predicate RefLayout(r: Ref, e: seq<byte>) {
    |e| == 4 && NumberAt(e, 0, 2, r.uid) && NumberAt(e, 2, 2, r.handle)
  }

  ghost predicate EventLayout(api: Api, ev: Event, e: seq<byte>) {
    6 <= |e| && NumberAt(e, 0, 2, ev.uid) && NumberAt(e, 2, 2, ev.handle) && NumberAt(e, 4, 2, ev.event) &&
    SizedLayout(api, ev.uid, ev.info, e[6..])
  }

  /** Parts standing one behind the other, each laid out as its item. */
  ghost predicate InOrder<T>(items: seq<T>, parts: seq<seq<byte>>, layout: (T, seq<byte>) -> bool) {
    |parts| == |items| && forall i :: 0 <= i < |items| ==> layout(items[i], parts[i])
  }

  /** Objects, references and events of a bus event, in that order behind their counts. */
  ghost predicate BusEventLayout(api: Api, p: Down, e: seq<byte>)
    requires p.BusEventPkt?
  {
    NumberAt(e, 0, 2, p.uid) && NumberAt(e, 2, 4, |p.adds|) && NumberAt(e, 6, 4, |p.removes|) && NumberAt(e, 10, 4, |p.events|) &&
    exists a, r, v :: InOrder(p.adds, a, (x, y) => ItemLayout(api, x, y)) && InOrder(p.removes, r, (x, y) => RefLayout(x, y)) &&
      InOrder(p.events, v, (x, y) => EventLayout(api, x, y)) && RestIs(e, 14, Flatten(a) + (Flatten(r) + Flatten(v)))
  }

  ghost predicate PayloadLayout(api: Api, p: Down, e: seq<byte>) {
    match p
    case ConResp(accepted, snapshot) =>
      5 <= |e| && e[0] == (if accepted then 0 else 1) && NumberAt(e, 1, 4, |snapshot|) &&
      exists a :: InOrder(snapshot, a, (x, y) => ItemLayout(api, x, y)) && RestIs(e, 5, Flatten(a))
    case AddPkt(it) => ItemLayout(api, it, e)
    case RemovePkt(r) => RefLayout(r, e)
    case EventPkt(ev) => EventLayout(api, ev, e)
    case BusEventPkt(_, _, _, _) => BusEventLayout(api, p, e)
    case AckPkt(call, status) => |e| == 3 && NumberAt(e, 0, 2, call) && e[2] < 7 && STATUSES[e[2]] == status
  }

  lemma SizedStands(api: Api, uid: u16, info: Struct)
    requires FitsInfo(api, uid, info)
    ensures SizedLayout(api, uid, info, EncSized(api, uid, info))
  {
    hide StructLayout, EncStruct, NumberAt;
    var enc := EncStruct(api.objects[uid], info);
    StructStands(api.objects[uid], info);
    U32Stands(|enc|, enc);
  }

  lemma ItemStands(api: Api, it: Item)
    requires FitsInfo(api, it.uid, it.info)
    ensures ItemLayout(api, it, EncItem(api, it))
  {
    hide SizedLayout, EncSized, NumberAt, FitsInfo, RestIs;
    var e, sized := EncItem(api, it), EncSized(api, it.uid, it.info);
    U16Stands(it.uid, U16(it.handle) + sized);
    U16Stands(it.handle, sized);
    Shift(e, 2, U16(it.handle) + sized);
    SizedStands(api, it.uid, it.info);
    assert RestIs(e, 2 + 2, sized) && NumberAt(e, 2 + 0, 2, it.handle);
    RestAt(e, 4, sized);
  }

  lemma RestAt(e: seq<byte>, at: nat, rest: seq<byte>)
    requires RestIs(e, at, rest)
    ensures at <= |e| && e[at..] == rest
  {
  }

  lemma RefStands(r: Ref)
    ensures RefLayout(r, EncRef(r))
  {
    var e := EncRef(r);
    U16Stands(r.uid, U16(r.handle));
    U16Stands(r.handle, []);
    assert U16(r.handle) + [] == U16(r.handle);
    Shift(e, 2, U16(r.handle));
    assert NumberAt(e, 2 + 0, 2, r.handle);
  }

  lemma EventStands(api: Api, ev: Event)
    requires FitsInfo(api, ev.uid, ev.info)
    ensures EventLayout(api, ev, EncEvent(api, ev))
  {
    hide SizedLayout, EncSized, NumberAt, FitsInfo, RestIs;
    var e, sized := EncEvent(api, ev), EncSized(api, ev.uid, ev.info);
    var e2 := U16(ev.handle) + (U16(ev.event) + sized);
    U16Stands(ev.uid, e2);
    U16Stands(ev.handle, U16(ev.event) + sized);
    U16Stands(ev.event, sized);
    Shift(e2, 2, U16(ev.event) + sized);
    assert NumberAt(e2, 2 + 0, 2, ev.event) && RestIs(e2, 2 + 2, sized);
    Shift(e, 2, e2);
    assert NumberAt(e, 2 + 0, 2, ev.handle) && NumberAt(e, 2 + 2, 2, ev.event) && RestIs(e, 2 + 4, sized);
    SizedStands(api, ev.uid, ev.info);
    RestAt(e, 6, sized);
  }

  lemma {:induction false} ItemsStand(api: Api, items: seq<Item>) returns (parts: seq<seq<byte>>)
    requires FitsItems(api, items)
    ensures EncItems(api, items) == Flatten(parts) && InOrder(items, parts, (x, y) => ItemLayout(api, x, y))
  {
    hide ItemLayout, EncItem, FitsInfo;
    parts := [];
    if items != [] {
      ItemStands(api, items[0]);
      var rest := ItemsStand(api, items[1..]);
      parts := [EncItem(api, items[0])] + rest;
      assert parts[1..] == rest;
    }
  }

  lemma {:induction false} RefsStand(refs: seq<Ref>) returns (parts: seq<seq<byte>>)
    ensures EncRefs(refs) == Flatten(parts) && InOrder(refs, parts, (x, y) => RefLayout(x, y))
  {
    hide RefLayout, EncRef;
    parts := [];
    if refs != [] {
      RefStands(refs[0]);
      var rest := RefsStand(refs[1..]);
      parts := [EncRef(refs[0])] + rest;
      assert parts[1..] == rest;
    }
  }

  lemma {:induction false} EventsStand(api: Api, es: seq<Event>) returns (parts: seq<seq<byte>>)
    requires FitsEvents(api, es)
    ensures EncEvents(api, es) == Flatten(parts) && InOrder(es, parts, (x, y) => EventLayout(api, x, y))
  {
    hide EventLayout, EncEvent, FitsInfo;
    parts := [];
    if es != [] {
      EventStands(api, es[0]);
      var rest := EventsStand(api, es[1..]);
      parts := [EncEvent(api, es[0])] + rest;
      assert parts[1..] == rest;
    }
  }

  /** Three counts behind a uid. */
  lemma CountsStand(uid: u16, n: u32, m: u32, k: u32, rest: seq<byte>)
    ensures var e := U16(uid) + (U32(n) + (U32(m) + (U32(k) + rest)));
            NumberAt(e, 0, 2, uid) && NumberAt(e, 2, 4, n) && NumberAt(e, 6, 4, m) && NumberAt(e, 10, 4, k) && RestIs(e, 14, rest)
  {
    hide NumberAt, RestIs;
    var e3 := U32(k) + rest;
    var e2 := U32(m) + e3;
    var e1 := U32(n) + e2;
    var e := U16(uid) + e1;
    U32Stands(k, rest);
    U32Stands(m, e3);
    U32Stands(n, e2);
    U16Stands(uid, e1);
    Shift(e2, 4, e3);
    assert NumberAt(e2, 4 + 0, 4, k) && RestIs(e2, 4 + 4, rest);
    Shift(e1, 4, e2);
    assert NumberAt(e1, 4 + 0, 4, m) && NumberAt(e1, 4 + 4, 4, k) && RestIs(e1, 4 + 8, rest);
    Shift(e, 2, e1);
    assert NumberAt(e, 2 + 0, 4, n) && NumberAt(e, 2 + 4, 4, m) && NumberAt(e, 2 + 8, 4, k) && RestIs(e, 2 + 12, rest);
  }

  lemma BusEventStands(api: Api, p: Down)
    requires p.BusEventPkt? && FitsDown(api, p)
    ensures BusEventLayout(api, p, EncPayload(api, p))
  {
    hide NumberAt, RestIs, InOrder, EncItems, EncRefs, EncEvents, FitsInfo;
    var a := ItemsStand(api, p.adds);
    var r := RefsStand(p.removes);
    var v := EventsStand(api, p.events);
    CountsStand(p.uid, |p.adds|, |p.removes|, |p.events|, Flatten(a) + (Flatten(r) + Flatten(v)));
  }

  lemma ConRespStands(api: Api, p: Down)
    requires p.ConResp? && FitsDown(api, p)
    ensures PayloadLayout(api, p, EncPayload(api, p))
  {
    hide NumberAt, InOrder, EncItems, FitsInfo;
    var e := EncPayload(api, p);
    var a := ItemsStand(api, p.snapshot);
    var e1 := U32(|p.snapshot|) + Flatten(a);
    U32Stands(|p.snapshot|, Flatten(a));
    assert RestIs(e, 1, e1);
    Shift(e, 1, e1);
    assert NumberAt(e, 1 + 0, 4, |p.snapshot|) && RestIs(e, 1 + 4, Flatten(a));
  }

  lemma AckStands(api: Api, call: Handle, status: Status)
    ensures PayloadLayout(api, AckPkt(call, status), EncPayload(api, AckPkt(call, status)))
  {
    U16Stands(call, [StatusCode(status)]);
    NumberedInOrder(status, AckPkt(call, status));
  }

  /** Every server packet stands in memory as the protocol lays it out. */
  lemma PayloadStands(api: Api, p: Down)
    requires FitsDown(api, p)
    ensures PayloadLayout(api, p, EncPayload(api, p))
  {
    hide ItemLayout, RefLayout, EventLayout, BusEventLayout, EncItem, EncRef, EncEvent, EncBusEvent, FitsInfo;
    match p
    case ConResp(_, _) => ConRespStands(api, p);
    case AddPkt(it) => ItemStands(api, it);
    case RemovePkt(r) => RefStands(r);
    case EventPkt(ev) => EventStands(api, ev);
    case BusEventPkt(_, _, _, _) => BusEventStands(api, p);
    case AckPkt(call, status) => AckStands(api, call, status);
  }

  /** A packet starts with the letters of the protocol's name, its own length and its type; the
      payload follows. */
  lemma PacketStands(api: Api, p: Down)
    requires FitsDown(api, p) && HEADER_SIZE + |EncPayload(api, p)| < 0x1_0000_0000
    ensures var f := EncPacket(api, p);
            9 <= |f| && (forall i :: 0 <= i < 4 ==> f[i] == "obus"[i] as int) && NumberAt(f, 4, 4, |f|) &&
            PayloadLayout(api, p, f[9..])
    ensures EncPacket(api, p)[8]
         == match p case ConResp(_, _) => 1 case AddPkt(_) => 2 case RemovePkt(_) => 3 case BusEventPkt(_, _, _, _) => 4
                    case EventPkt(_) => 5 case AckPkt(_, _) => 7
  {
    hide EncPayload, FitsDown, PayloadLayout, NumberAt;
    var f, n := EncPacket(api, p), HEADER_SIZE + |EncPayload(api, p)|;
    PayloadStands(api, p);
    assert f[9..] == EncPayload(api, p);
    U32Stands(n, [PacketType(p)] + EncPayload(api, p));
    var rest := U32(n) + ([PacketType(p)] + EncPayload(api, p));
    assert f == MAGIC + rest;
    assert RestIs(f, 4, rest);
    Shift(f, 4, rest);
    assert NumberAt(f, 4 + 0, 4, n);
    NumberedInOrder(Acked, p);
  }

  /** The letters of the protocol's name and one of the eight packet types make a header; its size
      is the number behind the letters. */
  lemma HeaderIs(s: seq<byte>, i: nat)
    requires i + 9 <= |s|
    ensures HeaderAt(s, i) <==> (forall k :: 0 <= k < 4 ==> s[i + k] == "obus"[k] as int) && s[i + 8] < 8
    ensures NumberAt(s, i + 4, 4, SizeAt(s, i))
  {
    if forall k :: 0 <= k < 4 ==> s[i + k] == "obus"[k] as int {
      assert s[i + 0] == "obus"[0] as int && s[i + 1] == "obus"[1] as int;
      assert s[i + 2] == "obus"[2] as int && s[i + 3] == "obus"[3] as int;
    }
    NumberOfFour(s[i + 4], s[i + 5], s[i + 6], s[i + 7]);
    assert s[i + 4..i + 4 + 4] == [s[i + 4], s[i + 5], s[i + 6], s[i + 7]];
  }

  /** The search stops at the first header and fails only if there is none. */
  lemma {:induction false} FirstHeader(s: seq<byte>, i: nat)
    ensures var r := NextHeader(s, i);
            (r.None? ==> forall k :: i <= k ==> !HeaderAt(s, k)) &&
            (r.Some? ==> HeaderAt(s, r.value) && forall k :: i <= k < r.value ==> !HeaderAt(s, k))
    decreases |s| - i
  {
    if i + HEADER_SIZE <= |s| {
      FirstHeader(s, i + 1);
    }
  }

  // ---- requests ----

  ghost predicate CallLayout(ms: Methods, u: Up, e: seq<byte>)
    requires u.CallPkt? && (u.uid, u.mid) in ms
  {
    12 <= |e| && NumberAt(e, 0, 2, u.uid) && NumberAt(e, 2, 2, u.handle) && NumberAt(e, 4, 2, u.mid) &&
    NumberAt(e, 6, 2, u.call) && NumberAt(e, 8, 4, |e| - 12) &&
    match ms[(u.uid, u.mid)]
    case None => |e| == 12
    case Some(d) => StructLayout(d, u.args, e[12..])
  }

  lemma CallStands(ms: Methods, u: Up)
    requires FitsCall(ms, u)
    ensures CallLayout(ms, u, EncCall(ms, u))
  {
    hide NumberAt, RestIs, StructLayout, EncStruct;
    var args := EncArgs(ms, u);
    var e4 := U32(|args|) + args;
    var e3 := U16(u.call) + e4;
    var e2 := U16(u.mid) + e3;
    var e1 := U16(u.handle) + e2;
    var e := EncCall(ms, u);
    U32Stands(|args|, args);
    U16Stands(u.call, e4);
    U16Stands(u.mid, e3);
    U16Stands(u.handle, e2);
    U16Stands(u.uid, e1);
    Shift(e3, 2, e4);
    assert NumberAt(e3, 2 + 0, 4, |args|) && RestIs(e3, 2 + 4, args);
    Shift(e2, 2, e3);
    assert NumberAt(e2, 2 + 0, 2, u.call) && NumberAt(e2, 2 + 2, 4, |args|) && RestIs(e2, 2 + 6, args);
    Shift(e1, 2, e2);
    assert NumberAt(e1, 2 + 0, 2, u.mid) && NumberAt(e1, 2 + 2, 2, u.call) && NumberAt(e1, 2 + 4, 4, |args|) && RestIs(e1, 2 + 8, args);
    Shift(e, 2, e1);
    assert NumberAt(e, 2 + 0, 2, u.handle) && NumberAt(e, 2 + 2, 2, u.mid) && NumberAt(e, 2 + 4, 2, u.call)
        && NumberAt(e, 2 + 6, 4, |args|) && RestIs(e, 2 + 10, args);
    RestAt(e, 12, args);
    if ms[(u.uid, u.mid)].Some? {
      StructStands(ms[(u.uid, u.mid)].value, u.args);
    }
  }

  /** A name stands behind its length, the final NUL counted. */
  ghost predicate TextAt(e: seq<byte>, at: nat, s: seq<byte>) {
    NumberAt(e, at, 4, |s| + 1) && at + 5 + |s| <= |e| && e[at + 4..at + 5 + |s|] == s + [0]
  }

  lemma TextStands(s: seq<byte>, rest: seq<byte>)
    requires FitsText(s)
    ensures var e := EncText(s) + rest; TextAt(e, 0, s) && RestIs(e, |s| + 5, rest)
  {
    var e, z := EncText(s) + rest, s + [0];
    U32Stands(|s| + 1, z + rest);
    assert e == U32(|s| + 1) + (z + rest);
    assert e[4..5 + |s|] == z;
  }

  lemma ShiftText(e: seq<byte>, at: nat, rest: seq<byte>, i: nat, s: seq<byte>)
    requires RestIs(e, at, rest) && TextAt(rest, i, s)
    ensures TextAt(e, at + i, s)
  {
    Shift(e, at, rest);
    assert e[at..][i + 4..i + 5 + |s|] == e[at + i + 4..at + i + 5 + |s|];
  }

  /** Version, bus name, checksum, client name. */
  lemma ConReqStands(ms: Methods, version: byte, bus: seq<byte>, crc: u32, client: seq<byte>)
    requires FitsText(bus) && FitsText(client)
    ensures var e := EncUp(ms, ConReq(version, bus, crc, client));
            var k := 6 + |bus|;
            |e| == k + 4 + 5 + |client| && e[0] == version &&
            TextAt(e, 1, bus) && NumberAt(e, k, 4, crc) && TextAt(e, k + 4, client)
  {
    hide NumberAt, TextAt, EncScalar, FitsScalar, RestIs;
    var e3 := EncText(client);
    var e2 := U32(crc) + e3;
    var e1 := EncText(bus) + e2;
    var e := [version] + e1;
    TextStands(client, []);
    assert e3 + [] == e3;
    EndsAt(e3, |client| + 5);
    U32Stands(crc, e3);
    TextStands(bus, e2);
    VersionStands(version, e1);
    ShiftText(e2, 4, e3, 0, client);
    Shift(e2, 4, e3);
    Shift(e1, |bus| + 5, e2);
    assert NumberAt(e1, |bus| + 5 + 0, 4, crc);
    ShiftText(e1, |bus| + 5, e2, 4, client);
    Shift(e, 1, e1);
    assert NumberAt(e, 1 + (|bus| + 5), 4, crc);
    ShiftText(e, 1, e1, 0, bus);
    ShiftText(e, 1, e1, |bus| + 9, client);
  }

  lemma EndsAt(e: seq<byte>, at: nat)
    requires RestIs(e, at, [])
    ensures |e| == at
  {
  }

  lemma VersionStands(version: byte, rest: seq<byte>)
    ensures RestIs([version] + rest, 1, rest)
  {
  }
}
