/** The tagged struct format of obus_field.c and obus_struct.c: encoding under one descriptor,
    decoding under another. */
module Codec {
  import opened Values
  import opened Bytes

  datatype Base =
    | U8Type | I8Type | U16Type | I16Type | U32Type | I32Type | U64Type | I64Type
    | EnumType | StringType | BoolType | F32Type | F64Type

  function Code(t: Base): byte {
    match t
    case U8Type => 0 case I8Type => 1 case U16Type => 2 case I16Type => 3 case U32Type => 4
    case I32Type => 5 case U64Type => 6 case I64Type => 7 case EnumType => 8 case StringType => 9
    case BoolType => 10 case F32Type => 11 case F64Type => 12
  }

  /** Bytes of a fixed-size scalar on the wire; 0 for strings. */
  function Width(t: Base): nat {
    match t
    case U8Type => 1 case I8Type => 1 case U16Type => 2 case I16Type => 2 case U32Type => 4
    case I32Type => 4 case U64Type => 8 case I64Type => 8 case EnumType => 4 case StringType => 0
    case BoolType => 1 case F32Type => 4 case F64Type => 8
  }

  function BaseOf(code: nat): Option<Base> {
    if code == 0 then Some(U8Type) else if code == 1 then Some(I8Type)
    else if code == 2 then Some(U16Type) else if code == 3 then Some(I16Type)
    else if code == 4 then Some(U32Type) else if code == 5 then Some(I32Type)
    else if code == 6 then Some(U64Type) else if code == 7 then Some(I64Type)
    else if code == 8 then Some(EnumType) else if code == 9 then Some(StringType)
    else if code == 10 then Some(BoolType) else if code == 11 then Some(F32Type)
    else if code == 12 then Some(F64Type) else None
  }

  datatype FieldDesc = FieldDesc(uid: u16, base: Base, isArray: bool)
  type Desc = seq<FieldDesc>

  /** The type byte: base type in the low seven bits, array flag on top. */
  function TypeByte(d: FieldDesc): byte { Code(d.base) + if d.isArray then 0x80 else 0 }

  /** Field uids are distinct and the 16-bit field counters can hold their number. */
  ghost predicate DescOk(desc: Desc) {
    |desc| < 0x1_0000 && forall i, j :: 0 <= i < j < |desc| ==> desc[i].uid != desc[j].uid
  }

  /** obus_struct_get_field_desc: first descriptor with that uid. */
  function Find(desc: Desc, uid: u16): (r: Option<FieldDesc>)
    ensures r.Some? ==> r.value in desc && r.value.uid == uid
    ensures r.None? ==> forall d :: d in desc ==> d.uid != uid
  {
    if desc == [] then None
    else if desc[0].uid == uid then Some(desc[0])
    else Find(desc[1..], uid)
  }

  // ---- values that fit their descriptor ----

  function Limit(width: nat): nat {
    if width == 1 then 0x100 else if width == 2 then 0x1_0000
    else if width == 4 then 0x1_0000_0000 else 0x1_0000_0000_0000_0000
  }

  ghost predicate FitsScalar(t: Base, v: Scalar) {
    match t
    case StringType => v.Text? && (v.chars.Some? ==> 0 !in v.chars.value && |v.chars.value| + 1 < 0x1_0000_0000)
    case BoolType => v.Flag? && v.raw < 0x100
    case _ => v.Bits? && v.raw < Limit(Width(t))
  }

  ghost predicate FitsValue(d: FieldDesc, v: Value) {
    if d.isArray
    then v.Many? && |v.items| < 0x1_0000_0000 && forall i :: 0 <= i < |v.items| ==> FitsScalar(d.base, v.items[i])
    else v.One? && FitsScalar(d.base, v.item)
  }

  // ---- encoding ----

  ghost function EncBits(width: nat, raw: nat): seq<byte>
    requires raw < Limit(width)
  {
    if width == 1 then [raw] else if width == 2 then U16(raw) else if width == 4 then U32(raw) else U64(raw)
  }

  ghost function EncScalar(t: Base, v: Scalar): seq<byte>
    requires FitsScalar(t, v)
  {
    if t == StringType then
      if v.chars.None? then U32(0) else U32(|v.chars.value| + 1) + (v.chars.value + [0])
    else if t == BoolType then [Truth(v.raw)]
    else EncBits(Width(t), v.raw)
  }

  ghost function EncScalars(t: Base, xs: seq<Scalar>): seq<byte>
    requires forall i :: 0 <= i < |xs| ==> FitsScalar(t, xs[i])
  {
    if xs == [] then [] else EncScalar(t, xs[0]) + EncScalars(t, xs[1..])
  }

  ghost function EncValue(d: FieldDesc, v: Value): seq<byte>
    requires FitsValue(d, v)
  {
    if d.isArray then U32(|v.items|) + EncScalars(d.base, v.items) else EncScalar(d.base, v.item)
  }

  /** A field as it goes on the wire. */
  datatype Field = Field(desc: FieldDesc, value: Value)

  ghost predicate FitsFields(fs: seq<Field>) {
    forall i :: 0 <= i < |fs| ==> FitsValue(fs[i].desc, fs[i].value)
  }

  ghost function EncField(f: Field): seq<byte>
    requires FitsValue(f.desc, f.value)
  {
    U16(f.desc.uid) + ([TypeByte(f.desc)] + EncValue(f.desc, f.value))
  }

  ghost function EncFields(fs: seq<Field>): seq<byte>
    requires FitsFields(fs)
  {
    if fs == [] then [] else EncField(fs[0]) + EncFields(fs[1..])
  }

  /** The fields obus_struct_encode emits: those present, in descriptor order. */
  function Present(desc: Desc, s: Struct): seq<Field> {
    if desc == [] then []
    else (if desc[0].uid in s then [Field(desc[0], s[desc[0].uid])] else []) + Present(desc[1..], s)
  }

  /** Every present field has a descriptor and a value of its type. */
  ghost predicate FitsStruct(desc: Desc, s: Struct) {
    forall u :: u in s ==> Find(desc, u).Some? && FitsValue(Find(desc, u).value, s[u])
  }

  ghost function EncList(fs: seq<Field>): seq<byte>
    requires FitsFields(fs) && |fs| < 0x1_0000
  {
    U16(|fs|) + EncFields(fs)
  }

  ghost function EncStruct(desc: Desc, s: Struct): seq<byte>
    requires DescOk(desc) && FitsStruct(desc, s)
  {
    PresentFits(desc, s);
    EncList(Present(desc, s))
  }

  // ---- decoding ----

  /** The C string inside a received text: up to the first NUL. */
  function UntilNul(s: seq<byte>): seq<byte> {
    if s == [] || s[0] == 0 then [] else [s[0]] + UntilNul(s[1..])
  }

  function DecString(b: Buf, pos: nat): Got<Scalar>
    requires b.Valid()
  {
    var n := ReadU32(b, pos);
    if n.Fail? then Fail
    else if n.value == 0 then Got(Text(None), n.next)
    else if n.next + n.value > b.len then Fail
    else Got(Text(Some(UntilNul(b.mem[n.next..n.next + n.value - 1]))), n.next + n.value)
  }

  function DecBits(width: nat, b: Buf, pos: nat): Got<Scalar>
    requires b.Valid()
  {
    if width == 1 then (var r := ReadU8(b, pos); if r.Fail? then Fail else Got(Bits(r.value), r.next))
    else if width == 2 then (var r := ReadU16(b, pos); if r.Fail? then Fail else Got(Bits(r.value), r.next))
    else if width == 4 then (var r := ReadU32(b, pos); if r.Fail? then Fail else Got(Bits(r.value), r.next))
    else (var r := ReadU64(b, pos); if r.Fail? then Fail else Got(Bits(r.value), r.next))
  }

  function DecScalar(t: Base, b: Buf, pos: nat): Got<Scalar>
    requires b.Valid()
  {
    match t
    case StringType => DecString(b, pos)
    case BoolType => (var r := ReadU8(b, pos); if r.Fail? then Fail else Got(Flag(Truth(r.value)), r.next))
    case _ => DecBits(Width(t), b, pos)
  }

  function DecScalars(t: Base, n: nat, b: Buf, pos: nat): Got<seq<Scalar>>
    requires b.Valid()
  {
    if n == 0 then Got([], pos)
    else
      var x := DecScalar(t, b, pos);
      if x.Fail? then Fail
      else
        var xs := DecScalars(t, n - 1, b, x.next);
        if xs.Fail? then Fail else Got([x.value] + xs.value, xs.next)
  }

  function DecValue(d: FieldDesc, b: Buf, pos: nat): Got<Value>
    requires b.Valid()
  {
    if d.isArray then
      var n := ReadU32(b, pos);
      if n.Fail? then Fail
      else
        var xs := DecScalars(d.base, n.value, b, n.next);
        if xs.Fail? then Fail else Got(Many(xs.value), xs.next)
    else
      var x := DecScalar(d.base, b, pos);
      if x.Fail? then Fail else Got(One(x.value), x.next)
  }

  /** obus_field_skip_value: by the type on the wire; an unknown type moves nothing. */
  function SkipScalar(code: nat, b: Buf, pos: nat): nat
    requires b.Valid()
  {
    match BaseOf(code)
    case None => pos
    case Some(StringType) =>
      var n := ReadU32(b, pos);
      if n.Fail? then pos else Advance(b, n.next, n.value)
    case Some(t) => Advance(b, pos, Width(t))
  }

  function SkipScalars(code: nat, n: nat, b: Buf, pos: nat): nat
    requires b.Valid()
    decreases n
  {
    if n == 0 then pos else SkipScalars(code, n - 1, b, SkipScalar(code, b, pos))
  }

  function SkipValue(typ: byte, b: Buf, pos: nat): nat
    requires b.Valid()
  {
    if typ >= 0x80 then
      var n := ReadU32(b, pos);
      if n.Fail? then pos else SkipScalars(typ % 0x80, n.value, b, n.next)
    else SkipScalar(typ % 0x80, b, pos)
  }

  datatype Decoded = Decoded(field: Option<Field>, next: nat)

  /** obus_field_decode: a field of unknown uid, of another type or unreadable is skipped. */
  function DecField(desc: Desc, b: Buf, pos: nat): Decoded
    requires b.Valid()
  {
    var uid := ReadU16(b, pos);
    if uid.Fail? then Decoded(None, pos)
    else
      var typ := ReadU8(b, uid.next);
      if typ.Fail? then Decoded(None, uid.next)
      else
        var d := Find(desc, uid.value);
        if d.None? || TypeByte(d.value) != typ.value then Decoded(None, SkipValue(typ.value, b, typ.next))
        else
          var v := DecValue(d.value, b, typ.next);
          if v.Fail? then Decoded(None, SkipValue(typ.value, b, typ.next))
          else Decoded(Some(Field(d.value, v.value)), v.next)
  }

  function Put(s: Struct, f: Option<Field>): Struct {
    if f.None? then s else s[f.value.desc.uid := f.value.value]
  }

  datatype Filled = Filled(st: Struct, next: nat)

  function DecFields(desc: Desc, n: nat, b: Buf, pos: nat, acc: Struct): Filled
    requires b.Valid()
    decreases n
  {
    if n == 0 then Filled(acc, pos)
    else
      var f := DecField(desc, b, pos);
      DecFields(desc, n - 1, b, f.next, Put(acc, f.field))
  }

  function DecStruct(desc: Desc, b: Buf, pos: nat): Got<Struct>
    requires b.Valid()
  {
    var n := ReadU16(b, pos);
    if n.Fail? then Fail
    else
      var r := DecFields(desc, n.value, b, n.next, map[]);
      Got(r.st, r.next)
  }

  // ---- scalars ----

  lemma {:induction false} UntilNulFree(s: seq<byte>)
    requires 0 !in s
    ensures UntilNul(s) == s
  {
    if s != [] {
      UntilNulFree(s[1..]);
    }
  }

  lemma StringAt(b: Buf, pos: nat, v: Scalar)
    requires FitsScalar(StringType, v) && At(b, pos, EncScalar(StringType, v))
    ensures DecString(b, pos) == Got(v, pos + |EncScalar(StringType, v)|)
    ensures SkipScalar(9, b, pos) == pos + |EncScalar(StringType, v)|
  {
    hide ReadU32, UntilNul;
    if v.chars.None? {
      ReadU32At(b, pos, 0);
    } else {
      var s := v.chars.value;
      AtConcat(b, pos, U32(|s| + 1), s + [0]);
      ReadU32At(b, pos, |s| + 1);
      AtConcat(b, pos + 4, s, [0]);
      UntilNulFree(s);
    }
  }

  lemma CodeRoundTrip(d: FieldDesc)
    ensures TypeByte(d) % 0x80 == Code(d.base) && (TypeByte(d) >= 0x80 <==> d.isArray)
    ensures BaseOf(Code(d.base)) == Some(d.base)
  {
  }

  /** Decoding an encoded scalar gives it back as the wire preserves it; skipping it by its
      type lands on the same place. */
  lemma ScalarAt(t: Base, v: Scalar, b: Buf, pos: nat)
    requires FitsScalar(t, v) && At(b, pos, EncScalar(t, v))
    ensures DecScalar(t, b, pos) == Got(WireScalar(v), pos + |EncScalar(t, v)|)
    ensures SkipScalar(Code(t), b, pos) == pos + |EncScalar(t, v)|
  {
    CodeRoundTrip(FieldDesc(0, t, false));
    if t == StringType {
      StringAt(b, pos, v);
    } else if t == BoolType {
      ReadU8At(b, pos, Truth(v.raw));
    } else if Width(t) == 1 {
      ReadU8At(b, pos, v.raw);
    } else if Width(t) == 2 {
      ReadU16At(b, pos, v.raw);
    } else if Width(t) == 4 {
      ReadU32At(b, pos, v.raw);
    } else {
      ReadU64At(b, pos, v.raw);
    }
  }

  lemma {:induction false} ScalarsAt(t: Base, xs: seq<Scalar>, b: Buf, pos: nat)
    requires forall i :: 0 <= i < |xs| ==> FitsScalar(t, xs[i])
    requires At(b, pos, EncScalars(t, xs))
    ensures DecScalars(t, |xs|, b, pos) == Got(WireValue(Many(xs)).items, pos + |EncScalars(t, xs)|)
    ensures SkipScalars(Code(t), |xs|, b, pos) == pos + |EncScalars(t, xs)|
    decreases |xs|
  {
    hide DecScalar, SkipScalar, EncScalar, FitsScalar;
    if xs == [] {
      assert WireValue(Many(xs)).items == [];
    } else {
      AtConcat(b, pos, EncScalar(t, xs[0]), EncScalars(t, xs[1..]));
      ScalarAt(t, xs[0], b, pos);
      ScalarsAt(t, xs[1..], b, pos + |EncScalar(t, xs[0])|);
      assert WireValue(Many(xs)).items == [WireScalar(xs[0])] + WireValue(Many(xs[1..])).items;
    }
  }

  lemma ValueAt(d: FieldDesc, v: Value, b: Buf, pos: nat)
    requires FitsValue(d, v) && At(b, pos, EncValue(d, v))
    ensures DecValue(d, b, pos) == Got(WireValue(v), pos + |EncValue(d, v)|)
    ensures SkipValue(TypeByte(d), b, pos) == pos + |EncValue(d, v)|
  {
    CodeRoundTrip(d);
    if d.isArray {
      AtConcat(b, pos, U32(|v.items|), EncScalars(d.base, v.items));
      ReadU32At(b, pos, |v.items|);
      ScalarsAt(d.base, v.items, b, pos + 4);
    } else {
      ScalarAt(d.base, v.item, b, pos);
    }
  }

  // ---- fields and structs, under another descriptor ----

  /** The receiving side knows the field: same uid, same type. */
  predicate Known(desc: Desc, d: FieldDesc) {
    Find(desc, d.uid) == Some(d)
  }

  function Taken(desc: Desc, f: Field): Option<Field> {
    if Known(desc, f.desc) then Some(Field(f.desc, WireValue(f.value))) else None
  }

  lemma TypeByteInjective(d: FieldDesc, e: FieldDesc)
    requires d.uid == e.uid && TypeByte(d) == TypeByte(e)
    ensures d == e
  {
    CodeRoundTrip(d);
    CodeRoundTrip(e);
  }

  lemma FieldAt(desc: Desc, f: Field, b: Buf, pos: nat)
    requires FitsValue(f.desc, f.value) && At(b, pos, EncField(f))
    ensures DecField(desc, b, pos) == Decoded(Taken(desc, f), pos + |EncField(f)|)
  {
    AtConcat(b, pos, U16(f.desc.uid), [TypeByte(f.desc)] + EncValue(f.desc, f.value));
    ReadU16At(b, pos, f.desc.uid);
    AtConcat(b, pos + 2, [TypeByte(f.desc)], EncValue(f.desc, f.value));
    ReadU8At(b, pos + 2, TypeByte(f.desc));
    ValueAt(f.desc, f.value, b, pos + 3);
    var d := Find(desc, f.desc.uid);
    if d.Some? && TypeByte(d.value) == TypeByte(f.desc) {
      TypeByteInjective(d.value, f.desc);
    }
  }

  /** What a decoder with descriptor desc keeps of the fields it is sent, one after another. */
  function Absorb(desc: Desc, fs: seq<Field>, acc: Struct): Struct
    decreases |fs|
  {
    if fs == [] then acc else Absorb(desc, fs[1..], Put(acc, Taken(desc, fs[0])))
  }

  lemma {:induction false} FieldsAt(desc: Desc, fs: seq<Field>, b: Buf, pos: nat, acc: Struct)
    requires FitsFields(fs) && At(b, pos, EncFields(fs))
    ensures DecFields(desc, |fs|, b, pos, acc) == Filled(Absorb(desc, fs, acc), pos + |EncFields(fs)|)
    decreases |fs|
  {
    hide DecField, EncField, FitsValue, Taken;
    if fs != [] {
      AtConcat(b, pos, EncField(fs[0]), EncFields(fs[1..]));
      FieldAt(desc, fs[0], b, pos);
      FieldsAt(desc, fs[1..], b, pos + |EncField(fs[0])|, Put(acc, Taken(desc, fs[0])));
    }
  }

  lemma ListAt(desc: Desc, fs: seq<Field>, b: Buf, pos: nat)
    requires FitsFields(fs) && |fs| < 0x1_0000 && At(b, pos, EncList(fs))
    ensures DecStruct(desc, b, pos) == Got(Absorb(desc, fs, map[]), pos + |EncList(fs)|)
  {
    AtConcat(b, pos, U16(|fs|), EncFields(fs));
    ReadU16At(b, pos, |fs|);
    FieldsAt(desc, fs, b, pos + 2, map[]);
  }

  // ---- order does not matter ----

  ghost predicate DistinctFields(fs: seq<Field>) {
    forall i, j :: 0 <= i < j < |fs| ==> fs[i].desc.uid != fs[j].desc.uid
  }

  /** fs lists exactly the present fields of s, each once and with its descriptor, in any order. */
  ghost predicate Lists(desc: Desc, s: Struct, fs: seq<Field>) {
    DistinctFields(fs) &&
    (forall i :: 0 <= i < |fs| ==> fs[i].desc in desc && fs[i].desc.uid in s && fs[i].value == s[fs[i].desc.uid]) &&
    (forall u :: u in s ==> exists i :: 0 <= i < |fs| && fs[i].desc.uid == u)
  }

  /** The fields common to both descriptors, with the values the wire preserves. */
  function Common(d1: Desc, d2: Desc, s: Struct): Struct {
    map u | u in s && Find(d1, u).Some? && Known(d2, Find(d1, u).value) :: WireValue(s[u])
  }

  lemma {:induction false} AbsorbContent(desc: Desc, fs: seq<Field>, acc: Struct, u: u16)
    requires DistinctFields(fs)
    ensures (forall i :: 0 <= i < |fs| ==> fs[i].desc.uid != u || !Known(desc, fs[i].desc)) ==>
              (u in Absorb(desc, fs, acc) <==> u in acc) && (u in acc ==> Absorb(desc, fs, acc)[u] == acc[u])
    ensures forall i :: 0 <= i < |fs| && fs[i].desc.uid == u && Known(desc, fs[i].desc) ==>
              u in Absorb(desc, fs, acc) && Absorb(desc, fs, acc)[u] == WireValue(fs[i].value)
    decreases |fs|
  {
    if fs != [] {
      AbsorbContent(desc, fs[1..], Put(acc, Taken(desc, fs[0])), u);
      forall i | 0 <= i < |fs| && fs[i].desc.uid == u && Known(desc, fs[i].desc)
        ensures u in Absorb(desc, fs, acc) && Absorb(desc, fs, acc)[u] == WireValue(fs[i].value)
      {
        if i > 0 {
          assert fs[1..][i - 1] == fs[i];
        }
      }
    }
  }

  lemma {:induction false} DescInFind(desc: Desc, d: FieldDesc)
    requires DescOk(desc) && d in desc
    ensures Find(desc, d.uid) == Some(d)
  {
    if desc[0] != d {
      DescInFind(desc[1..], d);
    }
  }

  lemma AbsorbIsCommon(d1: Desc, d2: Desc, s: Struct, fs: seq<Field>)
    requires DescOk(d1) && Lists(d1, s, fs)
    ensures Absorb(d2, fs, map[]) == Common(d1, d2, s)
  {
    var r := Absorb(d2, fs, map[]);
    var c := Common(d1, d2, s);
    forall u: u16
      ensures (u in r <==> u in c) && (u in c ==> r[u] == c[u])
    {
      AbsorbContent(d2, fs, map[], u);
      if u in s {
        var i :| 0 <= i < |fs| && fs[i].desc.uid == u;
        DescInFind(d1, fs[i].desc);
      }
    }
  }

  lemma {:induction false} PresentLists(desc: Desc, s: Struct)
    requires DescOk(desc)
    ensures DistinctFields(Present(desc, s))
    ensures forall f :: f in Present(desc, s) <==> f.desc in desc && f.desc.uid in s && f.value == s[f.desc.uid]
  {
    if desc != [] {
      PresentLists(desc[1..], s);
      var rest := Present(desc[1..], s);
      forall j | 0 <= j < |rest|
        ensures rest[j].desc.uid != desc[0].uid
      {
        assert rest[j] in rest;
      }
      assert desc == [desc[0]] + desc[1..];
    }
  }

  lemma PresentIsListing(desc: Desc, s: Struct)
    requires DescOk(desc) && FitsStruct(desc, s)
    ensures Lists(desc, s, Present(desc, s))
  {
    PresentLists(desc, s);
    var fs := Present(desc, s);
    forall i | 0 <= i < |fs|
      ensures fs[i].desc in desc && fs[i].desc.uid in s && fs[i].value == s[fs[i].desc.uid]
    {
      assert fs[i] in fs;
    }
    forall u | u in s
      ensures exists i :: 0 <= i < |fs| && fs[i].desc.uid == u
    {
      var f := Field(Find(desc, u).value, s[u]);
      assert f in fs;
      var i :| 0 <= i < |fs| && fs[i] == f;
      assert fs[i].desc.uid == u;
    }
  }

  lemma ListedFits(desc: Desc, s: Struct, fs: seq<Field>)
    requires DescOk(desc) && FitsStruct(desc, s) && Lists(desc, s, fs)
    ensures FitsFields(fs)
  {
    forall i | 0 <= i < |fs|
      ensures FitsValue(fs[i].desc, fs[i].value)
    {
      DescInFind(desc, fs[i].desc);
    }
  }

  lemma {:induction false} PresentLength(desc: Desc, s: Struct)
    ensures |Present(desc, s)| <= |desc|
  {
    if desc != [] {
      PresentLength(desc[1..], s);
    }
  }

  lemma PresentFits(desc: Desc, s: Struct)
    requires DescOk(desc) && FitsStruct(desc, s)
    ensures FitsFields(Present(desc, s)) && |Present(desc, s)| < 0x1_0000
  {
    PresentIsListing(desc, s);
    ListedFits(desc, s, Present(desc, s));
    PresentLength(desc, s);
  }

  /** Schema evolution: whatever stands before and after it, a struct encoded under d1 decodes
      under d2 to exactly the fields whose uid and type the two share, and decoding consumes
      exactly the encoded bytes. */
  lemma SchemaEvolution(d1: Desc, d2: Desc, s: Struct, b: Buf, pos: nat)
    requires DescOk(d1) && FitsStruct(d1, s) && At(b, pos, EncStruct(d1, s))
    ensures DecStruct(d2, b, pos) == Got(Common(d1, d2, s), pos + |EncStruct(d1, s)|)
  {
    PresentFits(d1, s);
    ListAt(d2, Present(d1, s), b, pos);
    PresentIsListing(d1, s);
    AbsorbIsCommon(d1, d2, s, Present(d1, s));
  }

  lemma CommonWithSelf(d: Desc, s: Struct)
    requires DescOk(d) && FitsStruct(d, s)
    ensures Common(d, d, s) == WireStruct(s)
  {
    forall u | u in s
      ensures Known(d, Find(d, u).value)
    {
      DescInFind(d, Find(d, u).value);
    }
  }

  /** Same schema on both sides: the struct comes back, booleans as 0/1. */
  lemma RoundTrip(d: Desc, s: Struct, b: Buf, pos: nat)
    requires DescOk(d) && FitsStruct(d, s) && At(b, pos, EncStruct(d, s))
    ensures DecStruct(d, b, pos) == Got(WireStruct(s), pos + |EncStruct(d, s)|)
  {
    SchemaEvolution(d, d, s, b, pos);
    CommonWithSelf(d, s);
  }

  /** Commit commutes with the wire: merging the decoded event into a replica of the object
      gives what the server's own merge of the event gives. */
  lemma CommitCommutesWithWire(d: Desc, e: Struct, obj: Struct, b: Buf, pos: nat)
    requires DescOk(d) && FitsStruct(d, e) && At(b, pos, EncStruct(d, e))
    ensures DecStruct(d, b, pos).Got?
    ensures Merge(obj, DecStruct(d, b, pos).value) == Merge(obj, e)
  {
    RoundTrip(d, e, b, pos);
    CopyForgetsWire(e);
  }
}
