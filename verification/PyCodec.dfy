/** The Python struct writer (python/obus/data/obus_struct.py, python/obus/buffer.py) against the
    C format. */
module PyCodec {
  import opened Values
  import opened Bytes
  import opened Codec

  /** Python values: integers (enums through their driver), booleans, strings, and floats as the
      bit pattern struct.pack gives them. */
  datatype PyScalar = PyInt(i: int) | PyBool(b: bool) | PyStr(s: Option<seq<byte>>) | PyFloat(bits: nat)
  datatype PyValue = PyOne(x: PyScalar) | PyMany(xs: seq<PyScalar>)
  type PyFields = map<u16, PyValue>

  predicate Signed(t: Base) { t in {I8Type, I16Type, I32Type, I64Type, EnumType} }

  predicate Float(t: Base) { t in {F32Type, F64Type} }

  /** struct.pack accepts the value for this type. */
  predicate Packs(t: Base, v: PyScalar) {
    match t
    case StringType => v.PyStr? && (v.s.Some? ==> |v.s.value| + 1 < 0x1_0000_0000)
    case BoolType => v.PyBool?
    case F32Type => v.PyFloat? && v.bits < Limit(4)
    case F64Type => v.PyFloat? && v.bits < Limit(8)
    case _ =>
      v.PyInt? && if Signed(t) then -(Limit(Width(t)) / 2) <= v.i < Limit(Width(t)) / 2 else 0 <= v.i < Limit(Width(t))
  }

  /** The value as the C side will hold it: two's complement, 0/1, a string up to its first NUL. */
  function ToC(t: Base, v: PyScalar): Scalar
    requires Packs(t, v)
  {
    if t == StringType then Text(if v.s.None? then None else Some(UntilNul(v.s.value)))
    else if t == BoolType then Flag(if v.b then 1 else 0)
    else if Float(t) then Bits(v.bits)
    else Bits(if v.i < 0 then v.i + Limit(Width(t)) else v.i)
  }

  lemma ToCFits(t: Base, v: PyScalar)
    requires Packs(t, v)
    ensures FitsScalar(t, ToC(t, v)) && WireScalar(ToC(t, v)) == ToC(t, v)
  {
    if t == StringType && v.s.Some? {
      CutAtNul(v.s.value);
    }
  }

  /** Integers are two's complement: the bits are congruent to the number modulo the type's size. */
  lemma TwosComplement(t: Base, v: PyScalar)
    requires Packs(t, v) && v.PyInt?
    ensures ToC(t, v).Bits? && 0 <= ToC(t, v).raw < Limit(Width(t))
    ensures ToC(t, v).raw == v.i || ToC(t, v).raw == v.i + Limit(Width(t))
  {
  }

  lemma {:induction false} CutAtNul(s: seq<byte>)
    ensures 0 !in UntilNul(s) && |UntilNul(s)| <= |s|
    ensures UntilNul(s) == s <==> 0 !in s
  {
    if s != [] && s[0] != 0 {
      CutAtNul(s[1..]);
      assert s == [s[0]] + s[1..];
    }
  }

  // ---- what Python puts on the wire ----

  /** A string goes out whole, NULs inside included; everything else as in C. */
  ghost function PyEncScalar(t: Base, v: PyScalar): seq<byte>
    requires Packs(t, v)
  {
    ToCFits(t, v);
    if t == StringType && v.s.Some? then U32(|v.s.value| + 1) + (v.s.value + [0]) else EncScalar(t, ToC(t, v))
  }

  ghost function PyEncScalars(t: Base, xs: seq<PyScalar>): seq<byte>
    requires forall i :: 0 <= i < |xs| ==> Packs(t, xs[i])
  {
    if xs == [] then [] else PyEncScalar(t, xs[0]) + PyEncScalars(t, xs[1..])
  }

  predicate PacksValue(d: FieldDesc, v: PyValue) {
    if d.isArray
    then v.PyMany? && |v.xs| < 0x1_0000_0000 && forall i :: 0 <= i < |v.xs| ==> Packs(d.base, v.xs[i])
    else v.PyOne? && Packs(d.base, v.x)
  }

  ghost function PyEncValue(d: FieldDesc, v: PyValue): seq<byte>
    requires PacksValue(d, v)
  {
    if d.isArray then U32(|v.xs|) + PyEncScalars(d.base, v.xs) else PyEncScalar(d.base, v.x)
  }

  datatype PyField = PyField(desc: FieldDesc, value: PyValue)

  ghost function PyEncField(f: PyField): seq<byte>
    requires PacksValue(f.desc, f.value)
  {
    U16(f.desc.uid) + ([TypeByte(f.desc)] + PyEncValue(f.desc, f.value))
  }

  ghost predicate PacksAll(fs: seq<PyField>) { forall i :: 0 <= i < |fs| ==> PacksValue(fs[i].desc, fs[i].value) }

  ghost function PyEncFields(fs: seq<PyField>): seq<byte>
    requires PacksAll(fs)
  {
    if fs == [] then [] else PyEncField(fs[0]) + PyEncFields(fs[1..])
  }

  /** The present fields in the order the dictionary of descriptors yields them. */
  function PyPresent(order: Desc, m: PyFields): seq<PyField> {
    if order == [] then []
    else (if order[0].uid in m then [PyField(order[0], m[order[0].uid])] else []) + PyPresent(order[1..], m)
  }

  ghost predicate PacksFields(desc: Desc, m: PyFields) {
    forall u :: u in m ==> Find(desc, u).Some? && PacksValue(Find(desc, u).value, m[u])
  }

  lemma {:induction false} PyPresentFrom(desc: Desc, order: Desc, m: PyFields)
    requires DescOk(desc) && PacksFields(desc, m) && forall d :: d in order ==> d in desc
    ensures PacksAll(PyPresent(order, m)) && |PyPresent(order, m)| <= |order|
    decreases |order|
  {
    hide PacksValue;
    if order != [] {
      PyPresentFrom(desc, order[1..], m);
      DescInFind(desc, order[0]);
      var rest := PyPresent(order[1..], m);
      if order[0].uid in m {
        var all := [PyField(order[0], m[order[0].uid])] + rest;
        assert forall j :: 0 < j < |all| ==> all[j] == rest[j - 1];
      } else {
        assert [] + rest == rest;
      }
    }
  }

  /** The bytes Python writes for the fields it walks in the given order. */
  ghost function PyEncoding(order: Desc, m: PyFields): seq<byte>
    requires DescOk(order) && PacksFields(order, m)
  {
    PyPresentFrom(order, order, m);
    U16(|PyPresent(order, m)|) + PyEncFields(PyPresent(order, m))
  }

  // ---- what C makes of it ----

  /** A Python string arrives in C cut at its first NUL: whole if and only if it has none. */
  lemma StringArrivesWhole(s: seq<byte>, b: Buf, pos: nat)
    requires |s| + 1 < 0x1_0000_0000 && At(b, pos, U32(|s| + 1) + (s + [0]))
    ensures DecString(b, pos) == Got(Text(Some(UntilNul(s))), pos + 4 + |s| + 1)
    ensures SkipScalar(9, b, pos) == pos + 4 + |s| + 1
    ensures UntilNul(s) == s <==> 0 !in s
  {
    hide ReadU32, UntilNul, At, U32, SkipScalar, DecString;
    StringSizeAt(b, pos, s);
    StringAfterSize(b, pos, s);
    CutAtNul(s);
  }

  lemma StringSizeAt(b: Buf, pos: nat, s: seq<byte>)
    requires |s| + 1 < 0x1_0000_0000 && At(b, pos, U32(|s| + 1) + (s + [0]))
    ensures At(b, pos + 4, s) && pos + 4 + |s| + 1 <= b.len && ReadU32(b, pos) == Got(|s| + 1, pos + 4)
  {
    hide ReadU32;
    AtConcat(b, pos, U32(|s| + 1), s + [0]);
    ReadU32At(b, pos, |s| + 1);
    AtConcat(b, pos + 4, s, [0]);
  }

  lemma StringAfterSize(b: Buf, pos: nat, s: seq<byte>)
    requires At(b, pos + 4, s) && pos + 4 + |s| + 1 <= b.len && |s| + 1 < 0x1_0000_0000 && ReadU32(b, pos) == Got(|s| + 1, pos + 4)
    ensures DecString(b, pos) == Got(Text(Some(UntilNul(s))), pos + 4 + |s| + 1)
    ensures SkipScalar(9, b, pos) == pos + 4 + |s| + 1
  {
    hide ReadU32, UntilNul;
  }

  lemma PyScalarAt(t: Base, v: PyScalar, b: Buf, pos: nat)
    requires Packs(t, v) && At(b, pos, PyEncScalar(t, v))
    ensures DecScalar(t, b, pos) == Got(ToC(t, v), pos + |PyEncScalar(t, v)|)
    ensures SkipScalar(Code(t), b, pos) == pos + |PyEncScalar(t, v)|
  {
    hide DecString, SkipScalar, UntilNul, At, ReadU8, DecBits;
    ToCFits(t, v);
    if t == StringType && v.s.Some? {
      StringArrivesWhole(v.s.value, b, pos);
    } else {
      ScalarAt(t, ToC(t, v), b, pos);
    }
  }

  function ManyToC(t: Base, xs: seq<PyScalar>): seq<Scalar>
    requires forall i :: 0 <= i < |xs| ==> Packs(t, xs[i])
  {
    seq(|xs|, i requires 0 <= i < |xs| => ToC(t, xs[i]))
  }

  lemma {:induction false} PyScalarsAt(t: Base, xs: seq<PyScalar>, b: Buf, pos: nat)
    requires forall i :: 0 <= i < |xs| ==> Packs(t, xs[i])
    requires At(b, pos, PyEncScalars(t, xs))
    ensures DecScalars(t, |xs|, b, pos) == Got(ManyToC(t, xs), pos + |PyEncScalars(t, xs)|)
    ensures SkipScalars(Code(t), |xs|, b, pos) == pos + |PyEncScalars(t, xs)|
    decreases |xs|
  {
    hide DecScalar, SkipScalar, PyEncScalar, Packs, ToC;
    if xs != [] {
      AtConcat(b, pos, PyEncScalar(t, xs[0]), PyEncScalars(t, xs[1..]));
      PyScalarAt(t, xs[0], b, pos);
      PyScalarsAt(t, xs[1..], b, pos + |PyEncScalar(t, xs[0])|);
      assert ManyToC(t, xs) == [ToC(t, xs[0])] + ManyToC(t, xs[1..]);
    }
  }

  function ValueToC(d: FieldDesc, v: PyValue): Value
    requires PacksValue(d, v)
  {
    if d.isArray then Many(ManyToC(d.base, v.xs)) else One(ToC(d.base, v.x))
  }

  lemma PyValueAt(d: FieldDesc, v: PyValue, b: Buf, pos: nat)
    requires PacksValue(d, v) && At(b, pos, PyEncValue(d, v))
    ensures DecValue(d, b, pos) == Got(ValueToC(d, v), pos + |PyEncValue(d, v)|)
    ensures SkipValue(TypeByte(d), b, pos) == pos + |PyEncValue(d, v)|
  {
    hide DecScalar, DecScalars, SkipScalar, SkipScalars, PyEncScalar, PyEncScalars, Packs, ToC, ReadU32, At;
    CodeRoundTrip(d);
    if d.isArray {
      AtConcat(b, pos, U32(|v.xs|), PyEncScalars(d.base, v.xs));
      ReadU32At(b, pos, |v.xs|);
      PyScalarsAt(d.base, v.xs, b, pos + 4);
    } else {
      PyScalarAt(d.base, v.x, b, pos);
    }
  }

  /** A Python field as C will hold it. */
  function FieldToC(f: PyField): Field
    requires PacksValue(f.desc, f.value)
  {
    Field(f.desc, ValueToC(f.desc, f.value))
  }

  lemma ValueToCFits(d: FieldDesc, v: PyValue)
    requires PacksValue(d, v)
    ensures FitsValue(d, ValueToC(d, v)) && WireValue(ValueToC(d, v)) == ValueToC(d, v)
  {
    hide Packs, ToC, FitsScalar, WireScalar;
    if d.isArray {
      forall i | 0 <= i < |v.xs|
        ensures FitsScalar(d.base, ToC(d.base, v.xs[i])) && WireScalar(ToC(d.base, v.xs[i])) == ToC(d.base, v.xs[i])
      {
        ToCFits(d.base, v.xs[i]);
      }
    } else {
      ToCFits(d.base, v.x);
    }
  }

  lemma PyFieldAt(desc: Desc, f: PyField, b: Buf, pos: nat)
    requires PacksValue(f.desc, f.value) && At(b, pos, PyEncField(f))
    ensures DecField(desc, b, pos) == Decoded(Taken(desc, FieldToC(f)), pos + |PyEncField(f)|)
  {
    hide DecValue, SkipValue, PyEncValue, PacksValue, ValueToC, ReadU8, ReadU16, TypeByte, At, Find;
    AtConcat(b, pos, U16(f.desc.uid), [TypeByte(f.desc)] + PyEncValue(f.desc, f.value));
    ReadU16At(b, pos, f.desc.uid);
    AtConcat(b, pos + 2, [TypeByte(f.desc)], PyEncValue(f.desc, f.value));
    ReadU8At(b, pos + 2, TypeByte(f.desc));
    PyValueAt(f.desc, f.value, b, pos + 3);
    ValueToCFits(f.desc, f.value);
    var d := Find(desc, f.desc.uid);
    if d.Some? && TypeByte(d.value) == TypeByte(f.desc) {
      TypeByteInjective(d.value, f.desc);
    }
  }

  function FieldsToC(fs: seq<PyField>): seq<Field>
    requires forall i :: 0 <= i < |fs| ==> PacksValue(fs[i].desc, fs[i].value)
  {
    if fs == [] then [] else [FieldToC(fs[0])] + FieldsToC(fs[1..])
  }

  lemma {:induction false} PyFieldsAt(desc: Desc, fs: seq<PyField>, b: Buf, pos: nat, acc: Struct)
    requires PacksAll(fs) && At(b, pos, PyEncFields(fs))
    ensures DecFields(desc, |fs|, b, pos, acc) == Filled(Absorb(desc, FieldsToC(fs), acc), pos + |PyEncFields(fs)|)
    decreases |fs|
  {
    hide DecField, PyEncField, PacksValue, FieldToC, Taken;
    if fs != [] {
      AtConcat(b, pos, PyEncField(fs[0]), PyEncFields(fs[1..]));
      PyFieldAt(desc, fs[0], b, pos);
      PyFieldsAt(desc, fs[1..], b, pos + |PyEncField(fs[0])|, Put(acc, Taken(desc, FieldToC(fs[0]))));
    }
  }

  ghost function StructToC(desc: Desc, m: PyFields): Struct
    requires PacksFields(desc, m)
  {
    map u | u in m :: ValueToC(Find(desc, u).value, m[u])
  }

  lemma StructToCFits(desc: Desc, m: PyFields)
    requires PacksFields(desc, m)
    ensures FitsStruct(desc, StructToC(desc, m)) && WireStruct(StructToC(desc, m)) == StructToC(desc, m)
  {
    hide PacksValue, ValueToC, FitsValue, WireValue;
    forall u | u in m
      ensures FitsValue(Find(desc, u).value, ValueToC(Find(desc, u).value, m[u]))
      ensures WireValue(ValueToC(Find(desc, u).value, m[u])) == ValueToC(Find(desc, u).value, m[u])
    {
      ValueToCFits(Find(desc, u).value, m[u]);
    }
  }

  /** What Python emits is what the C encoder would emit of the struct as C will hold it. */
  lemma {:induction false} PresentToC(desc: Desc, order: Desc, m: PyFields)
    requires DescOk(desc) && PacksFields(desc, m) && forall d :: d in order ==> d in desc
    ensures PacksAll(PyPresent(order, m)) && FieldsToC(PyPresent(order, m)) == Present(order, StructToC(desc, m))
    decreases |order|
  {
    hide PacksValue, ValueToC;
    PyPresentFrom(desc, order, m);
    if order != [] {
      PyPresentFrom(desc, order[1..], m);
      PresentToC(desc, order[1..], m);
      DescInFind(desc, order[0]);
      var rest := PyPresent(order[1..], m);
      if order[0].uid in m {
        var f := PyField(order[0], m[order[0].uid]);
        assert PyPresent(order, m) == [f] + rest && ([f] + rest)[1..] == rest;
      } else {
        assert PyPresent(order, m) == rest;
      }
    }
  }

  /** The order in which a Python dictionary yields the same descriptors. */
  ghost predicate Reorders(desc: Desc, order: Desc) {
    DescOk(order) && forall d :: d in order <==> d in desc
  }

  lemma SameLookup(desc: Desc, order: Desc, u: u16)
    requires DescOk(desc) && Reorders(desc, order)
    ensures Find(order, u) == Find(desc, u)
  {
    var d, o := Find(desc, u), Find(order, u);
    if d.Some? {
      DescInFind(order, d.value);
    }
    if o.Some? {
      DescInFind(desc, o.value);
    }
  }

  lemma SameStruct(desc: Desc, order: Desc, d2: Desc, s: Struct)
    requires DescOk(desc) && Reorders(desc, order)
    ensures Common(order, d2, s) == Common(desc, d2, s) && (FitsStruct(order, s) <==> FitsStruct(desc, s))
  {
    hide FitsValue, WireValue, Find, Reorders;
    forall u: u16
      ensures Find(order, u) == Find(desc, u)
    {
      SameLookup(desc, order, u);
    }
  }

  /** Fields are tagged, so their order on the wire does not matter: whatever order the sender
      walks its descriptors in, a receiver with descriptor d2 gets the same struct. */
  lemma OrderIndependence(desc: Desc, order: Desc, d2: Desc, s: Struct, b: Buf, pos: nat)
    requires DescOk(desc) && Reorders(desc, order) && FitsStruct(desc, s)
    requires FitsStruct(order, s) && At(b, pos, EncStruct(order, s))
    ensures DecStruct(d2, b, pos) == Got(Common(desc, d2, s), pos + |EncStruct(order, s)|)
  {
    hide DecStruct, EncStruct, FitsStruct, Common, At, DescOk;
    assert DescOk(order) by { ReordersOk(desc, order); }
    SchemaEvolution(order, d2, s, b, pos);
    SameStruct(desc, order, d2, s);
  }

  lemma ReordersOk(desc: Desc, order: Desc)
    requires Reorders(desc, order)
    ensures DescOk(order)
  {
  }

  lemma SamePacking(desc: Desc, order: Desc, m: PyFields)
    requires DescOk(desc) && Reorders(desc, order) && PacksFields(desc, m)
    ensures PacksFields(order, m) && StructToC(order, m) == StructToC(desc, m)
  {
    hide PacksValue, ValueToC, Find, Reorders;
    forall u: u16
      ensures Find(order, u) == Find(desc, u)
    {
      SameLookup(desc, order, u);
    }
  }

  lemma PyListAt(order: Desc, m: PyFields, d2: Desc, b: Buf, pos: nat)
    requires DescOk(order) && PacksFields(order, m) && At(b, pos, PyEncoding(order, m))
    ensures PacksAll(PyPresent(order, m))
    ensures DecStruct(d2, b, pos) == Got(Absorb(d2, FieldsToC(PyPresent(order, m)), map[]), pos + |PyEncoding(order, m)|)
  {
    hide DecFields, PyEncFields, PyPresent, FieldsToC, Absorb, ReadU16, At, DescOk, PacksFields;
    PyCountFits(order, m);
    var fs := PyPresent(order, m);
    AtConcat(b, pos, U16(|fs|), PyEncFields(fs));
    ReadU16At(b, pos, |fs|);
    PyFieldsAt(d2, fs, b, pos + 2, map[]);
  }

  lemma PyCountFits(order: Desc, m: PyFields)
    requires DescOk(order) && PacksFields(order, m)
    ensures PacksAll(PyPresent(order, m)) && |PyPresent(order, m)| < 0x1_0000
  {
    PyPresentFrom(order, order, m);
  }

  /** A struct written by Python with its fields in any order gives a C receiver with any
      descriptor d2 exactly the fields both know, and consumes exactly its bytes. */
  lemma PythonToC(desc: Desc, order: Desc, m: PyFields, d2: Desc, b: Buf, pos: nat)
    requires DescOk(desc) && Reorders(desc, order) && PacksFields(desc, m)
    requires PacksFields(order, m) && At(b, pos, PyEncoding(order, m))
    ensures DecStruct(d2, b, pos) == Got(Common(desc, d2, StructToC(desc, m)), pos + |PyEncoding(order, m)|)
    ensures DecStruct(desc, b, pos) == Got(StructToC(desc, m), pos + |PyEncoding(order, m)|)
  {
    hide DecStruct, PyEncoding, FitsStruct, Common, At, Absorb, PyPresent, FieldsToC, StructToC, DescOk, PacksFields;
    ReordersOk(desc, order);
    SamePacking(desc, order, m);
    var s := StructToC(desc, m);
    StructToCFits(order, m);
    PresentToC(order, order, m);
    PresentIsListing(order, s);
    PyListAt(order, m, d2, b, pos);
    AbsorbIsCommon(order, d2, s, Present(order, s));
    SameStruct(desc, order, d2, s);
    PyListAt(order, m, desc, b, pos);
    AbsorbIsCommon(order, desc, s, Present(order, s));
    SameStruct(desc, order, desc, s);
    CommonWithSelf(desc, s);
    StructToCFits(desc, m);
  }

  // ---- the writer as it works ----

  class PyBuffer {
    var data: seq<byte>

    constructor ()
      ensures data == []
    {
      data := [];
    }

    method WriteBuf(bytes: seq<byte>)
      modifies this
      ensures data == old(data) + bytes
    {
      data := data + bytes;
    }

    /** struct.pack of an integer, signed or not, in big-endian order. */
    method WriteInt(width: nat, v: int)
      requires width in {1, 2, 4, 8} && -(Limit(width) / 2) <= v < Limit(width)
      modifies this
      ensures data == old(data) + EncBits(width, if v < 0 then v + Limit(width) else v)
    {
      var u := if v < 0 then v + Limit(width) else v;
      if width == 1 {
        WriteBuf([u]);
      } else if width == 2 {
        WriteBuf(U16(u));
      } else if width == 4 {
        WriteBuf(U32(u));
      } else {
        WriteBuf(U64(u));
      }
    }

    method WriteString(s: Option<seq<byte>>)
      requires s.Some? ==> |s.value| + 1 < 0x1_0000_0000
      modifies this
      ensures data == old(data) + if s.None? then U32(0) else U32(|s.value| + 1) + (s.value + [0])
    {
      if s.None? {
        WriteBuf(U32(0));
      } else {
        WriteBuf(U32(|s.value| + 1) + (s.value + [0]));
      }
    }

    /** _encodeField. */
    method EncodeScalar(t: Base, v: PyScalar)
      requires Packs(t, v)
      modifies this
      ensures data == old(data) + PyEncScalar(t, v)
    {
      ToCFits(t, v);
      if t == StringType {
        WriteString(v.s);
      } else if t == BoolType {
        WriteInt(1, if v.b then 1 else 0);
      } else if Float(t) {
        WriteInt(Width(t), v.bits);
      } else {
        WriteInt(Width(t), v.i);
      }
    }

    /** _encodeArray. */
    method EncodeArray(t: Base, xs: seq<PyScalar>)
      requires |xs| < 0x1_0000_0000 && forall i :: 0 <= i < |xs| ==> Packs(t, xs[i])
      modifies this
      ensures data == old(data) + (U32(|xs|) + PyEncScalars(t, xs))
    {
      hide Packs, PyEncScalar, U32;
      WriteInt(4, |xs|);
      ghost var start := data;
      var i := 0;
      assert xs[0..] == xs;
      while i < |xs|
        invariant 0 <= i <= |xs|
        invariant data + PyEncScalars(t, xs[i..]) == start + PyEncScalars(t, xs)
      {
        assert xs[i..][0] == xs[i] && xs[i..][1..] == xs[i + 1..];
        ghost var before, rest := data, PyEncScalars(t, xs[i + 1..]);
        EncodeScalar(t, xs[i]);
        Regroup(before, PyEncScalar(t, xs[i]), rest);
        i := i + 1;
      }
      Regroup(old(data), U32(|xs|), PyEncScalars(t, xs));
    }

    method EncodeField(f: PyField)
      requires PacksValue(f.desc, f.value)
      modifies this
      ensures data == old(data) + PyEncField(f)
    {
      hide Packs, PyEncScalar, PyEncScalars, U16, U32, TypeByte;
      var d, v := f.desc, f.value;
      WriteInt(2, d.uid);
      WriteInt(1, TypeByte(d));
      if d.isArray {
        EncodeArray(d.base, v.xs);
      } else {
        EncodeScalar(d.base, v.x);
      }
      ghost var e := PyEncValue(d, v);
      Regroup(old(data), U16(d.uid), [TypeByte(d)]);
      Regroup(old(data), U16(d.uid) + [TypeByte(d)], e);
      Regroup(U16(d.uid), [TypeByte(d)], e);
    }

    /** ObusStruct.encode: the descriptors in the order the dictionary yields them. */
    method EncodeStruct(order: Desc, m: PyFields)
      requires DescOk(order) && PacksFields(order, m)
      modifies this
      ensures data == old(data) + PyEncoding(order, m)
    {
      hide PyEncFields, PyPresent, PacksAll, U16, DescOk, PacksFields;
      PyCountFits(order, m);
      ghost var fs := PyPresent(order, m);
      var n := CountFields(order, m);
      WriteInt(2, n);
      EncodeFields(order, m);
      Regroup(old(data), U16(|fs|), PyEncFields(fs));
    }

    static method CountFields(order: Desc, m: PyFields) returns (n: nat)
      ensures n == |PyPresent(order, m)|
    {
      n := 0;
      var i := 0;
      assert order[0..] == order;
      while i < |order|
        invariant 0 <= i <= |order| && n + |PyPresent(order[i..], m)| == |PyPresent(order, m)|
      {
        assert order[i..][0] == order[i] && order[i..][1..] == order[i + 1..];
        if order[i].uid in m {
          n := n + 1;
        }
        i := i + 1;
      }
    }

    method EncodeFields(order: Desc, m: PyFields)
      requires PacksAll(PyPresent(order, m))
      modifies this
      ensures data == old(data) + PyEncFields(PyPresent(order, m))
    {
      hide PyEncField, PyEncFields, PyPresent, PacksAll, PacksValue;
      PyPresentEnds(order, m);
      ghost var start := data;
      var i := 0;
      assert order[0..] == order;
      while i < |order|
        invariant 0 <= i <= |order| && PacksAll(PyPresent(order[i..], m))
        invariant data + PyEncFields(PyPresent(order[i..], m)) == start + PyEncFields(PyPresent(order, m))
      {
        PyPresentStep(order, m, i);
        if order[i].uid in m {
          var f := PyField(order[i], m[order[i].uid]);
          ghost var before := data;
          EncodeField(f);
          Regroup(before, PyEncField(f), PyEncFields(PyPresent(order[i + 1..], m)));
        }
        i := i + 1;
      }
    }
  }

  lemma Regroup(a: seq<byte>, b: seq<byte>, c: seq<byte>)
    ensures a + (b + c) == (a + b) + c
  {
  }

  lemma PyPresentEnds(order: Desc, m: PyFields)
    ensures PyPresent(order[|order|..], m) == [] && PacksAll([]) && PyEncFields([]) == []
  {
  }

  /** What one turn of the loop over the descriptors writes. */
  lemma PyPresentStep(order: Desc, m: PyFields, i: nat)
    requires i < |order| && PacksAll(PyPresent(order[i..], m))
    ensures PacksAll(PyPresent(order[i + 1..], m))
    ensures order[i].uid !in m ==> PyPresent(order[i..], m) == PyPresent(order[i + 1..], m)
    ensures order[i].uid in m ==>
              var f := PyField(order[i], m[order[i].uid]);
              PacksValue(f.desc, f.value) &&
              PyEncFields(PyPresent(order[i..], m)) == PyEncField(f) + PyEncFields(PyPresent(order[i + 1..], m))
  {
    hide PacksValue, PyEncField;
    assert order[i..][0] == order[i] && order[i..][1..] == order[i + 1..];
    var rest := PyPresent(order[i + 1..], m);
    if order[i].uid in m {
      var f := PyField(order[i], m[order[i].uid]);
      var all := [f] + rest;
      assert PyPresent(order[i..], m) == all;
      assert all[0] == f && all[1..] == rest;
      assert forall j :: 0 <= j < |rest| ==> rest[j] == all[j + 1];
    } else {
      assert PyPresent(order[i..], m) == rest;
    }
  }
}
