/** What a decoded struct depends on. Every read of obus_buffer.h is bounded by the filled length
    except the 64-bit one, which is bounded by the allocated size. */
module Bounds {
  import opened Values
  import opened Bytes
  import opened Codec
  import opened Bus
  import opened Packets

  /** A buffer whose filled part is s, whatever memory is allocated behind it. */
  ghost predicate Holds(b: Buf, s: seq<byte>) { b.Valid() && b.len == |s| && b.mem[..b.len] == s }

  /** The same bytes with no memory to spare. */
  function Exact(s: seq<byte>): Buf { Buf(s, |s|) }

  // ---- fields that run past the filled bytes ----

  /** n scalars of eight bytes each that do not fit into what is filled. */
  predicate OverScalars(t: Base, n: nat, b: Buf, pos: nat) { Width(t) == 8 && n > 0 && pos + 8 * n > b.len }

  predicate OverValue(d: FieldDesc, b: Buf, pos: nat)
    requires b.Valid()
  {
    if d.isArray then
      var n := ReadU32(b, pos);
      n.Got? && OverScalars(d.base, n.value, b, n.next)
    else OverScalars(d.base, 1, b, pos)
  }

  predicate OverField(desc: Desc, b: Buf, pos: nat)
    requires b.Valid()
  {
    var uid := ReadU16(b, pos);
    uid.Got? &&
    var typ := ReadU8(b, uid.next);
    typ.Got? &&
    var d := Find(desc, uid.value);
    d.Some? && TypeByte(d.value) == typ.value && OverValue(d.value, b, typ.next)
  }

  predicate OverFields(desc: Desc, n: nat, b: Buf, pos: nat)
    requires b.Valid()
    decreases n
  {
    n > 0 && (OverField(desc, b, pos) || OverFields(desc, n - 1, b, DecField(desc, b, pos).next))
  }

  /** One of the fields the struct announces is a known 64-bit scalar or array that the filled
      bytes do not hold completely. */
  predicate OverStruct(desc: Desc, b: Buf, pos: nat)
    requires b.Valid()
  {
    var n := ReadU16(b, pos);
    n.Got? && OverFields(desc, n.value, b, n.next)
  }

  // ---- otherwise only the filled bytes matter ----

  lemma ReadsInside(b: Buf, s: seq<byte>, pos: nat)
    requires Holds(b, s)
    ensures ReadU8(b, pos) == ReadU8(Exact(s), pos) && ReadU16(b, pos) == ReadU16(Exact(s), pos)
    ensures ReadU32(b, pos) == ReadU32(Exact(s), pos)
  {
    assert forall i :: 0 <= i < |s| ==> b.mem[i] == b.mem[..b.len][i];
  }

  lemma WideReadInside(b: Buf, s: seq<byte>, pos: nat)
    requires Holds(b, s) && pos + 8 <= |s|
    ensures ReadU64(b, pos) == ReadU64(Exact(s), pos)
  {
    hide FromU32;
    assert forall i :: 0 <= i < |s| ==> b.mem[i] == b.mem[..b.len][i];
  }

  lemma SliceOfPrefix(m: seq<byte>, len: nat, i: nat, j: nat)
    requires i <= j <= len <= |m|
    ensures m[i..j] == m[..len][i..j]
  {
  }

  lemma StringInside(b: Buf, s: seq<byte>, pos: nat)
    requires Holds(b, s)
    ensures DecString(b, pos) == DecString(Exact(s), pos)
  {
    hide ReadU32, UntilNul;
    ReadsInside(b, s, pos);
    var n := ReadU32(b, pos);
    if n.Got? && n.value > 0 && n.next + n.value <= |s| {
      SliceOfPrefix(b.mem, b.len, n.next, n.next + n.value - 1);
    }
  }

  lemma ScalarInside(t: Base, b: Buf, s: seq<byte>, pos: nat)
    requires Holds(b, s) && !OverScalars(t, 1, b, pos)
    ensures DecScalar(t, b, pos) == DecScalar(t, Exact(s), pos)
  {
    hide DecString, ReadU8, ReadU16, ReadU32, ReadU64, Holds;
    ReadsInside(b, s, pos);
    if t == StringType {
      StringInside(b, s, pos);
    } else if Width(t) == 8 {
      assert b.len == |s| by { HoldsLength(b, s); }
      WideReadInside(b, s, pos);
    }
  }

  lemma HoldsLength(b: Buf, s: seq<byte>)
    requires Holds(b, s)
    ensures b.Valid() && b.len == |s|
  {
  }

  lemma WideNext(t: Base, b: Buf, pos: nat)
    requires b.Valid() && Width(t) == 8
    ensures DecScalar(t, b, pos) == (var r := ReadU64(b, pos); if r.Fail? then Fail else Got(Bits(r.value), r.next))
  {
  }

  lemma {:induction false} ScalarsInside(t: Base, n: nat, b: Buf, s: seq<byte>, pos: nat)
    requires Holds(b, s) && !OverScalars(t, n, b, pos)
    ensures DecScalars(t, n, b, pos) == DecScalars(t, n, Exact(s), pos)
    decreases n
  {
    hide DecScalar, Holds;
    HoldsLength(b, s);
    if n > 0 {
      ScalarInside(t, b, s, pos);
      var x := DecScalar(t, b, pos);
      if Width(t) == 8 {
        WideNext(t, b, pos);
      }
      if x.Got? {
        ScalarsInside(t, n - 1, b, s, x.next);
      }
    }
  }

  lemma ValueInside(d: FieldDesc, b: Buf, s: seq<byte>, pos: nat)
    requires Holds(b, s) && !OverValue(d, b, pos)
    ensures DecValue(d, b, pos) == DecValue(d, Exact(s), pos)
  {
    hide DecScalar, DecScalars, ReadU32, Holds;
    HoldsLength(b, s);
    ReadsInside(b, s, pos);
    if d.isArray {
      var n := ReadU32(b, pos);
      if n.Got? {
        ScalarsInside(d.base, n.value, b, s, n.next);
      }
    } else {
      ScalarInside(d.base, b, s, pos);
    }
  }

  lemma SkipScalarInside(code: nat, b: Buf, s: seq<byte>, pos: nat)
    requires Holds(b, s)
    ensures SkipScalar(code, b, pos) == SkipScalar(code, Exact(s), pos)
  {
    hide ReadU32, BaseOf;
    ReadsInside(b, s, pos);
  }

  lemma {:induction false} SkipScalarsInside(code: nat, n: nat, b: Buf, s: seq<byte>, pos: nat)
    requires Holds(b, s)
    ensures SkipScalars(code, n, b, pos) == SkipScalars(code, n, Exact(s), pos)
    decreases n
  {
    hide SkipScalar, Holds;
    HoldsLength(b, s);
    if n > 0 {
      SkipScalarInside(code, b, s, pos);
      SkipScalarsInside(code, n - 1, b, s, SkipScalar(code, b, pos));
    }
  }

  lemma SkipInside(typ: byte, b: Buf, s: seq<byte>, pos: nat)
    requires Holds(b, s)
    ensures SkipValue(typ, b, pos) == SkipValue(typ, Exact(s), pos)
  {
    hide SkipScalar, SkipScalars, ReadU32, Holds;
    HoldsLength(b, s);
    ReadsInside(b, s, pos);
    SkipScalarInside(typ % 0x80, b, s, pos);
    var n := ReadU32(b, pos);
    if n.Got? {
      SkipScalarsInside(typ % 0x80, n.value, b, s, n.next);
    }
  }

  lemma FieldInside(desc: Desc, b: Buf, s: seq<byte>, pos: nat)
    requires Holds(b, s) && !OverField(desc, b, pos)
    ensures DecField(desc, b, pos) == DecField(desc, Exact(s), pos)
  {
    hide ReadU8, ReadU16, DecValue, SkipValue, OverValue, Holds, Find, TypeByte;
    HoldsLength(b, s);
    ReadsInside(b, s, pos);
    var uid := ReadU16(b, pos);
    if uid.Got? {
      ReadsInside(b, s, uid.next);
      var typ := ReadU8(b, uid.next);
      if typ.Got? {
        SkipInside(typ.value, b, s, typ.next);
        var d := Find(desc, uid.value);
        if d.Some? && TypeByte(d.value) == typ.value {
          ValueInside(d.value, b, s, typ.next);
        }
      }
    }
  }

  /** Whether a field runs over is itself read off the filled bytes. */
  lemma OverFieldInside(desc: Desc, b: Buf, s: seq<byte>, pos: nat)
    requires Holds(b, s)
    ensures OverField(desc, b, pos) == OverField(desc, Exact(s), pos)
  {
    hide ReadU8, ReadU16, ReadU32, Holds, Find, TypeByte;
    HoldsLength(b, s);
    ReadsInside(b, s, pos);
    var uid := ReadU16(b, pos);
    if uid.Got? {
      ReadsInside(b, s, uid.next);
      var typ := ReadU8(b, uid.next);
      if typ.Got? {
        ReadsInside(b, s, typ.next);
      }
    }
  }

  lemma {:induction false} FieldsInside(desc: Desc, n: nat, b: Buf, s: seq<byte>, pos: nat, acc: Struct)
    requires Holds(b, s) && !OverFields(desc, n, Exact(s), pos)
    ensures DecFields(desc, n, b, pos, acc) == DecFields(desc, n, Exact(s), pos, acc)
    decreases n
  {
    hide DecField, OverField, Holds;
    HoldsLength(b, s);
    if n > 0 {
      OverFieldInside(desc, b, s, pos);
      FieldInside(desc, b, s, pos);
      var f := DecField(desc, b, pos);
      FieldsInside(desc, n - 1, b, s, f.next, Put(acc, f.field));
    }
  }

  lemma StructInside(desc: Desc, b: Buf, s: seq<byte>, pos: nat)
    requires Holds(b, s) && !OverStruct(desc, Exact(s), pos)
    ensures DecStruct(desc, b, pos) == DecStruct(desc, Exact(s), pos)
  {
    hide ReadU16, DecFields, OverFields, Holds;
    HoldsLength(b, s);
    ReadsInside(b, s, pos);
    var n := ReadU16(b, pos);
    if n.Got? {
      FieldsInside(desc, n.value, b, s, n.next, map[]);
    }
  }

  // ---- and a field that runs over shows what lies behind them ----

  const SPARE: nat := 8 * 0x1_0000_0000

  /** Plenty of memory behind the filled bytes, all of it x. */
  ghost function Padded(s: seq<byte>, x: byte): Buf { Buf(s + seq(SPARE, i requires 0 <= i < SPARE => x), |s|) }

  lemma PaddedBytes(s: seq<byte>, x: byte)
    ensures Holds(Padded(s, x), s) && |Padded(s, x).mem| == |s| + SPARE
    ensures forall i :: |s| <= i < |s| + SPARE ==> Padded(s, x).mem[i] == x
  {
    assert Padded(s, x).mem[..|s|] == s;
  }

  lemma PaddedBelow(s: seq<byte>)
    ensures Below(Padded(s, 0), Padded(s, 1))
  {
  }

  /** Byte for byte, one memory is no larger than the other. */
  ghost predicate Below(a: Buf, b: Buf) {
    a.Valid() && b.Valid() && |a.mem| == |b.mem| && forall i :: 0 <= i < |a.mem| ==> a.mem[i] <= b.mem[i]
  }

  lemma WideReadGrows(a: Buf, b: Buf, pos: nat)
    requires Below(a, b) && pos + 8 <= |a.mem| && a.mem[pos + 7] < b.mem[pos + 7]
    ensures ReadU64(a, pos).Got? && ReadU64(b, pos).Got? && ReadU64(a, pos).value < ReadU64(b, pos).value
  {
    FromU32Grows(a.mem[pos], a.mem[pos + 1], a.mem[pos + 2], a.mem[pos + 3], b.mem[pos], b.mem[pos + 1], b.mem[pos + 2], b.mem[pos + 3]);
    FromU32Grows(a.mem[pos + 4], a.mem[pos + 5], a.mem[pos + 6], a.mem[pos + 7], b.mem[pos + 4], b.mem[pos + 5], b.mem[pos + 6], b.mem[pos + 7]);
    hide FromU32;
  }

  lemma FromU32Grows(a: byte, b: byte, c: byte, d: byte, e: byte, f: byte, g: byte, h: byte)
    requires a <= e && b <= f && c <= g && d <= h
    ensures FromU32(a, b, c, d) <= FromU32(e, f, g, h)
    ensures d < h ==> FromU32(a, b, c, d) < FromU32(e, f, g, h)
  {
  }

  /** As long as memory is allocated, 64-bit scalars are read, and the last one shows its last byte. */
  lemma {:induction false} WideScalars(t: Base, n: nat, a: Buf, b: Buf, pos: nat)
    requires Below(a, b) && Width(t) == 8 && n > 0 && pos + 8 * n <= |a.mem| && a.mem[pos + 8 * n - 1] < b.mem[pos + 8 * n - 1]
    ensures var r, q := DecScalars(t, n, a, pos), DecScalars(t, n, b, pos);
            r.Got? && q.Got? && r.value != q.value && r.next == q.next == pos + 8 * n
    decreases n
  {
    hide DecScalar, ReadU64, Below;
    assert a.Valid() && b.Valid() && |a.mem| == |b.mem| by { BelowSizes(a, b); }
    WideNext(t, a, pos);
    WideNext(t, b, pos);
    WideAdvances(a, pos);
    WideAdvances(b, pos);
    if n == 1 {
      WideReadGrows(a, b, pos);
      var x, y := ReadU64(a, pos).value, ReadU64(b, pos).value;
      assert DecScalars(t, 0, a, pos + 8) == Got([], pos + 8) && DecScalars(t, 0, b, pos + 8) == Got([], pos + 8);
      assert ([Bits(x)] + [])[0] == Bits(x) && ([Bits(y)] + [])[0] == Bits(y);
    } else {
      WideScalars(t, n - 1, a, b, pos + 8);
      var x, y := ReadU64(a, pos).value, ReadU64(b, pos).value;
      var r, q := DecScalars(t, n - 1, a, pos + 8), DecScalars(t, n - 1, b, pos + 8);
      assert ([Bits(x)] + r.value)[1..] == r.value && ([Bits(y)] + q.value)[1..] == q.value;
    }
  }

  lemma BelowSizes(a: Buf, b: Buf)
    requires Below(a, b)
    ensures a.Valid() && b.Valid() && |a.mem| == |b.mem|
  {
  }

  lemma WideAdvances(b: Buf, pos: nat)
    requires b.Valid()
    ensures ReadU64(b, pos).Got? <==> pos + 8 <= |b.mem|
    ensures ReadU64(b, pos).Got? ==> ReadU64(b, pos).next == pos + 8
  {
  }

  /** A value that runs over is read from spare memory, and the read ends behind the filled part. */
  lemma ValueOver(d: FieldDesc, s: seq<byte>, pos: nat)
    requires pos <= |s| && OverValue(d, Exact(s), pos)
    ensures var r, q := DecValue(d, Padded(s, 0), pos), DecValue(d, Padded(s, 1), pos);
            r.Got? && q.Got? && r.value != q.value && r.next == q.next > |s|
  {
    var a, b := Padded(s, 0), Padded(s, 1);
    hide Padded, DecScalars, ReadU32, ReadU64, Holds, Below;
    PaddedBytes(s, 0);
    PaddedBytes(s, 1);
    HoldsLength(a, s);
    HoldsLength(b, s);
    PaddedBelow(s);
    if d.isArray {
      ReadsInside(a, s, pos);
      ReadsInside(b, s, pos);
      var n := ReadU32(a, pos);
      ReadAdvances(a, pos);
      ReadAdvances(Exact(s), pos);
      WideScalars(d.base, n.value, a, b, n.next);
    } else {
      WideNext(d.base, a, pos);
      WideNext(d.base, b, pos);
      WideReadGrows(a, b, pos);
      WideAdvances(a, pos);
      WideAdvances(b, pos);
    }
  }

  lemma ReadAdvances(b: Buf, pos: nat)
    requires b.Valid()
    ensures ReadU8(b, pos).Got? ==> ReadU8(b, pos).next == pos + 1 <= b.len
    ensures ReadU16(b, pos).Got? ==> ReadU16(b, pos).next == pos + 2 <= b.len
    ensures ReadU32(b, pos).Got? ==> ReadU32(b, pos).next == pos + 4 <= b.len
  {
  }

  lemma FieldOver(desc: Desc, s: seq<byte>, pos: nat)
    requires OverField(desc, Exact(s), pos)
    ensures var f, g := DecField(desc, Padded(s, 0), pos), DecField(desc, Padded(s, 1), pos);
            f.field.Some? && g.field.Some? && f.field.value.desc == g.field.value.desc &&
            f.field.value.value != g.field.value.value && f.next == g.next > |s|
  {
    var a, b := Padded(s, 0), Padded(s, 1);
    hide Padded, DecValue, OverValue, ReadU8, ReadU16, Holds, Find, TypeByte;
    PaddedBytes(s, 0);
    PaddedBytes(s, 1);
    HoldsLength(a, s);
    HoldsLength(b, s);
    ReadsInside(a, s, pos);
    ReadsInside(b, s, pos);
    var uid := ReadU16(a, pos);
    ReadsInside(a, s, uid.next);
    ReadsInside(b, s, uid.next);
    var typ := ReadU8(a, uid.next);
    ReadAdvances(a, uid.next);
    ValueOver(Find(desc, uid.value).value, s, typ.next);
  }

  /** Behind the filled bytes no further field is found. */
  lemma {:induction false} NothingBehind(desc: Desc, n: nat, b: Buf, pos: nat, acc: Struct)
    requires b.Valid() && pos >= b.len
    ensures DecFields(desc, n, b, pos, acc) == Filled(acc, pos)
    decreases n
  {
    if n > 0 {
      NothingBehind(desc, n - 1, b, pos, acc);
    }
  }

  lemma {:induction false} FieldsOver(desc: Desc, n: nat, s: seq<byte>, pos: nat, acc: Struct)
    requires OverFields(desc, n, Exact(s), pos)
    ensures Padded(s, 0).Valid() && Padded(s, 1).Valid()
    ensures DecFields(desc, n, Padded(s, 0), pos, acc).st != DecFields(desc, n, Padded(s, 1), pos, acc).st
    decreases n
  {
    var a, b := Padded(s, 0), Padded(s, 1);
    hide Padded, DecField, OverField, Holds;
    PaddedBytes(s, 0);
    PaddedBytes(s, 1);
    HoldsLength(a, s);
    HoldsLength(b, s);
    if OverField(desc, Exact(s), pos) {
      FieldOver(desc, s, pos);
      var f, g := DecField(desc, a, pos), DecField(desc, b, pos);
      NothingBehind(desc, n - 1, a, f.next, Put(acc, f.field));
      NothingBehind(desc, n - 1, b, g.next, Put(acc, g.field));
      var u := f.field.value.desc.uid;
      assert Put(acc, f.field)[u] != Put(acc, g.field)[u];
    } else {
      OverFieldInside(desc, a, s, pos);
      OverFieldInside(desc, b, s, pos);
      FieldInside(desc, a, s, pos);
      FieldInside(desc, b, s, pos);
      var f := DecField(desc, Exact(s), pos);
      FieldsOver(desc, n - 1, s, f.next, Put(acc, f.field));
    }
  }

  /** Decoding sees nothing but the filled bytes if and only if no announced 64-bit field runs
      past them. */
  lemma StructSeesOnlyFilled(desc: Desc, s: seq<byte>, pos: nat)
    ensures (forall a, b :: Holds(a, s) && Holds(b, s) ==> DecStruct(desc, a, pos) == DecStruct(desc, b, pos))
       <==> !OverStruct(desc, Exact(s), pos)
  {
    if OverStruct(desc, Exact(s), pos) {
      StructOver(desc, s, pos);
      PaddedBytes(s, 0);
      PaddedBytes(s, 1);
    } else {
      forall a, b | Holds(a, s) && Holds(b, s)
        ensures DecStruct(desc, a, pos) == DecStruct(desc, b, pos)
      {
        StructInside(desc, a, s, pos);
        StructInside(desc, b, s, pos);
      }
    }
  }

  lemma StructOver(desc: Desc, s: seq<byte>, pos: nat)
    requires OverStruct(desc, Exact(s), pos)
    ensures Padded(s, 0).Valid() && Padded(s, 1).Valid()
    ensures var r, q := DecStruct(desc, Padded(s, 0), pos), DecStruct(desc, Padded(s, 1), pos);
            r.Got? && q.Got? && r.value != q.value
  {
    var a, b := Padded(s, 0), Padded(s, 1);
    hide Padded, DecFields, OverFields, ReadU16, Holds;
    PaddedBytes(s, 0);
    PaddedBytes(s, 1);
    HoldsLength(a, s);
    HoldsLength(b, s);
    ReadsInside(a, s, pos);
    ReadsInside(b, s, pos);
    FieldsOver(desc, ReadU16(a, pos).value, s, ReadU16(a, pos).next, map[]);
  }

  /** The object this item announces has such a field. */
  predicate OverItem(api: Api, b: Buf, pos: nat)
    requires b.Valid()
  {
    var uid := ReadU16(b, pos);
    uid.Got? &&
    var handle := ReadU16(b, uid.next);
    handle.Got? &&
    var size := ReadU32(b, handle.next);
    size.Got? &&
    var d := DescFor(api, uid.value, handle.value);
    d.Some? && OverStruct(d.value, b, size.next)
  }

  /** The same for a whole object. */
  lemma ItemSeesOnlyFilled(api: Api, s: seq<byte>, pos: nat)
    ensures (forall a, b :: Holds(a, s) && Holds(b, s) ==> DecItem(api, a, pos) == DecItem(api, b, pos))
       <==> !OverItem(api, Exact(s), pos)
  {
    if OverItem(api, Exact(s), pos) {
      ItemOver(api, s, pos);
      PaddedBytes(s, 0);
      PaddedBytes(s, 1);
    } else {
      forall a, b | Holds(a, s) && Holds(b, s)
        ensures DecItem(api, a, pos) == DecItem(api, b, pos)
      {
        ItemInside(api, a, s, pos);
        ItemInside(api, b, s, pos);
      }
    }
  }

  lemma ItemInside(api: Api, b: Buf, s: seq<byte>, pos: nat)
    requires Holds(b, s) && !OverItem(api, Exact(s), pos)
    ensures DecItem(api, b, pos) == DecItem(api, Exact(s), pos)
  {
    hide ReadU16, ReadU32, DecStruct, OverStruct, Holds, DescFor;
    HoldsLength(b, s);
    ReadsInside(b, s, pos);
    var uid := ReadU16(b, pos);
    if uid.Got? {
      ReadsInside(b, s, uid.next);
      var handle := ReadU16(b, uid.next);
      if handle.Got? {
        ReadsInside(b, s, handle.next);
        var size := ReadU32(b, handle.next);
        var d := DescFor(api, uid.value, handle.value);
        if size.Got? && d.Some? {
          StructInside(d.value, b, s, size.next);
        }
      }
    }
  }

  lemma ItemOver(api: Api, s: seq<byte>, pos: nat)
    requires OverItem(api, Exact(s), pos)
    ensures Padded(s, 0).Valid() && Padded(s, 1).Valid()
    ensures var x, y := DecItem(api, Padded(s, 0), pos).item, DecItem(api, Padded(s, 1), pos).item;
            x.Some? && y.Some? && x.value != y.value
  {
    var a, b := Padded(s, 0), Padded(s, 1);
    hide Padded, DecStruct, OverStruct, ReadU16, ReadU32, Holds, DescFor;
    PaddedBytes(s, 0);
    PaddedBytes(s, 1);
    HoldsLength(a, s);
    HoldsLength(b, s);
    ReadsInside(a, s, pos);
    ReadsInside(b, s, pos);
    var uid := ReadU16(a, pos);
    ReadsInside(a, s, uid.next);
    ReadsInside(b, s, uid.next);
    var handle := ReadU16(a, uid.next);
    ReadsInside(a, s, handle.next);
    ReadsInside(b, s, handle.next);
    var size := ReadU32(a, handle.next);
    StructOver(DescFor(api, uid.value, handle.value).value, s, size.next);
  }

  /** The event this one announces has such a field. */
  predicate OverEvent(api: Api, bus: Objects, b: Buf, pos: nat)
    requires b.Valid()
  {
    var uid := ReadU16(b, pos);
    uid.Got? &&
    var handle := ReadU16(b, uid.next);
    handle.Got? &&
    var event := ReadU16(b, handle.next);
    event.Got? &&
    var size := ReadU32(b, event.next);
    size.Got? &&
    var d := DescForEvent(api, bus, uid.value, handle.value, event.value);
    d.Some? && OverStruct(d.value, b, size.next)
  }

  lemma EventInside(api: Api, bus: Objects, b: Buf, s: seq<byte>, pos: nat)
    requires Holds(b, s) && !OverEvent(api, bus, Exact(s), pos)
    ensures DecEvent(api, bus, b, pos) == DecEvent(api, bus, Exact(s), pos)
  {
    hide ReadU16, ReadU32, DecStruct, OverStruct, Holds, DescForEvent;
    HoldsLength(b, s);
    ReadsInside(b, s, pos);
    var uid := ReadU16(b, pos);
    if uid.Got? {
      ReadsInside(b, s, uid.next);
      var handle := ReadU16(b, uid.next);
      if handle.Got? {
        ReadsInside(b, s, handle.next);
        var event := ReadU16(b, handle.next);
        if event.Got? {
          ReadsInside(b, s, event.next);
          var size := ReadU32(b, event.next);
          var d := DescForEvent(api, bus, uid.value, handle.value, event.value);
          if size.Got? && d.Some? {
            StructInside(d.value, b, s, size.next);
          }
        }
      }
    }
  }

  lemma EventReads(b: Buf, s: seq<byte>, pos: nat)
    requires Holds(b, s)
    ensures var e := Exact(s);
            ReadU16(b, pos) == ReadU16(e, pos) &&
            (ReadU16(e, pos).Got? ==> ReadU16(b, pos + 2) == ReadU16(e, pos + 2) && ReadU16(e, pos).next == pos + 2) &&
            (ReadU16(e, pos + 2).Got? ==> ReadU16(b, pos + 4) == ReadU16(e, pos + 4) && ReadU16(e, pos + 2).next == pos + 4) &&
            (ReadU16(e, pos + 4).Got? ==> ReadU32(b, pos + 6) == ReadU32(e, pos + 6) && ReadU16(e, pos + 4).next == pos + 6)
  {
    hide ReadU16, ReadU32;
    ReadsInside(b, s, pos);
    ReadsInside(b, s, pos + 2);
    ReadsInside(b, s, pos + 4);
    ReadsInside(b, s, pos + 6);
    ReadAdvances(Exact(s), pos);
    ReadAdvances(Exact(s), pos + 2);
    ReadAdvances(Exact(s), pos + 4);
  }

  lemma EventOver(api: Api, bus: Objects, s: seq<byte>, pos: nat)
    requires OverEvent(api, bus, Exact(s), pos)
    ensures Padded(s, 0).Valid() && Padded(s, 1).Valid()
    ensures var x, y := DecEvent(api, bus, Padded(s, 0), pos).item, DecEvent(api, bus, Padded(s, 1), pos).item;
            x.Some? && y.Some? && x.value != y.value
  {
    var a, b := Padded(s, 0), Padded(s, 1);
    hide Padded, DecStruct, OverStruct, ReadU16, ReadU32, Holds, DescForEvent;
    PaddedBytes(s, 0);
    PaddedBytes(s, 1);
    HoldsLength(a, s);
    HoldsLength(b, s);
    EventReads(a, s, pos);
    EventReads(b, s, pos);
    var uid, handle, event, size := ReadU16(a, pos), ReadU16(a, pos + 2), ReadU16(a, pos + 4), ReadU32(a, pos + 6);
    StructOver(DescForEvent(api, bus, uid.value, handle.value, event.value).value, s, size.next);
  }

  // ---- lists ----

  predicate OverItems(api: Api, n: nat, b: Buf, pos: nat)
    requires b.Valid()
    decreases n
  {
    n > 0 && (OverItem(api, b, pos) || OverItems(api, n - 1, b, DecItem(api, b, pos).next))
  }

  predicate OverEvents(api: Api, bus: Objects, n: nat, b: Buf, pos: nat)
    requires b.Valid()
    decreases n
  {
    n > 0 && (OverEvent(api, bus, b, pos) || OverEvents(api, bus, n - 1, b, DecEvent(api, bus, b, pos).next))
  }

  lemma {:induction false} ItemsInside(api: Api, n: nat, b: Buf, s: seq<byte>, pos: nat)
    requires Holds(b, s) && !OverItems(api, n, Exact(s), pos)
    ensures DecItems(api, n, b, pos) == DecItems(api, n, Exact(s), pos)
    decreases n
  {
    hide DecItem, OverItem, Holds;
    HoldsLength(b, s);
    if n > 0 {
      ItemInside(api, b, s, pos);
      ItemsInside(api, n - 1, b, s, DecItem(api, b, pos).next);
    }
  }

  lemma ConsDiffers<T>(x: Option<T>, xs: seq<T>, y: Option<T>, ys: seq<T>)
    requires (x.Some? && y.Some? && x.value != y.value) || (x == y && xs != ys)
    ensures Cons(x, xs) != Cons(y, ys)
  {
    if x.Some? && y.Some? && x.value != y.value {
      assert Cons(x, xs)[0] != Cons(y, ys)[0];
    } else if x.Some? {
      assert Cons(x, xs)[1..] == xs && Cons(y, ys)[1..] == ys;
    }
  }

  lemma {:induction false} ItemsOver(api: Api, n: nat, s: seq<byte>, pos: nat)
    requires OverItems(api, n, Exact(s), pos)
    ensures Padded(s, 0).Valid() && Padded(s, 1).Valid()
    ensures DecItems(api, n, Padded(s, 0), pos).items != DecItems(api, n, Padded(s, 1), pos).items
    decreases n
  {
    var a, b := Padded(s, 0), Padded(s, 1);
    hide Padded, DecItem, OverItem, Holds, Cons;
    PaddedBytes(s, 0);
    PaddedBytes(s, 1);
    HoldsLength(a, s);
    HoldsLength(b, s);
    var x, y := DecItem(api, a, pos), DecItem(api, b, pos);
    if OverItem(api, Exact(s), pos) {
      ItemOver(api, s, pos);
    } else {
      ItemInside(api, a, s, pos);
      ItemInside(api, b, s, pos);
      ItemsOver(api, n - 1, s, x.next);
    }
    ConsDiffers(x.item, DecItems(api, n - 1, a, x.next).items, y.item, DecItems(api, n - 1, b, y.next).items);
  }

  lemma {:induction false} EventsInside(api: Api, bus: Objects, n: nat, b: Buf, s: seq<byte>, pos: nat)
    requires Holds(b, s) && !OverEvents(api, bus, n, Exact(s), pos)
    ensures DecEvents(api, bus, n, b, pos) == DecEvents(api, bus, n, Exact(s), pos)
    decreases n
  {
    hide DecEvent, OverEvent, Holds;
    HoldsLength(b, s);
    if n > 0 {
      EventInside(api, bus, b, s, pos);
      EventsInside(api, bus, n - 1, b, s, DecEvent(api, bus, b, pos).next);
    }
  }

  lemma {:induction false} EventsOver(api: Api, bus: Objects, n: nat, s: seq<byte>, pos: nat)
    requires OverEvents(api, bus, n, Exact(s), pos)
    ensures Padded(s, 0).Valid() && Padded(s, 1).Valid()
    ensures DecEvents(api, bus, n, Padded(s, 0), pos).items != DecEvents(api, bus, n, Padded(s, 1), pos).items
    decreases n
  {
    var a, b := Padded(s, 0), Padded(s, 1);
    hide Padded, DecEvent, OverEvent, Holds, Cons;
    PaddedBytes(s, 0);
    PaddedBytes(s, 1);
    HoldsLength(a, s);
    HoldsLength(b, s);
    var x, y := DecEvent(api, bus, a, pos), DecEvent(api, bus, b, pos);
    if OverEvent(api, bus, Exact(s), pos) {
      EventOver(api, bus, s, pos);
    } else {
      EventInside(api, bus, a, s, pos);
      EventInside(api, bus, b, s, pos);
      EventsOver(api, bus, n - 1, s, x.next);
    }
    ConsDiffers(x.item, DecEvents(api, bus, n - 1, a, x.next).items, y.item, DecEvents(api, bus, n - 1, b, y.next).items);
  }

  lemma {:induction false} RefsInside(bus: Objects, n: nat, b: Buf, s: seq<byte>, pos: nat)
    requires Holds(b, s)
    ensures DecRefs(bus, n, b, pos) == DecRefs(bus, n, Exact(s), pos)
    decreases n
  {
    hide DecRef, Holds;
    HoldsLength(b, s);
    if n > 0 {
      RefInside(bus, b, s, pos);
      RefsInside(bus, n - 1, b, s, DecRef(bus, b, pos).next);
    }
  }

  lemma RefInside(bus: Objects, b: Buf, s: seq<byte>, pos: nat)
    requires Holds(b, s)
    ensures DecRef(bus, b, pos) == DecRef(bus, Exact(s), pos)
  {
    hide ReadU16, Holds;
    HoldsLength(b, s);
    ReadsInside(b, s, pos);
    var uid := ReadU16(b, pos);
    if uid.Got? {
      ReadsInside(b, s, uid.next);
    }
  }

  // ---- whole payloads ----

  predicate OverConResp(api: Api, b: Buf, pos: nat)
    requires b.Valid()
  {
    var status := ReadU8(b, pos);
    status.Got? && status.value <= 2 &&
    var n := ReadU32(b, status.next);
    n.Got? && OverItems(api, n.value, b, n.next)
  }

  predicate OverBusEvent(api: Api, busEvents: set<u16>, bus: Objects, b: Buf, pos: nat)
    requires b.Valid()
  {
    var uid, nAdds, nRemoves, nEvents := ReadU16(b, pos), ReadU32(b, pos + 2), ReadU32(b, pos + 6), ReadU32(b, pos + 10);
    uid.Got? && nAdds.Got? && nRemoves.Got? && nEvents.Got? && uid.value != INVALID_UID && uid.value in busEvents &&
    var adds := DecItems(api, nAdds.value, b, nEvents.next);
    var removes := DecRefs(bus, nRemoves.value, b, adds.next);
    OverItems(api, nAdds.value, b, nEvents.next) || OverEvents(api, bus, nEvents.value, b, removes.next)
  }

  /** The payload announces, somewhere a known object or event is decoded, a 64-bit field that runs
      past the filled bytes. */
  predicate OverPayload(api: Api, busEvents: set<u16>, bus: Objects, typ: byte, b: Buf, pos: nat)
    requires b.Valid()
  {
    if typ == 1 then OverConResp(api, b, pos)
    else if typ == 2 then OverItem(api, b, pos)
    else if typ == 4 then OverBusEvent(api, busEvents, bus, b, pos)
    else typ == 5 && OverEvent(api, bus, b, pos)
  }

  lemma ConRespReads(b: Buf, s: seq<byte>, pos: nat)
    requires Holds(b, s)
    ensures var e := Exact(s);
            ReadU8(b, pos) == ReadU8(e, pos) && (ReadU8(e, pos).Got? ==> ReadU32(b, pos + 1) == ReadU32(e, pos + 1) && ReadU8(e, pos).next == pos + 1)
  {
    hide ReadU8, ReadU32;
    ReadsInside(b, s, pos);
    ReadsInside(b, s, pos + 1);
    ReadAdvances(Exact(s), pos);
  }

  lemma ConRespInside(api: Api, b: Buf, s: seq<byte>, pos: nat)
    requires Holds(b, s) && !OverConResp(api, Exact(s), pos)
    ensures DecConResp(api, b, pos) == DecConResp(api, Exact(s), pos)
  {
    hide DecItems, OverItems, ReadU8, ReadU32, Holds;
    HoldsLength(b, s);
    ConRespReads(b, s, pos);
    var n := ReadU32(b, pos + 1);
    if ReadU8(b, pos).Got? && ReadU8(b, pos).value <= 2 && n.Got? {
      ItemsInside(api, n.value, b, s, n.next);
    }
  }

  lemma ConRespOver(api: Api, s: seq<byte>, pos: nat)
    requires OverConResp(api, Exact(s), pos)
    ensures Padded(s, 0).Valid() && Padded(s, 1).Valid()
    ensures DecConResp(api, Padded(s, 0), pos) != DecConResp(api, Padded(s, 1), pos)
  {
    var a, b := Padded(s, 0), Padded(s, 1);
    hide Padded, DecItems, OverItems, ReadU8, ReadU32, Holds;
    PaddedBytes(s, 0);
    PaddedBytes(s, 1);
    HoldsLength(a, s);
    HoldsLength(b, s);
    ConRespReads(a, s, pos);
    ConRespReads(b, s, pos);
    var n := ReadU32(a, pos + 1);
    ItemsOver(api, n.value, s, n.next);
  }

  lemma BusEventReads(b: Buf, s: seq<byte>, pos: nat)
    requires Holds(b, s)
    ensures var e := Exact(s);
            ReadU16(b, pos) == ReadU16(e, pos) && ReadU32(b, pos + 2) == ReadU32(e, pos + 2) &&
            ReadU32(b, pos + 6) == ReadU32(e, pos + 6) && ReadU32(b, pos + 10) == ReadU32(e, pos + 10) &&
            (ReadU16(e, pos).Got? ==> ReadU16(e, pos).next == pos + 2) &&
            (ReadU32(e, pos + 2).Got? ==> ReadU32(e, pos + 2).next == pos + 6) &&
            (ReadU32(e, pos + 6).Got? ==> ReadU32(e, pos + 6).next == pos + 10)
  {
    hide ReadU16, ReadU32;
    ReadsInside(b, s, pos);
    ReadsInside(b, s, pos + 2);
    ReadsInside(b, s, pos + 6);
    ReadsInside(b, s, pos + 10);
    ReadAdvances(Exact(s), pos);
    ReadAdvances(Exact(s), pos + 2);
    ReadAdvances(Exact(s), pos + 6);
  }

  lemma BusEventInside(api: Api, busEvents: set<u16>, bus: Objects, b: Buf, s: seq<byte>, pos: nat)
    requires Holds(b, s) && !OverBusEvent(api, busEvents, bus, Exact(s), pos)
    ensures DecBusEvent(api, busEvents, bus, b, pos) == DecBusEvent(api, busEvents, bus, Exact(s), pos)
  {
    hide DecItems, DecRefs, DecEvents, OverItems, OverEvents, ReadU16, ReadU32, Holds;
    HoldsLength(b, s);
    BusEventReads(b, s, pos);
    var uid, nAdds, nRemoves, nEvents := ReadU16(b, pos), ReadU32(b, pos + 2), ReadU32(b, pos + 6), ReadU32(b, pos + 10);
    if uid.Got? && nAdds.Got? && nRemoves.Got? && nEvents.Got? && uid.value != INVALID_UID && uid.value in busEvents {
      ItemsInside(api, nAdds.value, b, s, nEvents.next);
      var adds := DecItems(api, nAdds.value, b, nEvents.next);
      RefsInside(bus, nRemoves.value, b, s, adds.next);
      EventsInside(api, bus, nEvents.value, b, s, DecRefs(bus, nRemoves.value, b, adds.next).next);
    }
  }

  lemma BusEventOver(api: Api, busEvents: set<u16>, bus: Objects, s: seq<byte>, pos: nat)
    requires OverBusEvent(api, busEvents, bus, Exact(s), pos)
    ensures Padded(s, 0).Valid() && Padded(s, 1).Valid()
    ensures DecBusEvent(api, busEvents, bus, Padded(s, 0), pos) != DecBusEvent(api, busEvents, bus, Padded(s, 1), pos)
  {
    var a, b := Padded(s, 0), Padded(s, 1);
    hide Padded, DecItems, DecRefs, DecEvents, OverItems, OverEvents, ReadU16, ReadU32, Holds;
    PaddedBytes(s, 0);
    PaddedBytes(s, 1);
    HoldsLength(a, s);
    HoldsLength(b, s);
    BusEventReads(a, s, pos);
    BusEventReads(b, s, pos);
    var nAdds, nRemoves, nEvents := ReadU32(a, pos + 2), ReadU32(a, pos + 6), ReadU32(a, pos + 10);
    if OverItems(api, nAdds.value, Exact(s), nEvents.next) {
      ItemsOver(api, nAdds.value, s, nEvents.next);
    } else {
      ItemsInside(api, nAdds.value, a, s, nEvents.next);
      ItemsInside(api, nAdds.value, b, s, nEvents.next);
      var adds := DecItems(api, nAdds.value, a, nEvents.next);
      RefsInside(bus, nRemoves.value, a, s, adds.next);
      RefsInside(bus, nRemoves.value, b, s, adds.next);
      EventsOver(api, bus, nEvents.value, s, DecRefs(bus, nRemoves.value, a, adds.next).next);
    }
  }

  lemma AckInside(b: Buf, s: seq<byte>, pos: nat)
    requires Holds(b, s)
    ensures DecAck(b, pos) == DecAck(Exact(s), pos)
  {
    hide ReadU8, ReadU16, Holds;
    HoldsLength(b, s);
    ReadsInside(b, s, pos);
    var call := ReadU16(b, pos);
    if call.Got? {
      ReadsInside(b, s, call.next);
    }
  }

  lemma PayloadInside(api: Api, busEvents: set<u16>, bus: Objects, typ: byte, b: Buf, s: seq<byte>, pos: nat)
    requires Holds(b, s) && !OverPayload(api, busEvents, bus, typ, Exact(s), pos)
    ensures b.Valid() && DecPayload(api, busEvents, bus, typ, b, pos) == DecPayload(api, busEvents, bus, typ, Exact(s), pos)
  {
    hide DecConResp, DecItem, DecRef, DecBusEvent, DecEvent, DecAck, OverConResp, OverItem, OverBusEvent, OverEvent, Holds;
    HoldsLength(b, s);
    if typ == 1 {
      ConRespInside(api, b, s, pos);
    } else if typ == 2 {
      ItemInside(api, b, s, pos);
    } else if typ == 3 {
      RefInside(bus, b, s, pos);
    } else if typ == 4 {
      BusEventInside(api, busEvents, bus, b, s, pos);
    } else if typ == 5 {
      EventInside(api, bus, b, s, pos);
    } else {
      AckInside(b, s, pos);
    }
  }

  lemma PayloadOver(api: Api, busEvents: set<u16>, bus: Objects, typ: byte, s: seq<byte>, pos: nat)
    requires OverPayload(api, busEvents, bus, typ, Exact(s), pos)
    ensures Padded(s, 0).Valid() && Padded(s, 1).Valid()
    ensures DecPayload(api, busEvents, bus, typ, Padded(s, 0), pos) != DecPayload(api, busEvents, bus, typ, Padded(s, 1), pos)
  {
    hide DecConResp, DecItem, DecBusEvent, DecEvent, OverConResp, OverItem, OverBusEvent, OverEvent, Padded, Holds;
    PaddedBytes(s, 0);
    PaddedBytes(s, 1);
    HoldsLength(Padded(s, 0), s);
    HoldsLength(Padded(s, 1), s);
    if typ == 1 {
      ConRespOver(api, s, pos);
    } else if typ == 2 {
      ItemOver(api, s, pos);
    } else if typ == 4 {
      BusEventOver(api, busEvents, bus, s, pos);
    } else {
      EventOver(api, bus, s, pos);
    }
  }

  /** A whole payload of any type: decoding it sees nothing but the filled bytes if and only if no
      64-bit field it announces runs past them. */
  lemma PayloadSeesOnlyFilled(api: Api, busEvents: set<u16>, bus: Objects, typ: byte, s: seq<byte>, pos: nat)
    ensures (forall a, b :: Holds(a, s) && Holds(b, s) ==>
               DecPayload(api, busEvents, bus, typ, a, pos) == DecPayload(api, busEvents, bus, typ, b, pos))
       <==> !OverPayload(api, busEvents, bus, typ, Exact(s), pos)
  {
    hide DecPayload, OverPayload;
    if OverPayload(api, busEvents, bus, typ, Exact(s), pos) {
      PayloadOver(api, busEvents, bus, typ, s, pos);
      PaddedBytes(s, 0);
      PaddedBytes(s, 1);
    } else {
      forall a, b | Holds(a, s) && Holds(b, s)
        ensures DecPayload(api, busEvents, bus, typ, a, pos) == DecPayload(api, busEvents, bus, typ, b, pos)
      {
        PayloadInside(api, busEvents, bus, typ, a, s, pos);
        PayloadInside(api, busEvents, bus, typ, b, s, pos);
      }
    }
  }

  /** Two bytes of count, two of uid, one of type are filled; eight more are only allocated. */
  function FiveFilled(x: byte): Buf { Buf([0, 1, 0, 1, 6, 0, 0, 0, 0, 0, 0, 0, x], 5) }

  lemma FiveFilledReads(x: byte)
    ensures var b := FiveFilled(x);
            ReadU16(b, 0) == Got(1, 2) && ReadU16(b, 2) == Got(1, 4) && ReadU8(b, 4) == Got(6, 5) && ReadU64(b, 5) == Got(x, 13)
  {
  }

  /** It happens: the value of the announced 64-bit field comes from behind the filled bytes. */
  lemma UnusedMemoryIsRead(x: byte)
    ensures DecStruct([FieldDesc(1, U64Type, false)], FiveFilled(x), 0) == Got(map[1 := One(Bits(x))], 13)
  {
    var desc, b := [FieldDesc(1, U64Type, false)], FiveFilled(x);
    hide ReadU8, ReadU16, ReadU64;
    FiveFilledReads(x);
    assert Find(desc, 1) == Some(desc[0]);
    var f := DecField(desc, b, 2);
    assert f == Decoded(Some(Field(desc[0], One(Bits(x)))), 13) by {
      WideNext(U64Type, b, 5);
    }
    hide DecField;
    assert DecFields(desc, 0, b, 13, Put(map[], f.field)) == Filled(Put(map[], f.field), 13);
    assert DecFields(desc, 1, b, 2, map[]) == Filled(Put(map[], f.field), 13);
  }
}
