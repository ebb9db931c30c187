/** The encoders and decoders of obus_field.c, obus_struct.c and obus_object.c as they work: on a
    growing buffer with a read position, in loops, patching sizes back. Each is proved against the
    byte format of Codec and Packets. */
module Marshal {
  import opened Values
  import opened Bytes
  import opened Codec
  import opened Bus
  import P = Packets

  lemma StructLayout(desc: Desc, s: Struct)
    requires DescOk(desc) && FitsStruct(desc, s)
    ensures FitsFields(Present(desc, s)) && |Present(desc, s)| < 0x1_0000
    ensures EncStruct(desc, s) == U16(|Present(desc, s)|) + EncFields(Present(desc, s))
  {
    PresentFits(desc, s);
  }

  /** What one turn of the loop over the descriptors encodes. */
  lemma PresentFrom(desc: Desc, s: Struct, i: nat)
    requires i < |desc| && FitsFields(Present(desc[i..], s))
    ensures FitsFields(Present(desc[i + 1..], s))
    ensures desc[i].uid !in s ==> Present(desc[i..], s) == Present(desc[i + 1..], s)
    ensures desc[i].uid in s ==>
              var f := Field(desc[i], s[desc[i].uid]);
              FitsValue(f.desc, f.value) &&
              EncFields(Present(desc[i..], s)) == EncField(f) + EncFields(Present(desc[i + 1..], s))
  {
    hide FitsValue, EncField;
    assert desc[i..][0] == desc[i] && desc[i..][1..] == desc[i + 1..];
    var rest := Present(desc[i + 1..], s);
    if desc[i].uid in s {
      var f := Field(desc[i], s[desc[i].uid]);
      var all := [f] + rest;
      assert Present(desc[i..], s) == all;
      assert all[0] == f && all[1..] == rest;
      assert forall j :: 0 <= j < |rest| ==> rest[j] == all[j + 1];
    } else {
      assert Present(desc[i..], s) == rest;
    }
  }

  class Buffer {
    /** Allocated memory; only the first length bytes are meaningful. */
    var mem: seq<byte>
    var length: nat
    var pos: nat

    ghost predicate Valid()
      reads this
    {
      length <= |mem|
    }

    ghost function Contents(): seq<byte>
      requires Valid()
      reads this
    {
      mem[..length]
    }

    ghost function View(): Buf
      reads this
    {
      Buf(mem, length)
    }

    constructor (size: nat)
      ensures Valid() && Contents() == [] && pos == 0
    {
      mem, length, pos := seq(size, _ => 0), 0, 0;
    }

    /** obus_buffer_ensure_realloc. */
    method Ensure(size: nat)
      modifies this`mem
      ensures |mem| >= size && |mem| >= |old(mem)| && mem[..|old(mem)|] == old(mem)
    {
      if size > |mem| {
        mem := mem + seq(size - |mem|, _ => 0);
      }
    }

    method AppendU8(v: byte)
      requires Valid()
      modifies this
      ensures Valid() && Contents() == old(Contents()) + [v] && pos == old(pos)
    {
      Ensure(length + 1);
      mem := mem[length := v];
      length := length + 1;
    }

    method Append(bytes: seq<byte>)
      requires Valid()
      modifies this
      ensures Valid() && Contents() == old(Contents()) + bytes && pos == old(pos)
    {
      Ensure(length + |bytes|);
      mem := mem[..length] + bytes + mem[length + |bytes|..];
      length := length + |bytes|;
    }

    method AppendU16(v: u16)
      requires Valid()
      modifies this
      ensures Valid() && Contents() == old(Contents()) + U16(v) && pos == old(pos)
    {
      AppendU8(v / 0x100);
      AppendU8(v % 0x100);
    }

    method AppendU32(v: u32)
      requires Valid()
      modifies this
      ensures Valid() && Contents() == old(Contents()) + U32(v) && pos == old(pos)
    {
      Append([v / 0x100_0000, v / 0x1_0000 % 0x100, v / 0x100 % 0x100, v % 0x100]);
    }

    method AppendU64(v: u64)
      requires Valid()
      modifies this
      ensures Valid() && Contents() == old(Contents()) + U64(v) && pos == old(pos)
    {
      ghost var before := Contents();
      AppendU32(v / 0x1_0000_0000);
      AppendU32(v % 0x1_0000_0000);
      assert before + U32(v / 0x1_0000_0000) + U32(v % 0x1_0000_0000) == before + U64(v);
    }

    /** Reserves n bytes whose content is not yet known. */
    method Reserve(n: nat)
      requires Valid()
      modifies this
      ensures Valid() && length == old(length) + n && Contents()[..old(length)] == old(Contents()) && pos == old(pos)
    {
      Ensure(length + n);
      length := length + n;
    }

    /** Back-patches four bytes at an offset already written or reserved. */
    method WriteU32(v: u32, offset: nat)
      requires Valid() && offset + 4 <= length
      modifies this`mem
      ensures Valid() && Contents() == old(Contents())[..offset] + U32(v) + old(Contents())[offset + 4..]
    {
      mem := mem[offset := v / 0x100_0000][offset + 1 := v / 0x1_0000 % 0x100][offset + 2 := v / 0x100 % 0x100][offset + 3 := v % 0x100];
    }

    method AppendString(chars: Option<seq<byte>>)
      requires Valid() && FitsScalar(StringType, Text(chars))
      modifies this
      ensures Valid() && Contents() == old(Contents()) + EncScalar(StringType, Text(chars)) && pos == old(pos)
    {
      ghost var before := Contents();
      if chars.None? {
        AppendU32(0);
      } else {
        AppendU32(|chars.value| + 1);
        Append(chars.value + [0]);
        assert before + U32(|chars.value| + 1) + (chars.value + [0]) == before + (U32(|chars.value| + 1) + (chars.value + [0]));
      }
    }

    // ---- encoding ----

    /** obus_encode_value. */
    method EncodeScalar(t: Base, v: Scalar)
      requires Valid() && FitsScalar(t, v)
      modifies this
      ensures Valid() && Contents() == old(Contents()) + EncScalar(t, v) && pos == old(pos)
    {
      if t == StringType {
        AppendString(v.chars);
      } else if t == BoolType {
        AppendU8(Truth(v.raw));
      } else if Width(t) == 1 {
        AppendU8(v.raw);
      } else if Width(t) == 2 {
        AppendU16(v.raw);
      } else if Width(t) == 4 {
        AppendU32(v.raw);
      } else {
        AppendU64(v.raw);
      }
    }

    /** obus_field_array_encode. */
    method EncodeArray(t: Base, xs: seq<Scalar>)
      requires Valid() && |xs| < 0x1_0000_0000 && forall i :: 0 <= i < |xs| ==> FitsScalar(t, xs[i])
      modifies this
      ensures Valid() && Contents() == old(Contents()) + (U32(|xs|) + EncScalars(t, xs)) && pos == old(pos)
    {
      hide EncScalar, FitsScalar;
      AppendU32(|xs|);
      ghost var start := Contents();
      var i := 0;
      assert xs[0..] == xs;
      while i < |xs|
        invariant 0 <= i <= |xs| && Valid() && pos == old(pos)
        invariant Contents() + EncScalars(t, xs[i..]) == start + EncScalars(t, xs)
      {
        assert xs[i..][0] == xs[i] && xs[i..][1..] == xs[i + 1..];
        ghost var before := Contents();
        EncodeScalar(t, xs[i]);
        assert before + (EncScalar(t, xs[i]) + EncScalars(t, xs[i + 1..])) == before + EncScalar(t, xs[i]) + EncScalars(t, xs[i + 1..]);
        i := i + 1;
      }
      assert start + EncScalars(t, xs) == old(Contents()) + (U32(|xs|) + EncScalars(t, xs));
    }

    /** obus_field_encode. */
    method EncodeField(f: Field)
      requires Valid() && FitsValue(f.desc, f.value)
      modifies this
      ensures Valid() && Contents() == old(Contents()) + EncField(f) && pos == old(pos)
    {
      hide EncScalar, EncScalars, FitsScalar, U16, U32, TypeByte;
      ghost var before := Contents();
      AppendU16(f.desc.uid);
      AppendU8(TypeByte(f.desc));
      if f.desc.isArray {
        EncodeArray(f.desc.base, f.value.items);
      } else {
        EncodeScalar(f.desc.base, f.value.item);
      }
      ghost var v := EncValue(f.desc, f.value);
      assert before + U16(f.desc.uid) + [TypeByte(f.desc)] + v == before + (U16(f.desc.uid) + ([TypeByte(f.desc)] + v));
    }

    /** obus_struct_encode: counts the fields present, then encodes them in descriptor order. */
    method EncodeStruct(desc: Desc, s: Struct)
      requires Valid() && DescOk(desc) && FitsStruct(desc, s)
      modifies this
      ensures Valid() && Contents() == old(Contents()) + EncStruct(desc, s) && pos == old(pos)
    {
      hide FitsStruct, DescOk, EncStruct, EncFields, FitsFields, Present, U16;
      StructLayout(desc, s);
      ghost var before, fs := Contents(), Present(desc, s);
      var n := CountPresent(desc, s);
      AppendU16(n);
      EncodePresent(desc, s);
      assert before + U16(|fs|) + EncFields(fs) == before + (U16(|fs|) + EncFields(fs));
    }

    static method CountPresent(desc: Desc, s: Struct) returns (n: nat)
      ensures n == |Present(desc, s)|
    {
      n := 0;
      var i := 0;
      assert desc[0..] == desc;
      while i < |desc|
        invariant 0 <= i <= |desc| && n + |Present(desc[i..], s)| == |Present(desc, s)|
      {
        assert desc[i..][0] == desc[i] && desc[i..][1..] == desc[i + 1..];
        if desc[i].uid in s {
          n := n + 1;
        }
        i := i + 1;
      }
    }

    method EncodePresent(desc: Desc, s: Struct)
      requires Valid() && FitsFields(Present(desc, s))
      modifies this
      ensures Valid() && Contents() == old(Contents()) + EncFields(Present(desc, s)) && pos == old(pos)
    {
      hide EncField, FitsValue, FitsFields;
      ghost var start := Contents();
      var i := 0;
      assert desc[0..] == desc;
      while i < |desc|
        invariant 0 <= i <= |desc| && Valid() && pos == old(pos)
        invariant FitsFields(Present(desc[i..], s))
        invariant Contents() + EncFields(Present(desc[i..], s)) == start + EncFields(Present(desc, s))
      {
        PresentFrom(desc, s, i);
        if desc[i].uid in s {
          var f := Field(desc[i], s[desc[i].uid]);
          ghost var before, rest := Contents(), EncFields(Present(desc[i + 1..], s));
          EncodeField(f);
          assert before + (EncField(f) + rest) == before + EncField(f) + rest;
        }
        i := i + 1;
      }
    }

    /** obus_object_add_encode: the data size is patched in once it is known. */
    method EncodeItem(api: P.Api, it: Item)
      requires Valid() && P.FitsInfo(api, it.uid, it.info)
      modifies this
      ensures Valid() && Contents() == old(Contents()) + P.EncItem(api, it) && pos == old(pos)
    {
      hide U16, P.EncSized, P.FitsInfo;
      ghost var before := Contents();
      AppendU16(it.uid);
      AppendU16(it.handle);
      EncodeSized(api, it.uid, it.info);
      assert before + U16(it.uid) + U16(it.handle) + P.EncSized(api, it.uid, it.info)
          == before + (U16(it.uid) + (U16(it.handle) + P.EncSized(api, it.uid, it.info)));
    }

    method EncodeSized(api: P.Api, uid: u16, info: Struct)
      requires Valid() && P.FitsInfo(api, uid, info)
      modifies this
      ensures Valid() && Contents() == old(Contents()) + P.EncSized(api, uid, info) && pos == old(pos)
    {
      hide EncStruct, FitsStruct, DescOk;
      ghost var head := Contents();
      var offset := length;
      Reserve(4);
      ghost var reserved := Contents();
      EncodeStruct(api.objects[uid], info);
      var size := length - (offset + 4);
      ghost var enc := EncStruct(api.objects[uid], info);
      assert Contents() == reserved + enc && reserved[..offset] == head;
      assert Contents()[offset + 4..] == enc && Contents()[..offset] == head;
      WriteU32(size, offset);
      assert Contents() == head + U32(|enc|) + enc == head + (U32(|enc|) + enc);
    }

    // ---- decoding ----

    method TakeU8() returns (r: Got<byte>)
      requires Valid()
      modifies this`pos
      ensures r == ReadU8(View(), old(pos)) && pos == if r.Fail? then old(pos) else r.next
    {
      if pos >= length {
        return Fail;
      }
      r := Got(mem[pos], pos + 1);
      pos := pos + 1;
    }

    method TakeU16() returns (r: Got<u16>)
      requires Valid()
      modifies this`pos
      ensures r == ReadU16(View(), old(pos)) && pos == if r.Fail? then old(pos) else r.next
    {
      if pos + 1 >= length {
        return Fail;
      }
      r := Got(FromU16(mem[pos], mem[pos + 1]), pos + 2);
      pos := pos + 2;
    }

    method TakeU32() returns (r: Got<u32>)
      requires Valid()
      modifies this`pos
      ensures r == ReadU32(View(), old(pos)) && pos == if r.Fail? then old(pos) else r.next
    {
      if pos + 3 >= length {
        return Fail;
      }
      r := Got(FromU32(mem[pos], mem[pos + 1], mem[pos + 2], mem[pos + 3]), pos + 4);
      pos := pos + 4;
    }

    method SetPosition(p: nat)
      modifies this`pos
      ensures pos == Goto(View(), old(pos), p)
    {
      if p <= length {
        pos := p;
      }
    }

    /** obus_field_array_decode's loop. A failed item leaves the position anywhere. */
    method DecodeItems(t: Base, n: nat) returns (r: Got<seq<Scalar>>)
      requires Valid()
      modifies this`pos
      ensures r == DecScalars(t, n, View(), old(pos)) && (r.Got? ==> pos == r.next)
    {
      hide DecScalar;
      var xs: seq<Scalar> := [];
      ghost var whole := DecScalars(t, n, View(), pos);
      assert whole.Got? ==> [] + whole.value == whole.value;
      var i := 0;
      while i < n
        invariant 0 <= i <= n && Valid() && View() == old(View()) && |xs| == i
        invariant var rest := DecScalars(t, n - i, View(), pos);
                  whole == if rest.Fail? then Fail else Got(xs + rest.value, rest.next)
      {
        var x := DecScalar(t, Buf(mem, length), pos);
        if x.Fail? {
          return Fail;
        }
        pos := x.next;
        ghost var rest := DecScalars(t, n - i - 1, View(), pos);
        assert rest.Got? ==> xs + ([x.value] + rest.value) == (xs + [x.value]) + rest.value;
        xs := xs + [x.value];
        i := i + 1;
      }
      assert xs + [] == xs;
      r := Got(xs, pos);
    }

    /** obus_field_array_skip_value's loop. */
    method SkipArray(code: nat, n: nat)
      requires Valid()
      modifies this`pos
      ensures pos == SkipScalars(code, n, View(), old(pos))
    {
      hide SkipScalar;
      var i := 0;
      while i < n
        invariant 0 <= i <= n && Valid() && View() == old(View())
        invariant SkipScalars(code, n - i, View(), pos) == SkipScalars(code, n, View(), old(pos))
      {
        pos := SkipScalar(code, Buf(mem, length), pos);
        i := i + 1;
      }
    }

    method Skip(typ: byte)
      requires Valid()
      modifies this`pos
      ensures pos == SkipValue(typ, View(), old(pos))
    {
      if typ >= 0x80 {
        var n := TakeU32();
        if n.Got? {
          SkipArray(typ % 0x80, n.value);
        }
      } else {
        pos := SkipScalar(typ % 0x80, Buf(mem, length), pos);
      }
    }

    method DecodeValue(d: FieldDesc) returns (r: Got<Value>)
      requires Valid()
      modifies this`pos
      ensures r == DecValue(d, View(), old(pos)) && (r.Got? ==> pos == r.next)
    {
      if d.isArray {
        var n := TakeU32();
        if n.Fail? {
          return Fail;
        }
        var xs := DecodeItems(d.base, n.value);
        r := if xs.Fail? then Fail else Got(Many(xs.value), xs.next);
      } else {
        var x := DecScalar(d.base, Buf(mem, length), pos);
        if x.Fail? {
          return Fail;
        }
        pos := x.next;
        r := Got(One(x.value), x.next);
      }
    }

    /** obus_field_decode: on failure the position is restored and the field skipped. */
    method DecodeField(desc: Desc) returns (r: Option<Field>)
      requires Valid()
      modifies this`pos
      ensures Decoded(r, pos) == DecField(desc, View(), old(pos))
    {
      hide DecValue, SkipValue;
      var uid := TakeU16();
      if uid.Fail? {
        return None;
      }
      var typ := TakeU8();
      if typ.Fail? {
        return None;
      }
      var start := pos;
      var d := Find(desc, uid.value);
      if d.None? || TypeByte(d.value) != typ.value {
        Skip(typ.value);
        return None;
      }
      var v := DecodeValue(d.value);
      if v.Fail? {
        pos := start;
        Skip(typ.value);
        return None;
      }
      return Some(Field(d.value, v.value));
    }

    /** obus_struct_decode. */
    method DecodeStruct(desc: Desc) returns (r: Got<Struct>)
      requires Valid()
      modifies this`pos
      ensures r == DecStruct(desc, View(), old(pos)) && pos == if r.Fail? then old(pos) else r.next
    {
      hide DecField;
      var n := TakeU16();
      if n.Fail? {
        return Fail;
      }
      var st: Struct := map[];
      ghost var whole := DecFields(desc, n.value, View(), pos, map[]);
      var i := 0;
      while i < n.value
        invariant 0 <= i <= n.value && Valid() && View() == old(View())
        invariant DecFields(desc, n.value - i, View(), pos, st) == whole
      {
        var f := DecodeField(desc);
        if f.Some? {
          st := st[f.value.desc.uid := f.value.value];
        }
        i := i + 1;
      }
      r := Got(st, pos);
    }

    /** obus_object_add_decode. */
    method DecodeItem(api: P.Api) returns (r: Option<Item>)
      requires Valid()
      modifies this`pos
      ensures P.Parsed(r, pos) == P.DecItem(api, View(), old(pos))
    {
      hide DecStruct;
      var uid := TakeU16();
      if uid.Fail? {
        return None;
      }
      var handle := TakeU16();
      if handle.Fail? {
        return None;
      }
      var size := TakeU32();
      if size.Fail? {
        return None;
      }
      var end := pos + size.value;
      if uid.value == INVALID_UID || handle.value == INVALID_HANDLE || uid.value !in api.objects {
        SetPosition(end);
        return None;
      }
      var st := DecodeStruct(api.objects[uid.value]);
      if st.Fail? {
        SetPosition(end);
        return None;
      }
      if pos != end {
        SetPosition(end);
      }
      return Some(Item(handle.value, uid.value, st.value));
    }

    /** The loop over a list of objects, as in a connection response or a bus event. */
    method DecodeItemList(api: P.Api, n: nat) returns (items: seq<Item>)
      requires Valid()
      modifies this`pos
      ensures P.Listed(items, pos) == P.DecItems(api, n, View(), old(pos))
    {
      hide P.DecItem;
      items := [];
      ghost var whole := P.DecItems(api, n, View(), pos);
      var i := 0;
      while i < n
        invariant 0 <= i <= n && Valid() && View() == old(View())
        invariant var rest := P.DecItems(api, n - i, View(), pos);
                  whole == P.Listed(items + rest.items, rest.next)
      {
        var it := DecodeItem(api);
        ghost var rest := P.DecItems(api, n - i - 1, View(), pos);
        if it.Some? {
          assert items + ([it.value] + rest.items) == (items + [it.value]) + rest.items;
          items := items + [it.value];
        }
        i := i + 1;
      }
      assert items + [] == items;
    }
  }
}
