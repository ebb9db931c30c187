/** Field values as the library holds them in memory, and what copying them or
    sending them over the wire turns them into. */
module Values {
  type byte = x: int | 0 <= x < 0x100
  type u16 = x: int | 0 <= x < 0x1_0000
  type u32 = x: int | 0 <= x < 0x1_0000_0000
  type u64 = x: int | 0 <= x < 0x1_0000_0000_0000_0000

  function Min(a: nat, b: nat): nat { if a < b then a else b }

  datatype Option<+T> = None | Some(value: T)

  /** One scalar slot of a generated C struct.
      Bits: integers, enums and floats, as their bit pattern.
      Flag: obus_bool_t, any byte in memory.
      Text: char pointer; None is NULL, the characters exclude the final NUL. */
  datatype Scalar = Bits(raw: nat) | Flag(raw: nat) | Text(chars: Option<seq<byte>>)

  /** A field is a scalar or a counted array of scalars. */
  datatype Value = One(item: Scalar) | Many(items: seq<Scalar>)

  /** The fields flagged as present in a struct's bitmap, by field uid. */
  type Struct = map<u16, Value>

  function Truth(raw: nat): nat { if raw == 0 then 0 else 1 }

  /** obus_copy_value: booleans become 0/1, NULL becomes the empty string. */
  function CopyScalar(v: Scalar): Scalar {
    match v
    case Bits(_) => v
    case Flag(raw) => Flag(Truth(raw))
    case Text(chars) => if chars.None? then Text(Some([])) else v
  }

  function CopyValue(v: Value): Value {
    match v
    case One(x) => One(CopyScalar(x))
    case Many(xs) => Many(seq(|xs|, i requires 0 <= i < |xs| => CopyScalar(xs[i])))
  }

  function CopyStruct(s: Struct): Struct {
    map f | f in s :: CopyValue(s[f])
  }

  /** What the wire preserves: booleans become 0/1, NULL stays NULL. */
  function WireScalar(v: Scalar): Scalar {
    if v.Flag? then Flag(Truth(v.raw)) else v
  }

  function WireValue(v: Value): Value {
    match v
    case One(x) => One(WireScalar(x))
    case Many(xs) => Many(seq(|xs|, i requires 0 <= i < |xs| => WireScalar(xs[i])))
  }

  function WireStruct(s: Struct): Struct {
    map f | f in s :: WireValue(s[f])
  }

  /** obus_struct_merge on values: the present fields of src replace those of dst. */
  function Merge(dst: Struct, src: Struct): Struct { dst + CopyStruct(src) }

  /** A struct built only by copying: no NULL, booleans are 0/1. */
  ghost predicate Normal(s: Struct) { CopyStruct(s) == s }

  lemma CopyValueTwice(v: Value)
    ensures CopyValue(CopyValue(v)) == CopyValue(v)
    ensures CopyValue(WireValue(v)) == CopyValue(v)
    ensures WireValue(CopyValue(v)) == CopyValue(v)
  {
  }

  /** Committing what came over the wire commits what was sent. */
  lemma CopyForgetsWire(s: Struct)
    ensures CopyStruct(WireStruct(s)) == CopyStruct(s)
    ensures Normal(CopyStruct(s))
    ensures Normal(s) ==> WireStruct(s) == s
  {
    forall f | f in s
      ensures CopyValue(WireValue(s[f])) == CopyValue(s[f]) == CopyValue(CopyValue(s[f]))
    {
      CopyValueTwice(s[f]);
    }
    if Normal(s) {
      forall f | f in s
        ensures WireValue(s[f]) == s[f]
      {
        CopyValueTwice(s[f]);
        assert CopyStruct(s)[f] == CopyValue(s[f]);
      }
    }
  }

  lemma MergeKeepsNormal(dst: Struct, src: Struct)
    requires Normal(dst)
    ensures Normal(Merge(dst, src))
  {
    CopyForgetsWire(src);
    var m := Merge(dst, src);
    forall f | f in m
      ensures CopyValue(m[f]) == m[f]
    {
      if f in src {
        assert CopyStruct(CopyStruct(src))[f] == CopyStruct(src)[f];
      } else {
        assert CopyStruct(dst)[f] == dst[f];
      }
    }
  }
}
