/** Big-endian integers and bounded reads, as in obus_buffer.h. */
module Bytes {
  import opened Values

  function U16(v: u16): seq<byte> { [v / 0x100, v % 0x100] }

  function U32(v: u32): seq<byte> {
    [v / 0x100_0000, v / 0x1_0000 % 0x100, v / 0x100 % 0x100, v % 0x100]
  }

  function U64(v: u64): seq<byte> { U32(v / 0x1_0000_0000) + U32(v % 0x1_0000_0000) }

  function FromU16(a: byte, b: byte): u16 { a * 0x100 + b }

  function FromU32(a: byte, b: byte, c: byte, d: byte): u32 {
    a * 0x100_0000 + b * 0x1_0000 + c * 0x100 + d
  }

  /** Memory of a buffer: mem is what is allocated, len what is filled. */
  datatype Buf = Buf(mem: seq<byte>, len: nat) {
    predicate Valid() { len <= |mem| }
  }

  /** A read that may run past the filled part. */
  datatype Got<+T> = Fail | Got(value: T, next: nat)

  function ReadU8(b: Buf, pos: nat): Got<byte>
    requires b.Valid()
  {
    if pos >= b.len then Fail else Got(b.mem[pos], pos + 1)
  }

  function ReadU16(b: Buf, pos: nat): Got<u16>
    requires b.Valid()
  {
    if pos + 1 >= b.len then Fail else Got(FromU16(b.mem[pos], b.mem[pos + 1]), pos + 2)
  }

  function ReadU32(b: Buf, pos: nat): Got<u32>
    requires b.Valid()
  {
    if pos + 3 >= b.len then Fail
    else Got(FromU32(b.mem[pos], b.mem[pos + 1], b.mem[pos + 2], b.mem[pos + 3]), pos + 4)
  }

  /** The 64-bit read checks the allocated size, not the filled length. */
  function ReadU64(b: Buf, pos: nat): Got<u64>
    requires b.Valid()
  {
    if pos + 7 >= |b.mem| then Fail
    else Got(FromU32(b.mem[pos], b.mem[pos + 1], b.mem[pos + 2], b.mem[pos + 3]) * 0x1_0000_0000
             + FromU32(b.mem[pos + 4], b.mem[pos + 5], b.mem[pos + 6], b.mem[pos + 7]), pos + 8)
  }

  /** obus_buffer_set_read_position: refused beyond the filled length. */
  function Goto(b: Buf, pos: nat, target: nat): nat { if target > b.len then pos else target }

  /** obus_buffer_inc_read_position. */
  function Advance(b: Buf, pos: nat, n: nat): nat { if pos + n > b.len then pos else pos + n }

  /** The given bytes stand at pos, inside the filled part. */
  ghost predicate At(b: Buf, pos: nat, bytes: seq<byte>) {
    b.Valid() && pos + |bytes| <= b.len && b.mem[pos..pos + |bytes|] == bytes
  }

  lemma AtConcat(b: Buf, pos: nat, x: seq<byte>, y: seq<byte>)
    requires At(b, pos, x + y)
    ensures At(b, pos, x) && At(b, pos + |x|, y)
  {
    var whole := b.mem[pos..pos + |x + y|];
    assert b.mem[pos..pos + |x|] == whole[..|x|] == x;
    assert b.mem[pos + |x|..pos + |x| + |y|] == whole[|x|..] == y;
  }

  lemma ReadU8At(b: Buf, pos: nat, v: byte)
    requires At(b, pos, [v])
    ensures ReadU8(b, pos) == Got(v, pos + 1)
  {
    assert b.mem[pos] == b.mem[pos..pos + 1][0];
  }

  lemma ReadU16At(b: Buf, pos: nat, v: u16)
    requires At(b, pos, U16(v))
    ensures ReadU16(b, pos) == Got(v, pos + 2)
  {
    var s := b.mem[pos..pos + 2];
    assert b.mem[pos] == s[0] && b.mem[pos + 1] == s[1];
  }

  lemma HighBytes(v: u32)
    ensures v / 0x1_0000 == v / 0x100_0000 * 0x100 + v / 0x1_0000 % 0x100
  {
    var a, b := v / 0x100_0000, v % 0x100_0000;
    assert v == a * 0x100_0000 + b && 0 <= b < 0x100_0000;
    var c := b / 0x1_0000;
    assert v == (a * 0x100 + c) * 0x1_0000 + b % 0x1_0000 && 0 <= c < 0x100;
    assert v / 0x1_0000 == a * 0x100 + c;
  }

  lemma LowBytes(v: u32)
    ensures v % 0x1_0000 == v / 0x100 % 0x100 * 0x100 + v % 0x100
  {
    var a, b := v / 0x1_0000, v % 0x1_0000;
    var c := b / 0x100;
    assert v == (a * 0x100 + c) * 0x100 + b % 0x100 && 0 <= c < 0x100;
    assert v / 0x100 == a * 0x100 + c && v % 0x100 == b % 0x100;
  }

  lemma FromU32Inverse(v: u32)
    ensures FromU32(v / 0x100_0000, v / 0x1_0000 % 0x100, v / 0x100 % 0x100, v % 0x100) == v
  {
    HighBytes(v);
    LowBytes(v);
    assert v == v / 0x1_0000 * 0x1_0000 + v % 0x1_0000;
  }

  lemma ReadU32At(b: Buf, pos: nat, v: u32)
    requires At(b, pos, U32(v))
    ensures ReadU32(b, pos) == Got(v, pos + 4)
  {
    var s := b.mem[pos..pos + 4];
    assert b.mem[pos] == s[0] && b.mem[pos + 1] == s[1] && b.mem[pos + 2] == s[2] && b.mem[pos + 3] == s[3];
    FromU32Inverse(v);
  }

  lemma ReadU64At(b: Buf, pos: nat, v: u64)
    requires At(b, pos, U64(v))
    ensures ReadU64(b, pos) == Got(v, pos + 8)
  {
    AtConcat(b, pos, U32(v / 0x1_0000_0000), U32(v % 0x1_0000_0000));
    ReadU32At(b, pos, v / 0x1_0000_0000);
    ReadU32At(b, pos + 4, v % 0x1_0000_0000);
  }
}
