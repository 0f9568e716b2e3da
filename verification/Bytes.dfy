/** Bytes and fixed-width little-endian integers. */
module Bytes {

  type byte = x: int | 0 <= x < 256

  const TWO_8: nat := 0x100
  const TWO_16: nat := 0x1_0000
  const TWO_24: nat := 0x100_0000
  const TWO_32: nat := 0x1_0000_0000
  const TWO_64: nat := 0x1_0000_0000_0000_0000

  function Min(a: int, b: int): int {
    if a < b then a else b
  }

  function Zeros(n: nat): (z: seq<byte>)
    ensures |z| == n && forall i | 0 <= i < n :: z[i] == 0
  {
    seq(n, _ => 0)
  }

  function U16(v: nat): (s: seq<byte>)
    ensures |s| == 2
  {
    [v % 256, v / TWO_8 % 256]
  }

  function U32(v: nat): (s: seq<byte>)
    ensures |s| == 4
  {
    [v % 256, v / TWO_8 % 256, v / TWO_16 % 256, v / TWO_24 % 256]
  }

  function U64(v: nat): (s: seq<byte>)
    ensures |s| == 8
  {
    U32(v % TWO_32) + U32(v / TWO_32)
  }

  function ReadU16(s: seq<byte>): (v: nat)
    requires |s| >= 2
    ensures v < TWO_16
  {
    s[0] + TWO_8 * s[1]
  }

  function ReadU32(s: seq<byte>): (v: nat)
    requires |s| >= 4
    ensures v < TWO_32
  {
    s[0] + TWO_8 * s[1] + TWO_16 * s[2] + TWO_24 * s[3]
  }

  function ReadU64(s: seq<byte>): nat
    requires |s| >= 8
  {
    ReadU32(s) + TWO_32 * ReadU32(s[4..])
  }

  /** Writing and reading back keeps the value modulo the width. */
  lemma ReadWriteU16(v: nat, rest: seq<byte>)
    ensures ReadU16(U16(v) + rest) == v % TWO_16
  {
    var a := v / TWO_8;
    assert v == TWO_8 * a + v % 256;
    assert a == TWO_8 * (v / TWO_16) + a % 256;
  }

  lemma ReadWriteU32(v: nat, rest: seq<byte>)
    ensures ReadU32(U32(v) + rest) == v % TWO_32
  {
    var a, b, c, d := v / TWO_8, v / TWO_16, v / TWO_24, v / TWO_32;
    BaseStep(v);
    BaseStep(a);
    BaseStep(b);
    BaseStep(c);
    assert a / TWO_8 == b && b / TWO_8 == c && c / TWO_8 == d;
    assert v == TWO_32 * d + (TWO_24 * (c % 256) + TWO_16 * (b % 256) + TWO_8 * (a % 256) + v % 256);
  }

  lemma BaseStep(v: nat)
    ensures v == TWO_8 * (v / TWO_8) + v % 256
  {
  }

  lemma ReadWriteU64(v: nat, rest: seq<byte>)
    requires v < TWO_64
    ensures ReadU64(U64(v) + rest) == v
  {
    ReadHalves(v % TWO_32, v / TWO_32, rest);
  }

  lemma ReadHalves(low: nat, high: nat, rest: seq<byte>)
    requires low < TWO_32 && high < TWO_32
    ensures ReadU64(U32(low) + U32(high) + rest) == low + TWO_32 * high
  {
    ReadWord(low);
    ReadWord(high);
    JoinHalves(U32(low), U32(high), rest);
  }

  lemma ReadWord(v: nat)
    requires v < TWO_32
    ensures ReadU32(U32(v)) == v
  {
    ReadWriteU32(v, []);
    assert U32(v) + [] == U32(v);
  }

  lemma JoinHalves(low: seq<byte>, high: seq<byte>, rest: seq<byte>)
    requires |low| == 4 && |high| == 4
    ensures ReadU64(low + high + rest) == ReadU32(low) + TWO_32 * ReadU32(high)
  {
    assert (low + high + rest)[4..] == high + rest;
  }

  /** The least significant byte comes first, in writing and in reading. */
  lemma LittleEndian(a: byte, b: byte, c: byte, d: byte)
    ensures U16(a + 0x100 * b) == [a, b] && ReadU16([a, b]) == a + 0x100 * b
    ensures U32(a + 0x100 * b + 0x1_0000 * c + 0x100_0000 * d) == [a, b, c, d]
    ensures ReadU32([a, b, c, d]) == a + 0x100 * b + 0x1_0000 * c + 0x100_0000 * d
  {
    var high: nat := c + 0x100 * d;
    var most: nat := b + 0x100 * high;
    PushByte(a, most);
    PushByte(b, high);
    PushByte(c, d);
    PushByte(a, b);
    NestedQuotients(a + 0x100 * most);
  }

  lemma PushByte(low: nat, high: nat)
    requires low < 0x100
    ensures (low + 0x100 * high) % 0x100 == low && (low + 0x100 * high) / 0x100 == high
  {
  }

  lemma NestedQuotients(v: nat)
    ensures v / 0x1_0000 == v / 0x100 / 0x100 && v / 0x100_0000 == v / 0x100 / 0x100 / 0x100
  {
  }

  lemma LittleEndianWide(low: nat, high: nat)
    requires low < 0x1_0000_0000 && high < 0x1_0000_0000
    ensures U64(low + 0x1_0000_0000 * high) == U32(low) + U32(high)
    ensures ReadU64(U32(low) + U32(high)) == low + 0x1_0000_0000 * high
  {
    hide U32, ReadU32;
    ReadHalves(low, high, []);
    assert U32(low) + U32(high) + [] == U32(low) + U32(high);
    var v := low + 0x1_0000_0000 * high;
    assert v % 0x1_0000_0000 == low && v / 0x1_0000_0000 == high;
  }
}
