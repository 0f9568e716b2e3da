/**
 What the bytes of a delta mean (node/qn/git.js), in base-256 and base-128 digits: which bytes an instruction is
 written as, which range of the base a copy names, and which deltas are refused.
 */
module GitDeltaLaws {
  import opened Wrappers
  import opened Bytes
  import opened JsInt
  import opened GitVarint
  import opened GitDelta

  function Bit(b: Option<byte>): nat {
    if b.Some? then 1 else 0
  }

  function OptionalByte(b: Option<byte>): seq<byte> {
    if b.Some? then [b.value] else []
  }

  /** A byte that is absent counts as zero. */
  function ByteOrZero(b: Option<byte>): nat {
    if b.Some? then b.value else 0
  }

  lemma FlagsStep(bs: seq<Option<byte>>, above: nat)
    requires bs != []
    ensures Flags(bs, above) == Bit(bs[0]) + 2 * Flags(bs[1..], above)
    ensures Present(bs) == OptionalByte(bs[0]) + Present(bs[1..])
  {
  }

  lemma FlagsDone(bs: seq<Option<byte>>, above: nat)
    requires bs == []
    ensures Flags(bs, above) == above && Present(bs) == []
  {
  }

  lemma FourFlags(o: seq<Option<byte>>, above: nat)
    requires |o| == 4
    ensures Flags(o, above) == Bit(o[0]) + 2 * Bit(o[1]) + 4 * Bit(o[2]) + 8 * Bit(o[3]) + 16 * above
    ensures Present(o) == OptionalByte(o[0]) + (OptionalByte(o[1]) + OptionalByte(o[2]) + OptionalByte(o[3]))
  {
    hide Flags, Present, OptionalByte, Bit;
    FlagsStep(o, above);
    ThreeFlags(o[1..], above);
  }

  lemma ThreeFlags(z: seq<Option<byte>>, above: nat)
    requires |z| == 3
    ensures Flags(z, above) == Bit(z[0]) + 2 * Bit(z[1]) + 4 * Bit(z[2]) + 8 * above
    ensures Present(z) == OptionalByte(z[0]) + OptionalByte(z[1]) + OptionalByte(z[2])
  {
    hide Flags, Present, OptionalByte, Bit;
    FlagsStep(z, above);
    FlagsStep(z[1..], above);
    FlagsStep(z[1..][1..], above);
    FlagsDone(z[1..][1..][1..], above);
  }

  /**
   The bytes of an instruction. A copy is an opcode with the high bit set whose lower bits say which of the four
   offset bytes and the three size bytes follow, in this order; an insert is its length and its bytes.
   */
  lemma WrittenAs(o: seq<Option<byte>>, z: seq<Option<byte>>, data: seq<byte>)
    requires |o| == 4 && |z| == 3 && 0 < |data| < 128
    ensures EncodeOne(Insert(data)) == [|data|] + data
    ensures EncodeOne(Copy(o, z)) ==
      [128 + Bit(o[0]) + 2 * Bit(o[1]) + 4 * Bit(o[2]) + 8 * Bit(o[3])
       + 16 * Bit(z[0]) + 32 * Bit(z[1]) + 64 * Bit(z[2])]
      + ((OptionalByte(o[0]) + (OptionalByte(o[1]) + OptionalByte(o[2]) + OptionalByte(o[3])))
         + (OptionalByte(z[0]) + OptionalByte(z[1]) + OptionalByte(z[2])))
  {
    hide Flags, Present, OptionalByte;
    ThreeFlags(z, 1);
    FourFlags(o, Flags(z, 1));
  }

  lemma DigitSum(bs: seq<Option<byte>>)
    requires |bs| <= 4
    ensures Number(bs, 0) == (if |bs| > 0 then ByteOrZero(bs[0]) else 0)
                           + (if |bs| > 1 then 0x100 * ByteOrZero(bs[1]) else 0)
                           + (if |bs| > 2 then 0x1_0000 * ByteOrZero(bs[2]) else 0)
                           + (if |bs| > 3 then 0x100_0000 * ByteOrZero(bs[3]) else 0)
  {
    hide Scaled, Number;
    DigitFrom(bs, 0, 0);
    DigitFrom(bs, 1, 8);
    DigitFrom(bs, 2, 16);
    DigitFrom(bs, 3, 24);
    if |bs| == 4 { NumberEnds(32); }
    assert bs[0..] == bs;
  }

  lemma NumberEnds(shift: nat)
    ensures Number([], shift) == 0
  {
  }

  lemma DigitFrom(bs: seq<Option<byte>>, k: nat, shift: nat)
    requires shift == 0 || shift == 8 || shift == 16 || shift == 24
    ensures k < |bs| ==> Number(bs[k..], shift) == Scale(shift) * ByteOrZero(bs[k]) + Number(bs[k + 1..], shift + 8)
    ensures k == |bs| ==> Number(bs[k..], shift) == 0
    ensures bs[|bs|..] == []
  {
    hide Scaled;
    if k < |bs| {
      assert bs[k..][1..] == bs[k + 1..];
      var d: nat := ByteOrZero(bs[k]);
      assert Digit(bs[k]) == d;
      ScaledByBytes(d);
      ScaleUnit(d);
    }
  }

  function Scale(shift: nat): nat {
    if shift == 0 then 1 else if shift == 8 then 0x100 else if shift == 16 then 0x1_0000 else 0x100_0000
  }

  lemma ScaleUnit(d: nat)
    ensures Scaled(d, 0) == d
  {
  }

  /**
   What a copy stands for. With the offset and the size as the little-endian numbers of its bytes, absent bytes being
   zero, its piece is that range of the base, filled up with zeros where the base ends; size zero means 0x10000.
   */
  lemma CopiedRange(base: seq<byte>, o: seq<Option<byte>>, z: seq<Option<byte>>)
    requires |o| == 4 && |z| == 3
    ensures var start := ByteOrZero(o[0]) + 0x100 * ByteOrZero(o[1]) + 0x1_0000 * ByteOrZero(o[2])
                         + 0x100_0000 * ByteOrZero(o[3]);
      var size := ByteOrZero(z[0]) + 0x100 * ByteOrZero(z[1]) + 0x1_0000 * ByteOrZero(z[2]);
      var n := if size == 0 then 0x1_0000 else size;
      var piece := Piece(base, Copy(o, z));
      && |piece| == n
      && (start + n <= |base| ==> piece == base[start..start + n])
      && (forall k | 0 <= k < n :: piece[k] == if start + k < |base| then base[start + k] else 0)
  {
    hide Piece;
    DigitSum(o);
    DigitSum(z);
    hide Number;
    RangePiece(base, Copy(o, z), Start(Copy(o, z)), Extent(Copy(o, z)));
  }

  lemma RangePiece(base: seq<byte>, x: Instruction, start: nat, n: nat)
    requires x.Copy? && WellFormed(x) && start == Start(x) && n == Extent(x)
    ensures |Piece(base, x)| == n
    ensures start + n <= |base| ==> Piece(base, x) == base[start..start + n]
    ensures forall k | 0 <= k < n :: Piece(base, x)[k] == if start + k < |base| then base[start + k] else 0
  {
    hide Start, Extent;
  }

  lemma InsertedBytes(base: seq<byte>, data: seq<byte>)
    requires 0 < |data| < 128
    ensures Piece(base, Insert(data)) == data
  {
  }

  // ---- which deltas are refused ----

  function Total(ops: seq<Op>): nat {
    if ops == [] then 0 else (if ops[0].Reserved? then 0 else ops[0].size) + Total(ops[1..])
  }

  /** Instructions that are carried out to the end fill the result buffer exactly. */
  lemma {:induction false} RunFills(base: seq<byte>, delta: seq<byte>, ops: seq<Op>, out: seq<byte>, outPos: nat)
    requires Run(base, delta, ops, out, outPos).Ok?
    ensures outPos + Total(ops) == |out| && forall op <- ops :: !op.Reserved?
    decreases |ops|
  {
    hide Blit;
    if ops != [] {
      var filled := Perform(base, delta, ops[0], out, outPos).value;
      RunFills(base, delta, ops[1..], filled, outPos + ops[0].size);
    }
  }

  lemma {:induction false} TotalDecoded(base: seq<byte>, xs: seq<Instruction>, i: nat)
    requires AllWellFormed(xs)
    ensures Total(DecodedAll(xs, i)) == |Pieces(base, xs)|
    decreases |xs|
  {
    hide EncodeOne, Piece, Decoded;
    if xs != [] {
      var ops := DecodedAll(xs, i);
      assert ops[0] == Decoded(xs[0], i) && ops[1..] == DecodedAll(xs[1..], i + |EncodeOne(xs[0])|);
      DecodedSize(base, xs[0], i);
      TotalDecoded(base, xs[1..], i + |EncodeOne(xs[0])|);
    }
  }

  lemma DecodedSize(base: seq<byte>, x: Instruction, i: nat)
    requires WellFormed(x)
    ensures !Decoded(x, i).Reserved? && Decoded(x, i).size == |Piece(base, x)|
  {
    hide Start, Extent;
  }

  /** A delta for a base of another size is refused for that, whatever comes after. */
  lemma OtherBaseRefused(base: seq<byte>, size: nat, delta: seq<byte>)
    requires size < HALF && size != |base| && Holds(delta, 0, EncodeSize(size))
    ensures Applied(base, delta) == Err(BaseSizeMismatch)
  {
    hide Run, Ops, SizeFrom, VarSizeAt, EncodeSize, Holds;
    VarSizeRoundTrip(delta, 0, size);
  }

  /** A delta as it is written, with any declared size of the result. */
  function Declared(base: seq<byte>, size: nat, rest: seq<byte>): seq<byte> {
    EncodeSize(|base|) + EncodeSize(size) + rest
  }

  lemma DeclaredRuns(base: seq<byte>, size: nat, rest: seq<byte>)
    requires |base| < HALF && size < HALF
    ensures var delta := Declared(base, size, rest);
      var i := |EncodeSize(|base|)| + |EncodeSize(size)|;
      && Holds(delta, i, rest) && i + |rest| == |delta|
      && Applied(base, delta) == Run(base, delta, Ops(delta, i), Zeros(size), 0)
  {
    hide Run, Ops, SizeFrom, VarSizeAt, EncodeSize;
    var b, r := EncodeSize(|base|), EncodeSize(size);
    var delta := Declared(base, size, rest);
    assert Holds(delta, 0, b) && Holds(delta, |b|, r) && Holds(delta, |b| + |r|, rest);
    hide Holds;
    VarSizeRoundTrip(delta, 0, |base|);
    VarSizeRoundTrip(delta, |b|, size);
  }

  /** A delta is applied exactly when the declared size is that of what its instructions yield. */
  lemma DeclaredSize(base: seq<byte>, size: nat, xs: seq<Instruction>)
    requires AllWellFormed(xs) && |base| < HALF && size < HALF
    ensures Applied(base, Declared(base, size, EncodeAll(xs))).Ok? <==> size == |Pieces(base, xs)|
    ensures size == |Pieces(base, xs)| ==> Applied(base, Declared(base, size, EncodeAll(xs))) == Ok(Pieces(base, xs))
  {
    hide Run, Ops, EncodeSize, EncodeAll, Pieces, Applied, Holds, Declared;
    var delta := Declared(base, size, EncodeAll(xs));
    var i := |EncodeSize(|base|)| + |EncodeSize(size)|;
    DeclaredRuns(base, size, EncodeAll(xs));
    OpsAll(delta, i, xs);
    if Run(base, delta, Ops(delta, i), Zeros(size), 0).Ok? {
      RunFills(base, delta, Ops(delta, i), Zeros(size), 0);
      TotalDecoded(base, xs, i);
    }
    if size == |Pieces(base, xs)| {
      ApplyEncoded(base, xs);
      EncodeIsDeclared(base, xs);
    }
  }

  lemma EncodeIsDeclared(base: seq<byte>, xs: seq<Instruction>)
    requires AllWellFormed(xs)
    ensures Encode(base, xs) == Declared(base, |Pieces(base, xs)|, EncodeAll(xs))
  {
  }

  lemma {:induction false} OpsReserved(delta: seq<byte>, i: nat, xs: seq<Instruction>, tail: seq<byte>)
    requires AllWellFormed(xs) && Holds(delta, i, EncodeAll(xs) + ([0] + tail))
    ensures Reserved in Ops(delta, i)
    decreases |xs|
  {
    hide Args, EncodeOne, Decoded, Holds, Ops;
    var behind := [0] + tail;
    if xs == [] {
      assert EncodeAll(xs) + behind == behind;
      HoldsTail(delta, i, behind);
      OpsZero(delta, i);
    } else {
      ConcatBehind(EncodeOne(xs[0]), EncodeAll(xs[1..]), behind);
      OpsOne(delta, i, xs[0], EncodeAll(xs[1..]) + behind);
      OpsReserved(delta, i + |EncodeOne(xs[0])|, xs[1..], tail);
    }
  }

  lemma ConcatBehind(a: seq<byte>, b: seq<byte>, c: seq<byte>)
    ensures a + b + c == a + (b + c)
  {
  }

  lemma OpsZero(delta: seq<byte>, i: nat)
    requires At(delta, i) == 0 && i < |delta|
    ensures Ops(delta, i) == [Reserved]
  {
  }

  /** The opcode zero is refused wherever it stands, whatever the declared size. */
  lemma ReservedRefused(base: seq<byte>, size: nat, xs: seq<Instruction>, tail: seq<byte>)
    requires AllWellFormed(xs) && |base| < HALF && size < HALF
    ensures Applied(base, Declared(base, size, EncodeAll(xs) + ([0] + tail))).Err?
  {
    hide Run, Ops, EncodeSize, EncodeAll, Applied, Holds, Declared;
    var rest := EncodeAll(xs) + ([0] + tail);
    var delta := Declared(base, size, rest);
    var i := |EncodeSize(|base|)| + |EncodeSize(size)|;
    DeclaredRuns(base, size, rest);
    OpsReserved(delta, i, xs, tail);
    if Run(base, delta, Ops(delta, i), Zeros(size), 0).Ok? {
      RunFills(base, delta, Ops(delta, i), Zeros(size), 0);
    }
  }
}
