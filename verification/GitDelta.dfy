/**
 Applying a git delta (node/qn/git.js, "Deltified representation" section of gitformat-pack).

 `ApplyDelta` fills a result buffer in place from the instructions of a delta, the copies clamped the way
 `Buffer.copy` clamps them. The laws say what it returns for the encoding of any list of instructions.
 */
module GitDelta {
  import opened Sequences
  import opened Wrappers
  import opened Bytes
  import opened JsInt
  import opened GitVarint

  datatype DeltaError = BaseSizeMismatch | ResultSizeMismatch | ReservedOpcode | OutOfBounds

  /** `src.copy(target, at, start, end)`: only what fits and exists is copied, and a start past the target throws. */
  function Blit(target: seq<byte>, at: nat, src: seq<byte>, start: nat, end: nat): (r: Result<seq<byte>, DeltaError>)
    requires start <= end
    ensures r.Ok? ==> |r.value| == |target|
    ensures r.Err? ==> r.error == OutOfBounds
  {
    if at > |target| then Err(OutOfBounds)
    else
      var chunk := Clip(src, start, start + Min(end - start, |target| - at));
      Ok(target[..at] + chunk + target[at + |chunk|..])
  }

  function Clip(src: seq<byte>, start: nat, end: nat): (chunk: seq<byte>)
    requires start <= end
    ensures |chunk| <= end - start
  {
    src[Min(start, |src|)..Min(end, |src|)]
  }

  method CopyInto(target: array<byte>, at: nat, src: seq<byte>, start: nat, end: nat) returns (ok: bool)
    requires start <= end
    modifies target
    ensures ok == Blit(old(target[..]), at, src, start, end).Ok?
    ensures ok ==> Ok(target[..]) == Blit(old(target[..]), at, src, start, end)
  {
    if at > target.Length { return false; }
    var from := Min(start, |src|);
    var to := Min(start + Min(end - start, target.Length - at), |src|);
    ghost var was := target[..];
    ghost var chunk := Clip(src, start, start + Min(end - start, target.Length - at));
    forall k | 0 <= k < to - from {
      target[at + k] := src[from + k];
    }
    assert target[..] == was[..at] + chunk + was[at + |chunk|..];
    return true;
  }

  /** The argument bytes of a copy instruction, least significant first: bit by bit, `bits` says which are present. */
  function Args(delta: seq<byte>, i: nat, bits: nat, n: nat, shift: nat, word: nat): (r: (nat, nat))
    ensures r.1 >= i
    decreases n
  {
    if n == 0 then (word, i)
    else if bits % 2 == 1 then Args(delta, i + 1, bits / 2, n - 1, shift + 8, Or(word, Shl(At(delta, i), shift)))
    else Args(delta, i, bits / 2, n - 1, shift + 8, word)
  }

  lemma ArgsStep(delta: seq<byte>, i: nat, bits: nat, n: nat, shift: nat, word: nat)
    requires n > 0
    ensures Args(delta, i, bits, n, shift, word) ==
      if bits % 2 == 1 then Args(delta, i + 1, bits / 2, n - 1, shift + 8, Or(word, Shl(At(delta, i), shift)))
      else Args(delta, i, bits / 2, n - 1, shift + 8, word)
    ensures n == 1 ==>
      Args(delta, i, bits, n, shift, word)
        == (if bits % 2 == 1 then (Or(word, Shl(At(delta, i), shift)), i + 1) else (word, i))
  {
    hide Or, Shl, At;
  }

  method ReadCopyOffset(delta: seq<byte>, start: nat, op: byte) returns (copyOff: nat, i: nat)
    ensures (copyOff, i) == Args(delta, start, op, 4, 0, 0)
  {
    hide Or, Shl, At, Args;
    copyOff, i := 0, start;
    ArgsStep(delta, i, op, 4, 0, copyOff);
    if op % 2 == 1 { copyOff := Or(copyOff, Shl(At(delta, i), 0)); i := i + 1; }
    ArgsStep(delta, i, op / 2, 3, 8, copyOff);
    if op / 2 % 2 == 1 { copyOff := Or(copyOff, Shl(At(delta, i), 8)); i := i + 1; }
    assert op / 2 / 2 == op / 4 && op / 4 / 2 == op / 8;
    ArgsStep(delta, i, op / 4, 2, 16, copyOff);
    if op / 4 % 2 == 1 { copyOff := Or(copyOff, Shl(At(delta, i), 16)); i := i + 1; }
    ArgsStep(delta, i, op / 8, 1, 24, copyOff);
    if op / 8 % 2 == 1 { copyOff := Or(copyOff, Shl(At(delta, i), 24)); i := i + 1; }
  }

  method ReadCopySize(delta: seq<byte>, start: nat, op: byte) returns (copySize: nat, i: nat)
    ensures (copySize, i) == Args(delta, start, op / 16, 3, 0, 0)
  {
    hide Or, Shl, At, Args;
    copySize, i := 0, start;
    assert op / 16 / 2 == op / 32 && op / 32 / 2 == op / 64;
    ArgsStep(delta, i, op / 16, 3, 0, copySize);
    if op / 16 % 2 == 1 { copySize := Or(copySize, Shl(At(delta, i), 0)); i := i + 1; }
    ArgsStep(delta, i, op / 32, 2, 8, copySize);
    if op / 32 % 2 == 1 { copySize := Or(copySize, Shl(At(delta, i), 8)); i := i + 1; }
    ArgsStep(delta, i, op / 64, 1, 16, copySize);
    if op / 64 % 2 == 1 { copySize := Or(copySize, Shl(At(delta, i), 16)); i := i + 1; }
  }

  function OrDefault(size: nat): nat {
    if size == 0 then 0x10000 else size
  }

  /** One decoded instruction; `Reserved` is the opcode the source refuses. */
  datatype Op = CopyOp(start: nat, size: nat) | InsertOp(at: nat, size: nat) | Reserved

  /** The instructions of a delta from position `i` on, up to the first refused one. */
  function Ops(delta: seq<byte>, i: nat): seq<Op>
    decreases |delta| - i
  {
    if i >= |delta| then []
    else if delta[i] >= 128 then
      var (off, i1) := Args(delta, i + 1, delta[i], 4, 0, 0);
      var (size, i2) := Args(delta, i1, delta[i] / 16, 3, 0, 0);
      [CopyOp(off, OrDefault(size))] + Ops(delta, i2)
    else if delta[i] != 0 then [InsertOp(i + 1, delta[i])] + Ops(delta, i + 1 + delta[i])
    else [Reserved]
  }

  /** Carrying out instructions on the result buffer, filled up to `outPos`. */
  function Run(base: seq<byte>, delta: seq<byte>, ops: seq<Op>, out: seq<byte>, outPos: nat): Result<seq<byte>, DeltaError>
    decreases |ops|
  {
    if ops == [] then
      if outPos != |out| then Err(ResultSizeMismatch) else Ok(out)
    else if ops[0].Reserved? then Err(ReservedOpcode)
    else
      match Perform(base, delta, ops[0], out, outPos)
      case Err(e) => Err(e)
      case Ok(filled) => Run(base, delta, ops[1..], filled, outPos + ops[0].size)
  }

  function Perform(base: seq<byte>, delta: seq<byte>, op: Op, out: seq<byte>, outPos: nat): Result<seq<byte>, DeltaError>
    requires !op.Reserved?
  {
    match op
    case CopyOp(start, size) => Blit(out, outPos, base, start, start + size)
    case InsertOp(at, size) => Blit(out, outPos, delta, at, at + size)
  }

  function Applied(base: seq<byte>, delta: seq<byte>): Result<seq<byte>, DeltaError> {
    var (baseSize, i1) := VarSizeAt(delta, 0);
    var (resultSize, i2) := VarSizeAt(delta, i1);
    if Signed(baseSize) != |base| then Err(BaseSizeMismatch)
    else if Signed(resultSize) < 0 || i2 < 0 then Err(OutOfBounds)
    else Run(base, delta, Ops(delta, i2), Zeros(Signed(resultSize)), 0)
  }

  /** `applyDelta`. */
  method ApplyDelta(base: seq<byte>, delta: seq<byte>) returns (r: Result<seq<byte>, DeltaError>)
    ensures r == Applied(base, delta)
  {
    var baseSize, i1 := ReadVarSize(delta, 0);
    var resultSize, i := ReadVarSize(delta, i1);
    if Signed(baseSize) != |base| { return Err(BaseSizeMismatch); }
    if Signed(resultSize) < 0 { return Err(OutOfBounds); }
    var out := new byte[Signed(resultSize)](_ => 0);
    assert out[..] == Zeros(Signed(resultSize));
    r := ApplyOps(base, delta, i, out);
  }

  /** The instruction loop. */
  method ApplyOps(base: seq<byte>, delta: seq<byte>, start: nat, out: array<byte>) returns (r: Result<seq<byte>, DeltaError>)
    modifies out
    ensures r == Run(base, delta, Ops(delta, start), old(out[..]), 0)
  {
    hide Args, Or, Shl, Clip, Blit, Run, Ops;
    var i := start;
    var outPos := 0;
    while i < |delta|
      invariant i >= 0 && outPos >= 0
      invariant Run(base, delta, Ops(delta, i), out[..], outPos) == Run(base, delta, Ops(delta, start), old(out[..]), 0)
      decreases |delta| - i
    {
      var op := delta[i];
      OpsHere(delta, i);
      i := i + 1;
      if op >= 128 {
        var copyOff, copySize;
        copyOff, i := ReadCopyOffset(delta, i, op);
        copySize, i := ReadCopySize(delta, i, op);
        if copySize == 0 { copySize := 0x10000; }
        RunHere(base, delta, CopyOp(copyOff, copySize), Ops(delta, i), out[..], outPos);
        var ok := CopyInto(out, outPos, base, copyOff, copyOff + copySize);
        if !ok { return Err(OutOfBounds); }
        outPos := outPos + copySize;
      } else if op != 0 {
        RunHere(base, delta, InsertOp(i, op), Ops(delta, i + op), out[..], outPos);
        var ok := CopyInto(out, outPos, delta, i, i + op);
        if !ok { return Err(OutOfBounds); }
        outPos := outPos + op;
        i := i + op;
      } else {
        RunHere(base, delta, Reserved, [], out[..], outPos);
        return Err(ReservedOpcode);
      }
    }
    RunOut(base, delta, i, out[..], outPos);
    if outPos != out.Length { return Err(ResultSizeMismatch); }
    return Ok(out[..]);
  }

  lemma OpsHere(delta: seq<byte>, i: nat)
    requires i < |delta|
    ensures var (off, i1) := Args(delta, i + 1, delta[i], 4, 0, 0);
      var (size, i2) := Args(delta, i1, delta[i] / 16, 3, 0, 0);
      Ops(delta, i) ==
        if delta[i] >= 128 then [CopyOp(off, OrDefault(size))] + Ops(delta, i2)
        else if delta[i] != 0 then [InsertOp(i + 1, delta[i])] + Ops(delta, i + 1 + delta[i])
        else [Reserved] + []
  {
    hide Args;
    assert [Reserved] + [] == [Reserved];
  }

  lemma RunHere(base: seq<byte>, delta: seq<byte>, op: Op, ops: seq<Op>, out: seq<byte>, outPos: nat)
    ensures Run(base, delta, [op] + ops, out, outPos) ==
      if op.Reserved? then Err(ReservedOpcode)
      else
        match Perform(base, delta, op, out, outPos)
        case Err(e) => Err(e)
        case Ok(filled) => Run(base, delta, ops, filled, outPos + op.size)
  {
    hide Perform;
    assert ([op] + ops)[1..] == ops;
  }

  lemma RunOut(base: seq<byte>, delta: seq<byte>, i: nat, out: seq<byte>, outPos: nat)
    requires i >= |delta|
    ensures Run(base, delta, Ops(delta, i), out, outPos) == if outPos != |out| then Err(ResultSizeMismatch) else Ok(out)
  {
  }

  // ---- the instructions a delta encodes ----

  /**
   An instruction as it is written: a copy says which of its four offset bytes and three size bytes are
   present, an insert carries its bytes.
   */
  datatype Instruction =
    | Copy(offset: seq<Option<byte>>, size: seq<Option<byte>>)
    | Insert(data: seq<byte>)

  ghost predicate WellFormed(x: Instruction) {
    match x
    case Copy(offset, size) => |offset| == 4 && |size| == 3
    case Insert(data) => 0 < |data| < 128
  }

  function Digit(b: Option<byte>): byte {
    match b case None => 0 case Some(v) => v
  }

  /** The number written by optional bytes, the first at bit `shift`. */
  function Number(bs: seq<Option<byte>>, shift: nat): nat {
    if bs == [] then 0 else Scaled(Digit(bs[0]), shift) + Number(bs[1..], shift + 8)
  }

  function Start(x: Instruction): nat
    requires x.Copy?
  {
    Number(x.offset, 0)
  }

  function Extent(x: Instruction): nat
    requires x.Copy?
  {
    OrDefault(Number(x.size, 0))
  }

  /** The presence bits of some bytes, below the bits `above`. */
  function Flags(bs: seq<Option<byte>>, above: nat): nat {
    if bs == [] then above else (if bs[0].Some? then 1 else 0) + 2 * Flags(bs[1..], above)
  }

  function Present(bs: seq<Option<byte>>): seq<byte> {
    if bs == [] then [] else (match bs[0] case None => [] case Some(v) => [v]) + Present(bs[1..])
  }

  function Opcode(x: Instruction): byte
    requires WellFormed(x)
  {
    match x
    case Copy(offset, size) => FlagsRange(offset, size); Flags(offset, Flags(size, 1))
    case Insert(data) => |data|
  }

  lemma FlagsRange(offset: seq<Option<byte>>, size: seq<Option<byte>>)
    requires |offset| == 4 && |size| == 3
    ensures 8 <= Flags(size, 1) < 16
    ensures 128 <= Flags(offset, Flags(size, 1)) < 256 && Flags(offset, Flags(size, 1)) / 16 == Flags(size, 1)
  {
    FlagsBounds(size, 1);
    FlagsBounds(offset, Flags(size, 1));
    ScaledBySeven(1);
    ScaledBySeven(Flags(size, 1));
  }

  lemma {:induction false} FlagsBounds(bs: seq<Option<byte>>, above: nat)
    ensures Scaled(above, |bs|) <= Flags(bs, above) < Scaled(above, |bs|) + Scaled(1, |bs|)
  {
    if bs != [] { FlagsBounds(bs[1..], above); }
  }

  function EncodeOne(x: Instruction): seq<byte>
    requires WellFormed(x)
  {
    [Opcode(x)] + match x
      case Copy(offset, size) => Present(offset) + Present(size)
      case Insert(data) => data
  }

  ghost predicate AllWellFormed(xs: seq<Instruction>) {
    forall x <- xs :: WellFormed(x)
  }

  function EncodeAll(xs: seq<Instruction>): seq<byte>
    requires AllWellFormed(xs)
  {
    if xs == [] then [] else EncodeOne(xs[0]) + EncodeAll(xs[1..])
  }

  /** What one instruction contributes to the result: a copy beyond the base leaves zeros. */
  function Piece(base: seq<byte>, x: Instruction): seq<byte>
    requires WellFormed(x)
  {
    match x
    case Copy(_, _) =>
      var chunk := Clip(base, Start(x), Start(x) + Extent(x));
      chunk + Zeros(Extent(x) - |chunk|)
    case Insert(data) => data
  }

  function Pieces(base: seq<byte>, xs: seq<Instruction>): seq<byte>
    requires AllWellFormed(xs)
  {
    if xs == [] then [] else Piece(base, xs[0]) + Pieces(base, xs[1..])
  }

  function Encode(base: seq<byte>, xs: seq<Instruction>): seq<byte>
    requires AllWellFormed(xs)
  {
    EncodeSize(|base|) + EncodeSize(|Pieces(base, xs)|) + EncodeAll(xs)
  }

  /** Reading the optional bytes at `i` gives the number they write and steps over exactly those present. */
  lemma {:induction false} ArgsRead(delta: seq<byte>, i: nat, bs: seq<Option<byte>>, above: nat, tail: seq<byte>, shift: nat, word: nat)
    requires Holds(delta, i, Present(bs) + tail)
    requires shift + 8 * |bs| <= 32 && word < Scaled(1, shift)
    ensures Args(delta, i, Flags(bs, above), |bs|, shift, word) == (word + Number(bs, shift), i + |Present(bs)|)
    ensures Holds(delta, i + |Present(bs)|, tail)
    decreases |bs|
  {
    hide Or, Shl, Scaled, Args;
    ArgsUnfold(delta, i, bs, above, shift, word);
    if bs == [] {
      assert Present(bs) + tail == tail;
    } else {
      var d, rest := Digit(bs[0]), bs[1..];
      var next := Present(rest) + tail;
      if bs[0].Some? {
        assert Present(bs) + tail == [d] + next;
        HoldsTail(delta, i, [d] + next);
        assert ([d] + next)[1..] == next;
        OrByte(word, d, shift);
        ArgsRead(delta, i + 1, rest, above, tail, shift + 8, word + Scaled(d, shift));
      } else {
        assert Present(bs) == Present(rest);
        ScaledZero(shift);
        ScaledMono(1, 1, shift, shift + 8);
        ArgsRead(delta, i, rest, above, tail, shift + 8, word);
      }
    }
  }

  lemma ArgsUnfold(delta: seq<byte>, i: nat, bs: seq<Option<byte>>, above: nat, shift: nat, word: nat)
    ensures Args(delta, i, Flags(bs, above), |bs|, shift, word) ==
      if bs == [] then (word, i)
      else if bs[0].Some? then
        Args(delta, i + 1, Flags(bs[1..], above), |bs[1..]|, shift + 8, Or(word, Shl(At(delta, i), shift)))
      else Args(delta, i, Flags(bs[1..], above), |bs[1..]|, shift + 8, word)
  {
    hide Or, Shl;
    if bs != [] {
      var more := Flags(bs[1..], above);
      assert Flags(bs, above) == (if bs[0].Some? then 1 else 0) + 2 * more;
      assert Flags(bs, above) / 2 == more;
    }
  }

  lemma OrByte(word: nat, d: byte, shift: nat)
    requires shift + 8 <= 32 && word < Scaled(1, shift)
    ensures Or(word, Shl(d, shift)) == word + Scaled(d, shift) < Scaled(1, shift + 8)
  {
    var n: nat := d;
    ScaledMore(1, 8, shift);
    ScaledByBytes(1);
    ScaledMono(n + 1, 256, shift, shift);
    ScaledSum(n, 1, shift);
    ScaledMono(1, 1, shift + 8, 32);
    ScaledWord();
    ShlSmall(n, shift);
    OrDisjoint(word, n, shift);
  }

  /** Filling a piece into the zeros behind what is done. */
  lemma BlitPiece(done: seq<byte>, room: nat, src: seq<byte>, start: nat, size: nat)
    requires size <= room
    ensures var chunk := Clip(src, start, start + size);
      Blit(done + Zeros(room), |done|, src, start, start + size)
        == Ok(done + (chunk + Zeros(size - |chunk|)) + Zeros(room - size))
  {
    var chunk := Clip(src, start, start + size);
    var out := done + Zeros(room);
    assert out[..|done|] == done;
    assert out[|done| + |chunk|..] == Zeros(size - |chunk|) + Zeros(room - size);
    assert done + chunk + (Zeros(size - |chunk|) + Zeros(room - size))
        == done + (chunk + Zeros(size - |chunk|)) + Zeros(room - size);
  }

  lemma InsertChunk(delta: seq<byte>, i: nat, data: seq<byte>, tail: seq<byte>)
    requires Holds(delta, i, data + tail)
    ensures Clip(delta, i, i + |data|) == data && Holds(delta, i + |data|, tail)
  {
    var end := i + |data + tail|;
    assert delta[i..i + |data|] == delta[i..end][..|data|] == data;
    assert delta[i + |data|..end] == delta[i..end][|data|..] == tail;
  }

  /** The instruction `x` written at position `i`, decoded. */
  function Decoded(x: Instruction, i: nat): Op
    requires WellFormed(x)
  {
    match x
    case Copy(_, _) => CopyOp(Start(x), Extent(x))
    case Insert(data) => InsertOp(i + 1, |data|)
  }

  function DecodedAll(xs: seq<Instruction>, i: nat): seq<Op>
    requires AllWellFormed(xs)
  {
    if xs == [] then [] else [Decoded(xs[0], i)] + DecodedAll(xs[1..], i + |EncodeOne(xs[0])|)
  }

  /** Every inserted run of bytes lies where the decoded instruction says. */
  ghost predicate Inserts(delta: seq<byte>, x: Instruction, i: nat) {
    x.Insert? ==> Clip(delta, i + 1, i + 1 + |x.data|) == x.data
  }

  ghost predicate AllInsert(delta: seq<byte>, xs: seq<Instruction>, i: nat)
    requires AllWellFormed(xs)
  {
    xs == [] || (Inserts(delta, xs[0], i) && AllInsert(delta, xs[1..], i + |EncodeOne(xs[0])|))
  }

  lemma OpsCopy(delta: seq<byte>, i: nat, off: nat, i1: nat, size: nat, i2: nat)
    requires i < |delta| && delta[i] >= 128
    requires Args(delta, i + 1, delta[i], 4, 0, 0) == (off, i1)
    requires Args(delta, i1, delta[i] / 16, 3, 0, 0) == (size, i2)
    ensures Ops(delta, i) == [CopyOp(off, OrDefault(size))] + Ops(delta, i2)
  {
    hide Args;
  }

  lemma UnitScale()
    ensures Scaled(1, 0) == 1
  {
  }

  lemma OpsOne(delta: seq<byte>, i: nat, x: Instruction, tail: seq<byte>)
    requires WellFormed(x) && Holds(delta, i, EncodeOne(x) + tail)
    ensures var next := i + |EncodeOne(x)|;
      && Holds(delta, next, tail) && Inserts(delta, x, i)
      && Ops(delta, i) == [Decoded(x, i)] + Ops(delta, next)
  {
    hide *;
    if x.Copy? { OpsOneCopy(delta, i, x, tail); } else { OpsOneInsert(delta, i, x, tail); }
  }

  lemma OpsOneCopy(delta: seq<byte>, i: nat, x: Instruction, tail: seq<byte>)
    requires x.Copy? && WellFormed(x) && Holds(delta, i, EncodeOne(x) + tail)
    ensures var next := i + |EncodeOne(x)|;
      && Holds(delta, next, tail) && Inserts(delta, x, i)
      && Ops(delta, i) == [Decoded(x, i)] + Ops(delta, next)
  {
    hide Or, Shl, Scaled, Clip, Args, Number, Ops, Holds;
    UnitScale();
    HoldsTail(delta, i, EncodeOne(x) + tail);
    var o, z := x.offset, x.size;
    FlagsRange(o, z);
    assert (EncodeOne(x) + tail)[1..] == Present(o) + (Present(z) + tail);
    var i1 := i + 1 + |Present(o)|;
    ArgsRead(delta, i + 1, o, Flags(z, 1), Present(z) + tail, 0, 0);
    ArgsRead(delta, i1, z, 1, tail, 0, 0);
    OpsCopy(delta, i, Number(o, 0), i1, Number(z, 0), i1 + |Present(z)|);
  }

  lemma OpsOneInsert(delta: seq<byte>, i: nat, x: Instruction, tail: seq<byte>)
    requires x.Insert? && WellFormed(x) && Holds(delta, i, EncodeOne(x) + tail)
    ensures var next := i + |EncodeOne(x)|;
      && Holds(delta, next, tail) && Inserts(delta, x, i)
      && Ops(delta, i) == [Decoded(x, i)] + Ops(delta, next)
  {
    hide Clip, Ops, Holds;
    HoldsTail(delta, i, EncodeOne(x) + tail);
    assert (EncodeOne(x) + tail)[1..] == x.data + tail;
    InsertChunk(delta, i + 1, x.data, tail);
    OpsInsert(delta, i);
  }

  lemma OpsInsert(delta: seq<byte>, i: nat)
    requires i < |delta| && 0 < delta[i] < 128
    ensures Ops(delta, i) == [InsertOp(i + 1, delta[i])] + Ops(delta, i + 1 + delta[i])
  {
    hide Args;
  }

  lemma {:induction false} OpsAll(delta: seq<byte>, i: nat, xs: seq<Instruction>)
    requires AllWellFormed(xs) && Holds(delta, i, EncodeAll(xs)) && i + |EncodeAll(xs)| == |delta|
    ensures Ops(delta, i) == DecodedAll(xs, i) && AllInsert(delta, xs, i)
    decreases |xs|
  {
    hide Args, EncodeOne, Decoded;
    if xs != [] {
      OpsOne(delta, i, xs[0], EncodeAll(xs[1..]));
      OpsAll(delta, i + |EncodeOne(xs[0])|, xs[1..]);
    }
  }

  lemma PerformPiece(base: seq<byte>, delta: seq<byte>, x: Instruction, i: nat, done: seq<byte>, room: nat)
    requires WellFormed(x) && Inserts(delta, x, i) && |Piece(base, x)| <= room
    ensures !Decoded(x, i).Reserved? && Decoded(x, i).size == |Piece(base, x)|
    ensures Perform(base, delta, Decoded(x, i), done + Zeros(room), |done|)
         == Ok(done + Piece(base, x) + Zeros(room - |Piece(base, x)|))
  {
    match x
    case Copy(_, _) => BlitPiece(done, room, base, Start(x), Extent(x));
    case Insert(data) =>
      BlitPiece(done, room, delta, i + 1, |data|);
      assert data + Zeros(0) == data;
  }

  /** Carrying out decoded instructions fills their pieces in order. */
  lemma {:induction false} RunAll(base: seq<byte>, delta: seq<byte>, i: nat, xs: seq<Instruction>, done: seq<byte>)
    requires AllWellFormed(xs) && AllInsert(delta, xs, i)
    ensures Run(base, delta, DecodedAll(xs, i), done + Zeros(|Pieces(base, xs)|), |done|) == Ok(done + Pieces(base, xs))
    decreases |xs|
  {
    hide Perform, Piece, EncodeOne, Decoded, Inserts;
    if xs == [] {
      assert done + Zeros(0) == done && done + Pieces(base, xs) == done;
    } else {
      var x, rest := xs[0], xs[1..];
      var next := i + |EncodeOne(x)|;
      var ops, piece := DecodedAll(xs, i), Piece(base, x);
      PerformPiece(base, delta, x, i, done, |Pieces(base, xs)|);
      RunAll(base, delta, next, rest, done + piece);
      assert ops[0] == Decoded(x, i) && ops[1..] == DecodedAll(rest, next);
      ConcatAssociates(done, piece, Pieces(base, rest));
    }
  }

  /**
   For every base and every list of instructions whose sizes stay below 2^31, applying their encoding
   consumes the whole delta and returns the pieces in order.
   */
  lemma ApplyEncoded(base: seq<byte>, xs: seq<Instruction>)
    requires AllWellFormed(xs) && |base| < HALF && |Pieces(base, xs)| < HALF
    ensures Applied(base, Encode(base, xs)) == Ok(Pieces(base, xs))
  {
    hide Run, Ops, SizeFrom, VarSizeAt, EncodeOne, Piece, Pieces, EncodeSize, Encode, Holds;
    var delta := Encode(base, xs);
    var n := |Pieces(base, xs)|;
    var b, r := EncodeSize(|base|), EncodeSize(n);
    EncodeParts(base, xs);
    VarSizeRoundTrip(delta, 0, |base|);
    VarSizeRoundTrip(delta, |b|, n);
    OpsAll(delta, |b| + |r|, xs);
    RunAll(base, delta, |b| + |r|, xs, []);
    assert [] + Zeros(n) == Zeros(n) && [] + Pieces(base, xs) == Pieces(base, xs);
  }

  lemma EncodeParts(base: seq<byte>, xs: seq<Instruction>)
    requires AllWellFormed(xs)
    ensures var delta := Encode(base, xs);
      var b, r := EncodeSize(|base|), EncodeSize(|Pieces(base, xs)|);
      && Holds(delta, 0, b) && Holds(delta, |b|, r)
      && Holds(delta, |b| + |r|, EncodeAll(xs)) && |b| + |r| + |EncodeAll(xs)| == |delta|
  {
    hide EncodeSize, Pieces, EncodeAll;
    var b, r := EncodeSize(|base|), EncodeSize(|Pieces(base, xs)|);
    assert Encode(base, xs) == b + (r + EncodeAll(xs));
  }

  /** A copy yields the bytes it names exactly when they lie in the base; otherwise its piece ends in a zero. */
  lemma PieceInRange(base: seq<byte>, x: Instruction)
    requires WellFormed(x) && x.Copy?
    ensures |Piece(base, x)| == Extent(x) > 0
    ensures Start(x) + Extent(x) <= |base| ==> Piece(base, x) == base[Start(x)..Start(x) + Extent(x)]
    ensures Start(x) + Extent(x) > |base| ==> Piece(base, x)[Extent(x) - 1] == 0
  {
  }
}
