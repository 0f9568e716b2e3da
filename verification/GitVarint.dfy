/**
 The variable-length numbers of a git pack (node/qn/git.js): the type-and-size header of an entry, the
 sizes at the front of a delta, and the backwards offset of an offset delta.
 */
module GitVarint {
  import opened Bytes
  import opened JsInt

  /** Indexing a buffer in the source; past its end the operators see `undefined` as zero. */
  function At(buf: seq<byte>, i: int): byte {
    if 0 <= i < |buf| then buf[i] else 0
  }

  /** How many bytes a reading loop can still use, given the byte it holds. */
  function Left(buf: seq<byte>, i: int, b: byte): nat {
    (if i < |buf| then |buf| - i else 0) + if b >= 128 then 1 else 0
  }

  // ---- sizes: base 128, least significant group first ----

  /** The loop shared by the header and the delta sizes, from the byte `b` on: the word read and where it ends. */
  function SizeFrom(buf: seq<byte>, i: int, b: byte, word: nat, shift: nat): (nat, int)
    decreases Left(buf, i, b)
  {
    if b < 128 then (word, i)
    else
      var b' := At(buf, i);
      SizeFrom(buf, i + 1, b', Or(word, Shl(b' % 128, shift)), shift + 7)
  }

  datatype Header = Header(kind: nat, size: nat, headerLen: int)

  function HeaderAt(buf: seq<byte>, off: int): Header {
    var b := At(buf, off);
    var (size, next) := SizeFrom(buf, off + 1, b, b % 16, 4);
    Header(b / 16 % 8, size, next - off)
  }

  /** `readPackObjectHeader`. */
  method ReadPackObjectHeader(buf: seq<byte>, off: int) returns (r: Header)
    ensures r == HeaderAt(buf, off)
  {
    var b := At(buf, off);
    var kind := b / 16 % 8;
    var size: nat := b % 16;
    var shift := 4;
    var i := off + 1;
    while b >= 128
      invariant shift >= 0 && size >= 0
      invariant SizeFrom(buf, i, b, size, shift) == SizeFrom(buf, off + 1, At(buf, off), At(buf, off) % 16, 4)
      decreases Left(buf, i, b)
    {
      b := At(buf, i);
      i := i + 1;
      size := Or(size, Shl(b % 128, shift));
      shift := shift + 7;
    }
    return Header(kind, size, i - off);
  }

  function VarSizeAt(buf: seq<byte>, off: int): (nat, int) {
    SizeFrom(buf, off + 1, At(buf, off), At(buf, off) % 128, 7)
  }

  /** `readVarSize` of a delta. */
  method ReadVarSize(buf: seq<byte>, off: int) returns (size: nat, next: int)
    ensures (size, next) == VarSizeAt(buf, off)
    ensures next > off
  {
    var b := At(buf, off);
    size := b % 128;
    var shift := 7;
    var i := off + 1;
    while b >= 128
      invariant shift >= 0 && i > off
      invariant SizeFrom(buf, i, b, size, shift) == VarSizeAt(buf, off)
      decreases Left(buf, i, b)
    {
      b := At(buf, i);
      i := i + 1;
      size := Or(size, Shl(b % 128, shift));
      shift := shift + 7;
    }
    next := i;
  }

  /** A byte string whose continuation bits end exactly at its last byte. */
  ghost predicate Complete(s: seq<byte>) {
    |s| > 0 && s[|s| - 1] < 128 && forall i | 0 <= i < |s| - 1 :: s[i] >= 128
  }

  function EncodeSize(n: nat): (s: seq<byte>) {
    if n < 128 then [n] else [128 + n % 128] + EncodeSize(n / 128)
  }

  /** The number a string of groups denotes when its first, least significant group stands at bit `shift`. */
  function SizeValue(s: seq<byte>, shift: nat): nat {
    if s == [] then 0 else Scaled(s[0] % 128, shift) + SizeValue(s[1..], shift + 7)
  }

  lemma {:induction false} EncodeSizeValue(n: nat, shift: nat)
    ensures Complete(EncodeSize(n)) && SizeValue(EncodeSize(n), shift) == Scaled(n, shift)
  {
    if n >= 128 {
      EncodeSizeValue(n / 128, shift + 7);
      var tail := EncodeSize(n / 128);
      assert EncodeSize(n)[1..] == tail;
      ScaledSplit(n / 128, n % 128, shift);
    } else {
      assert EncodeSize(n)[1..] == [];
    }
  }

  lemma ScaledSplit(high: nat, low: nat, shift: nat)
    ensures Scaled(128 * high + low, shift) == Scaled(low, shift) + Scaled(high, shift + 7)
  {
    ScaledSum(128 * high, low, shift);
    ScaledMore(high, 7, shift);
    ScaledBySeven(high);
  }

  ghost predicate Holds(buf: seq<byte>, off: int, s: seq<byte>) {
    0 <= off && off + |s| <= |buf| && buf[off..off + |s|] == s
  }

  lemma HoldsTail(buf: seq<byte>, off: int, s: seq<byte>)
    requires Holds(buf, off, s) && s != []
    ensures At(buf, off) == s[0] && Holds(buf, off + 1, s[1..])
  {
    assert buf[off] == buf[off..off + |s|][0];
    assert buf[off + 1..off + |s|] == buf[off..off + |s|][1..];
  }

  lemma OrGroup(word: nat, x: nat, shift: nat)
    requires x < 128 && word < Scaled(1, shift) && Scaled(x, shift) < HALF
    ensures Or(word, Shl(x, shift)) == word + Scaled(x, shift) < Scaled(1, shift + 7)
  {
    ShlExact(x, shift);
    OrDisjoint(word, x, shift);
    ScaledSum(x, 1, shift);
    ScaledMono(x + 1, 128, shift, shift);
    ScaledMore(1, 7, shift);
    ScaledBySeven(1);
  }

  lemma CompleteTail(s: seq<byte>)
    requires Complete(s)
    ensures s[0] >= 128 ==> |s| > 1 && Complete(s[1..])
    ensures s[0] < 128 ==> s[1..] == []
  {
    if |s| > 1 { assert s[1..][|s| - 2] == s[|s| - 1]; }
  }

  /** Reading the rest of a size whose value stays below 2^31 adds it at the current shift. */
  lemma {:induction false} SizeRest(buf: seq<byte>, i: int, b: byte, word: nat, shift: nat, rest: seq<byte>)
    requires b >= 128 && Complete(rest) && Holds(buf, i, rest)
    requires word < Scaled(1, shift) && word + SizeValue(rest, shift) < HALF
    ensures SizeFrom(buf, i, b, word, shift) == (word + SizeValue(rest, shift), i + |rest|)
    decreases |rest|
  {
    HoldsTail(buf, i, rest);
    CompleteTail(rest);
    var b' := rest[0];
    OrGroup(word, b' % 128, shift);
    if b' >= 128 {
      SizeRest(buf, i + 1, b', word + Scaled(b' % 128, shift), shift + 7, rest[1..]);
    }
  }

  /** On every complete string below 2^31 the size loop computes the number the string denotes. */
  lemma DecodesSize(buf: seq<byte>, off: int, s: seq<byte>)
    requires Complete(s) && Holds(buf, off, s) && SizeValue(s, 0) < HALF
    ensures VarSizeAt(buf, off) == (SizeValue(s, 0), off + |s|)
  {
    HoldsTail(buf, off, s);
    CompleteTail(s);
    var b, rest := s[0], s[1..];
    assert SizeValue(s, 0) == b % 128 + SizeValue(rest, 7);
    if b >= 128 {
      ScaledBySeven(1);
      SizeRest(buf, off + 1, b, b % 128, 7, rest);
    }
  }

  lemma VarSizeRoundTrip(buf: seq<byte>, off: int, n: nat)
    requires n < HALF && Holds(buf, off, EncodeSize(n))
    ensures VarSizeAt(buf, off) == (n, off + |EncodeSize(n)|)
  {
    EncodeSizeValue(n, 0);
    DecodesSize(buf, off, EncodeSize(n));
  }

  function EncodeHeader(kind: nat, size: nat): seq<byte>
    requires kind < 8
  {
    if size < 16 then [kind * 16 + size]
    else [128 + kind * 16 + size % 16] + EncodeSize(size / 16)
  }

  lemma DecodesHeader(buf: seq<byte>, off: int, kind: nat, low: nat, tail: seq<byte>)
    requires kind < 8 && low < 16 && Complete(tail) && low + SizeValue(tail, 4) < HALF
    requires Holds(buf, off, [128 + kind * 16 + low] + tail)
    ensures HeaderAt(buf, off) == Header(kind, low + SizeValue(tail, 4), 1 + |tail|)
  {
    var first: byte := 128 + kind * 16 + low;
    HoldsTail(buf, off, [first] + tail);
    assert ([first] + tail)[1..] == tail;
    ScaledBySeven(1);
    SizeRest(buf, off + 1, first, low, 4, tail);
    HeaderBits(kind, low);
  }

  lemma HeaderBits(kind: nat, low: nat)
    requires kind < 8 && low < 16
    ensures var first: byte := 128 + kind * 16 + low; first / 16 % 8 == kind && first % 16 == low
  {
    assert (128 + kind * 16 + low) / 16 == 8 + kind;
  }

  /** The entry header round-trips, whatever follows it ("Size encoding" section of gitformat-pack). */
  lemma HeaderRoundTrip(buf: seq<byte>, off: int, kind: nat, size: nat)
    requires kind < 8 && size < HALF && Holds(buf, off, EncodeHeader(kind, size))
    ensures HeaderAt(buf, off) == Header(kind, size, |EncodeHeader(kind, size)|)
  {
    hide Or, Shl, Scaled, EncodeSize, Holds;
    if size >= 16 {
      EncodeSizeValue(size / 16, 4);
      ScaledBySeven(size / 16);
      DecodesHeader(buf, off, kind, size % 16, EncodeSize(size / 16));
    } else {
      HoldsTail(buf, off, EncodeHeader(kind, size));
    }
  }

  // ---- which strings share a size ----

  /** The same number, as a plain sum of base-128 digits. */
  function Digits(s: seq<byte>): nat {
    if s == [] then 0 else s[0] % 128 + 128 * Digits(s[1..])
  }

  lemma {:induction false} SizeIsDigits(s: seq<byte>, shift: nat)
    ensures SizeValue(s, shift) == Scaled(Digits(s), shift)
    decreases |s|
  {
    if s != [] {
      SizeIsDigits(s[1..], shift + 7);
      ScaledSplit(Digits(s[1..]), s[0] % 128, shift);
    } else {
      ScaledZero(shift);
    }
  }

  lemma {:induction false} DigitsZero(s: seq<byte>)
    requires Complete(s) && Digits(s) == 0
    ensures s[|s| - 1] == 0
    decreases |s|
  {
    CompleteTail(s);
    if |s| > 1 { DigitsZero(s[1..]); }
  }

  /** No leading zero digit: the last, most significant group is not empty. */
  predicate Shortest(s: seq<byte>)
    requires s != []
  {
    |s| == 1 || s[|s| - 1] != 0
  }

  lemma {:induction false} DigitsShortest(s: seq<byte>)
    requires Complete(s)
    ensures EncodeSize(Digits(s)) == s <==> Shortest(s)
    decreases |s|
  {
    CompleteTail(s);
    if |s| == 1 {
      assert Digits(s[1..]) == 0;
      assert s == [s[0]];
    } else {
      var tail, n := s[1..], Digits(s);
      DigitsShortest(tail);
      assert s == [s[0]] + tail;
      assert n % 128 == s[0] - 128 && n / 128 == Digits(tail);
      if Digits(tail) == 0 {
        DigitsZero(tail);
        assert |EncodeSize(n)| == 1;
      } else {
        assert EncodeSize(n) == [s[0]] + EncodeSize(n / 128);
        assert ([s[0]] + EncodeSize(n / 128))[1..] == EncodeSize(n / 128);
      }
    }
  }

  /**
   A complete string is the encoding of the size it denotes exactly when its most significant group is not an empty
   one; so two such strings never share a size.
   */
  lemma SizeShortest(s: seq<byte>)
    requires Complete(s)
    ensures EncodeSize(SizeValue(s, 0)) == s <==> Shortest(s)
  {
    SizeIsDigits(s, 0);
    DigitsShortest(s);
  }

  lemma ShortestAreUnique(s: seq<byte>, t: seq<byte>)
    requires Complete(s) && Complete(t) && Shortest(s) && Shortest(t)
    ensures SizeValue(s, 0) == SizeValue(t, 0) <==> s == t
  {
    SizeShortest(s);
    SizeShortest(t);
  }

  /** The same digits and an empty group behind them. */
  function Longer(s: seq<byte>): seq<byte>
    requires Complete(s)
  {
    s[..|s| - 1] + [128 + s[|s| - 1], 0]
  }

  lemma {:induction false} LongerDigits(s: seq<byte>)
    requires Complete(s)
    ensures Complete(Longer(s)) && Digits(Longer(s)) == Digits(s)
    decreases |s|
  {
    CompleteTail(s);
    var long := Longer(s);
    if |s| == 1 {
      assert long[1..] == [0] && [0][1..] == [] && s[1..] == [];
    } else {
      LongerDigits(s[1..]);
      assert long == [s[0]] + Longer(s[1..]);
      assert long[1..] == Longer(s[1..]);
    }
  }

  /** Unlike an offset, every size has more than one encoding: a longer string is read as the same size. */
  lemma SizeNotInjective(n: nat, buf: seq<byte>, off: int)
    ensures Complete(EncodeSize(n)) && Complete(Longer(EncodeSize(n))) && Longer(EncodeSize(n)) != EncodeSize(n)
    ensures SizeValue(Longer(EncodeSize(n)), 0) == SizeValue(EncodeSize(n), 0) == n
    ensures n < HALF && Holds(buf, off, Longer(EncodeSize(n))) ==>
      VarSizeAt(buf, off) == (n, off + |EncodeSize(n)| + 1)
  {
    var s := EncodeSize(n);
    EncodeSizeValue(n, 0);
    LongerDigits(s);
    SizeIsDigits(s, 0);
    SizeIsDigits(Longer(s), 0);
    if n < HALF && Holds(buf, off, Longer(s)) { DecodesSize(buf, off, Longer(s)); }
  }

  // ---- offsets: base 128, most significant group first, one added at every continuation ----

  function OffsetFrom(buf: seq<byte>, i: int, b: byte, word: nat): (nat, int)
    decreases Left(buf, i, b)
  {
    if b < 128 then (word, i)
    else
      var b' := At(buf, i);
      OffsetFrom(buf, i + 1, b', Or(Shl(word + 1, 7), b' % 128))
  }

  /** The word `readOfsDeltaOffset` computes and how many bytes it used. */
  function OffsetAt(buf: seq<byte>, off: int): (nat, int) {
    var (word, next) := OffsetFrom(buf, off + 1, At(buf, off), At(buf, off) % 128);
    (word, next - off)
  }

  method ReadOfsDeltaOffset(buf: seq<byte>, off: int) returns (value: nat, len: int)
    ensures (value, len) == OffsetAt(buf, off)
  {
    var b := At(buf, off);
    value := b % 128;
    var i := off + 1;
    while b >= 128
      invariant OffsetFrom(buf, i, b, value) == OffsetFrom(buf, off + 1, At(buf, off), At(buf, off) % 128)
      decreases Left(buf, i, b)
    {
      value := value + 1;
      b := At(buf, i);
      i := i + 1;
      value := Or(Shl(value, 7), b % 128);
    }
    len := i - off;
  }

  /** The number a complete string of offset groups denotes. */
  function OffsetValue(s: seq<byte>): nat {
    if s == [] then 0
    else if |s| == 1 then s[0] % 128
    else (OffsetValue(s[..|s| - 1]) + 1) * 128 + s[|s| - 1] % 128
  }

  function Continued(n: nat): seq<byte> {
    if n < 128 then [128 + n] else Continued(n / 128 - 1) + [128 + n % 128]
  }

  function EncodeOffset(n: nat): seq<byte> {
    if n < 128 then [n] else Continued(n / 128 - 1) + [n % 128]
  }

  ghost predicate AllContinue(s: seq<byte>) {
    |s| > 0 && forall i | 0 <= i < |s| :: s[i] >= 128
  }

  lemma {:induction false} ContinuedValue(n: nat)
    ensures AllContinue(Continued(n)) && OffsetValue(Continued(n)) == n
  {
    if n >= 128 {
      var front := Continued(n / 128 - 1);
      ContinuedValue(n / 128 - 1);
      assert Continued(n)[..|front|] == front;
    }
  }

  lemma {:induction false} ContinuedUnique(s: seq<byte>)
    requires AllContinue(s)
    ensures Continued(OffsetValue(s)) == s
  {
    if |s| > 1 {
      var front := s[..|s| - 1];
      ContinuedUnique(front);
      var n := OffsetValue(s);
      assert n / 128 - 1 == OffsetValue(front) && n % 128 == s[|s| - 1] - 128;
      assert s == front + [s[|s| - 1]];
    }
  }

  lemma EncodeOffsetValue(n: nat)
    ensures Complete(EncodeOffset(n)) && OffsetValue(EncodeOffset(n)) == n
  {
    if n >= 128 {
      var front := Continued(n / 128 - 1);
      ContinuedValue(n / 128 - 1);
      assert EncodeOffset(n)[..|front|] == front;
    }
  }

  lemma EncodeOffsetUnique(s: seq<byte>)
    requires Complete(s)
    ensures EncodeOffset(OffsetValue(s)) == s
  {
    if |s| > 1 {
      var front := s[..|s| - 1];
      ContinuedUnique(front);
      var n := OffsetValue(s);
      assert n / 128 - 1 == OffsetValue(front) && n % 128 == s[|s| - 1];
      assert s == front + [s[|s| - 1]];
    }
  }

  /**
   Offset strings and numbers correspond one to one: every number has a complete string denoting it, and
   a complete string is the encoding of the number it denotes, so no two strings share a value.
   */
  lemma OffsetBijection(n: nat, s: seq<byte>)
    requires Complete(s)
    ensures Complete(EncodeOffset(n))
    ensures OffsetValue(s) == n <==> s == EncodeOffset(n)
  {
    EncodeOffsetValue(n);
    EncodeOffsetUnique(s);
  }

  lemma {:induction false} OffsetGrows(s: seq<byte>, k: nat)
    requires 0 < k <= |s|
    ensures OffsetValue(s[..k]) <= OffsetValue(s)
    decreases |s| - k
  {
    if k < |s| {
      OffsetGrows(s, k + 1);
      assert s[..k + 1][..k] == s[..k];
    } else {
      assert s[..k] == s;
    }
  }

  lemma HeldByte(buf: seq<byte>, off: int, s: seq<byte>, k: nat)
    requires Holds(buf, off, s) && k < |s|
    ensures At(buf, off + k) == s[k]
  {
    assert buf[off..off + |s|][k] == buf[off + k];
  }

  lemma OffsetValueSnoc(s: seq<byte>, k: nat)
    requires 0 < k < |s|
    ensures OffsetValue(s[..k + 1]) == (OffsetValue(s[..k]) + 1) * 128 + s[k] % 128
  {
    assert s[..k + 1][..k] == s[..k];
  }

  /** In the middle of a complete string below 2^31 the loop holds the value of the part already read. */
  lemma {:induction false} OffsetRest(buf: seq<byte>, off: int, s: seq<byte>, k: nat)
    requires Complete(s) && Holds(buf, off, s) && 0 < k <= |s| && OffsetValue(s) < HALF
    ensures OffsetFrom(buf, off + k, s[k - 1], OffsetValue(s[..k])) == (OffsetValue(s), off + |s|)
    decreases |s| - k
  {
    hide OffsetValue, Or, Shl, Holds, At;
    if k < |s| {
      HeldByte(buf, off, s, k);
      OffsetValueSnoc(s, k);
      OffsetGrows(s, k + 1);
      OffsetStep(OffsetValue(s[..k]), s[k]);
      OffsetRest(buf, off, s, k + 1);
    } else {
      assert s[..k] == s;
    }
  }

  lemma OffsetStep(word: nat, b: byte)
    requires (word + 1) * 128 < HALF
    ensures Or(Shl(word + 1, 7), b % 128) == (word + 1) * 128 + b % 128
  {
    var x, y: nat := b % 128, word + 1;
    ScaledBySeven(1);
    ScaledBySeven(y);
    ShlExact(y, 7);
    OrDisjoint(x, y, 7);
    OrCommutes(x, Scaled(y, 7));
  }

  /** Decoding an encoded offset gives it back with its length, whatever follows ("Offset encoding" of gitformat-pack). */
  lemma OffsetRoundTrip(buf: seq<byte>, off: int, n: nat)
    requires n < HALF && Holds(buf, off, EncodeOffset(n))
    ensures OffsetAt(buf, off) == (n, |EncodeOffset(n)|)
  {
    EncodeOffsetValue(n);
    DecodesComplete(buf, off, EncodeOffset(n));
  }

  /** On every complete string below 2^31 the decoder computes the number the string denotes. */
  lemma DecodesComplete(buf: seq<byte>, off: int, s: seq<byte>)
    requires Complete(s) && Holds(buf, off, s) && OffsetValue(s) < HALF
    ensures OffsetAt(buf, off) == (OffsetValue(s), |s|)
  {
    HoldsTail(buf, off, s);
    assert s[..1] == [s[0]];
    OffsetRest(buf, off, s, 1);
  }
}
