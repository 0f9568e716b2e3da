/**
 The incremental UTF-8 splitter of a child process stream (node/node/child_process/ChildProcess.js).

 The law: for every valid UTF-8 text under every chunking, each slice handed to the text decoder is made of whole
 code points, the slices join to the text, at most three bytes are carried over, and the flush finds nothing.
 */
module Utf8Decoder {
  import opened Bytes
  import opened Sequences

  // ---- UTF-8, as the syntax of section 4 of RFC 3629 ----

  predicate IsTail(b: byte) {
    0x80 <= b <= 0xBF
  }

  /** The octets of one code point. */
  predicate IsCodePoint(c: seq<byte>) {
    match |c|
    case 1 => c[0] <= 0x7F
    case 2 => 0xC2 <= c[0] <= 0xDF && IsTail(c[1])
    case 3 =>
      && 0xE0 <= c[0] <= 0xEF && IsTail(c[1]) && IsTail(c[2])
      && (c[0] == 0xE0 ==> c[1] >= 0xA0)
      && (c[0] == 0xED ==> c[1] <= 0x9F)
    case 4 =>
      && 0xF0 <= c[0] <= 0xF4 && IsTail(c[1]) && IsTail(c[2]) && IsTail(c[3])
      && (c[0] == 0xF0 ==> c[1] >= 0x90)
      && (c[0] == 0xF4 ==> c[1] <= 0x8F)
    case _ => false
  }

  /** The length of a code point, read off its first octet. */
  function LengthOf(lead: byte): nat {
    if lead <= 0x7F then 1
    else if 0xC2 <= lead <= 0xDF then 2
    else if 0xE0 <= lead <= 0xEF then 3
    else if 0xF0 <= lead <= 0xF4 then 4
    else 0
  }

  predicate Valid(s: seq<byte>)
    decreases |s|
  {
    s == [] ||
    (var n := LengthOf(s[0]);
     0 < n <= |s| && IsCodePoint(s[..n]) && Valid(s[n..]))
  }

  /** How many bytes of `s` are complete code points. */
  function Whole(s: seq<byte>): (k: nat)
    ensures k <= |s|
    decreases |s|
  {
    if s == [] || !(0 < LengthOf(s[0]) <= |s|) then 0
    else LengthOf(s[0]) + Whole(s[LengthOf(s[0])..])
  }

  /** A code point that has been begun and not finished, or nothing. */
  ghost predicate Begun(t: seq<byte>) {
    t == [] || exists c :: IsCodePoint(c) && |t| < |c| && t == c[..|t|]
  }

  lemma {:induction false} ValidConcat(a: seq<byte>, b: seq<byte>)
    requires Valid(a) && Valid(b)
    ensures Valid(a + b)
    decreases |a|
  {
    if a == [] {
      assert a + b == b;
    } else {
      var n := LengthOf(a[0]);
      assert (a + b)[..n] == a[..n] && (a + b)[n..] == a[n..] + b;
      ValidConcat(a[n..], b);
    }
  }

  /** A prefix of a valid text is a valid text followed by a code point begun, and the rest goes on from there. */
  lemma {:induction false} PrefixSplits(text: seq<byte>, p: seq<byte>)
    requires Valid(text) && p <= text
    ensures Valid(p[..Whole(p)]) && Begun(p[Whole(p)..]) && Valid(text[Whole(p)..])
    ensures p == text ==> Whole(p) == |p|
    decreases |p|
  {
    hide Begun, IsCodePoint;
    if p == [] {
      assert p[0..] == p && text[0..] == text && p[..0] == [];
      NothingBegun();
    } else {
      var n := LengthOf(text[0]);
      assert p[0] == text[0];
      WholeStep(p, n);
      hide LengthOf, Valid, Whole;
      HeadOf(text);
      if n <= |p| {
        var k := Whole(p[n..]);
        TakeDrop(text, p, n, k);
        PrefixSplits(text[n..], p[n..]);
        ValidCons(p[..n + k], n);
      } else {
        HeadBegun(text, p, n);
        assert p[0..] == p && text[0..] == text && p[..0] == [];
        ValidNothing();
      }
    }
  }

  lemma WholeStep(p: seq<byte>, n: nat)
    requires p != [] && n == LengthOf(p[0]) && n > 0
    ensures Whole(p) == if n <= |p| then n + Whole(p[n..]) else 0
  {
    hide LengthOf;
  }

  lemma NothingBegun()
    ensures Begun([])
  {
  }

  lemma ValidNothing()
    ensures Valid([])
  {
  }

  lemma HeadOf(text: seq<byte>)
    requires Valid(text) && text != []
    ensures var n := LengthOf(text[0]); 0 < n <= |text| && IsCodePoint(text[..n]) && Valid(text[n..])
  {
  }

  lemma ValidCons(s: seq<byte>, n: nat)
    requires s != [] && n == LengthOf(s[0]) && 0 < n <= |s| && IsCodePoint(s[..n]) && Valid(s[n..])
    ensures Valid(s)
  {
  }

  lemma HeadBegun(text: seq<byte>, p: seq<byte>, n: nat)
    requires p <= text && |p| < n <= |text| && IsCodePoint(text[..n])
    ensures Begun(p)
  {
    hide IsCodePoint;
    assert p == text[..n][..|p|];
  }

  lemma TakeDrop(text: seq<byte>, p: seq<byte>, n: nat, k: nat)
    requires p <= text && n + k <= |p|
    ensures p[..n] == text[..n] && p[n..] <= text[n..]
    ensures p[..n + k][n..] == p[n..][..k] && p[..n + k][..n] == p[..n]
    ensures p[n + k..] == p[n..][k..] && text[n + k..] == text[n..][k..]
  {
  }

  /** A valid text ends with a code point. */
  lemma {:induction false} LastCodePoint(v: seq<byte>) returns (k: nat)
    requires Valid(v) && v != []
    ensures k < |v| && IsCodePoint(v[k..])
    decreases |v|
  {
    hide IsCodePoint;
    var n := LengthOf(v[0]);
    if n == |v| {
      assert v[..n] == v == v[0..];
      return 0;
    }
    var j := LastCodePoint(v[n..]);
    assert v[n..][j..] == v[n + j..];
    return n + j;
  }

  // ---- where the decoder cuts ----

  /** The last position that is not a continuation byte, or the start. */
  function BackFrom(s: seq<byte>, start: nat): (k: nat)
    requires start < |s|
    ensures k <= start
  {
    if start > 0 && 0x80 <= s[start] < 0xC0 then BackFrom(s, start - 1) else start
  }

  /** The length the decoder expects, from the high bits of a byte alone. */
  function ExpectedLength(b: byte): nat {
    if 0xC0 <= b < 0xE0 then 2
    else if 0xE0 <= b < 0xF0 then 3
    else if 0xF0 <= b < 0xF8 then 4
    else 1
  }

  /** Where the slice ends and the carry-over begins. */
  function Cut(s: seq<byte>): (end: nat)
    ensures end <= |s|
  {
    if s == [] || s[|s| - 1] < 0x80 then |s|
    else
      var start := BackFrom(s, |s| - 1);
      if |s| - start < ExpectedLength(s[start]) then start else |s|
  }

  lemma {:induction false} BackStops(s: seq<byte>, start: nat, k: nat)
    requires k <= start < |s| && !IsTail(s[k]) && forall i | k < i <= start :: IsTail(s[i])
    ensures BackFrom(s, start) == k
  {
    if start > k { BackStops(s, start - 1, k); }
  }

  /** A text that is whole is not cut; one that ends with a code point begun is cut before it. */
  lemma CutsAtCodePoints(v: seq<byte>, t: seq<byte>)
    requires Valid(v) && Begun(t)
    ensures Cut(v + t) == |v|
  {
    hide Valid, IsCodePoint, Cut;
    if t != [] {
      var c :| IsCodePoint(c) && |t| < |c| && t == c[..|t|];
      CutsBefore(v, t, c);
    } else if v != [] {
      var k := LastCodePoint(v);
      assert v + t == v;
      LeavesWhole(v, k);
    }
  }

  lemma CutsBefore(v: seq<byte>, t: seq<byte>, c: seq<byte>)
    requires IsCodePoint(c) && 0 < |t| < |c| && t == c[..|t|]
    ensures Cut(v + t) == |v|
  {
    CodePointShape(c);
    hide IsCodePoint;
    var s := v + t;
    forall i | |v| <= i < |s| ensures s[i] == c[i - |v|] {
      assert s[i] == t[i - |v|];
    }
    BackStops(s, |s| - 1, |v|);
    hide BackFrom, ExpectedLength, IsTail;
    assert s[|s| - 1] == c[|t| - 1];
  }

  lemma LeavesWhole(v: seq<byte>, k: nat)
    requires k < |v| && IsCodePoint(v[k..])
    ensures Cut(v) == |v|
  {
    var c := v[k..];
    CodePointShape(c);
    hide IsCodePoint;
    forall i | k <= i < |v| ensures v[i] == c[i - k] {
    }
    BackStops(v, |v| - 1, k);
    hide BackFrom, ExpectedLength;
    assert v[|v| - 1] == c[|c| - 1];
  }

  lemma CodePointShape(c: seq<byte>)
    requires IsCodePoint(c)
    ensures 1 <= |c| <= 4 && ExpectedLength(c[0]) == |c| && !IsTail(c[0])
    ensures |c| == 1 ==> c[0] < 0x80
    ensures |c| > 1 ==> c[0] >= 0x80
    ensures forall i | 0 < i < |c| :: IsTail(c[i])
  {
  }

  // ---- the decoder ----

  class Utf8Decoder {
    /** No pending bytes are `null` in the source. */
    var pending: seq<byte>

    constructor ()
      ensures pending == []
    {
      pending := [];
    }

    /** `decode`, up to the call of the text decoder: the slice it is given. */
    method Decode(input: seq<byte>) returns (slice: seq<byte>)
      modifies this
      ensures var s := old(pending) + input;
        slice == s[..Cut(s)] && pending == s[Cut(s)..]
    {
      hide ExpectedLength, BackFrom;
      var bytes := input;
      if pending != [] {
        bytes := pending + input;
        pending := [];
      }
      assert bytes == old(pending) + input;
      var end := |bytes|;
      if end > 0 && bytes[end - 1] >= 0x80 {
        var start := ScanBack(bytes);
        var expectedLen := Expect(bytes[start]);
        if end - start < expectedLen {
          pending := bytes[start..];
          end := start;
        }
      }
      return bytes[..end];
    }

    /** The scan back over continuation bytes. */
    static method ScanBack(bytes: seq<byte>) returns (start: nat)
      requires bytes != []
      ensures start < |bytes| && start == BackFrom(bytes, |bytes| - 1)
    {
      start := |bytes| - 1;
      while start > 0 && 0x80 <= bytes[start] < 0xC0
        invariant start < |bytes| && BackFrom(bytes, start) == BackFrom(bytes, |bytes| - 1)
      {
        start := start - 1;
      }
    }

    /** The tests of the first byte against `0xE0`, `0xF0` and `0xF8`. */
    static method Expect(firstByte: byte) returns (expectedLen: nat)
      ensures expectedLen == ExpectedLength(firstByte)
    {
      expectedLen := 1;
      if 0xC0 <= firstByte < 0xE0 { expectedLen := 2; }
      else if 0xE0 <= firstByte < 0xF0 { expectedLen := 3; }
      else if 0xF0 <= firstByte < 0xF8 { expectedLen := 4; }
    }

    /** `flush`: whatever is pending. */
    method Flush() returns (slice: seq<byte>)
      modifies this
      ensures slice == old(pending) && pending == []
    {
      slice := pending;
      pending := [];
    }
  }

  /** The slices handed out for successive chunks, and what is pending after them. */
  function Decoded(pending: seq<byte>, chunks: seq<seq<byte>>): (seq<seq<byte>>, seq<byte>)
    decreases |chunks|
  {
    if chunks == [] then ([], pending)
    else
      var s := pending + chunks[0];
      var (slices, end) := Decoded(s[Cut(s)..], chunks[1..]);
      ([s[..Cut(s)]] + slices, end)
  }

  /** One chunk of a text: the slice is whole, what is carried is a code point begun, and the text goes on. */
  lemma ChunkSplits(text: seq<byte>, s: seq<byte>)
    requires Valid(text) && s <= text
    ensures Valid(s[..Cut(s)]) && Begun(s[Cut(s)..]) && Valid(text[Cut(s)..]) && |s[Cut(s)..]| <= 3
    ensures s == text ==> Cut(s) == |s|
  {
    hide Valid, Cut, Begun, Whole;
    var k := Whole(s);
    PrefixSplits(text, s);
    CutsAtCodePoints(s[..k], s[k..]);
    assert s[..k] + s[k..] == s;
    BegunIsShort(s[k..]);
  }

  lemma BegunIsShort(t: seq<byte>)
    requires Begun(t)
    ensures |t| <= 3
  {
    if t != [] {
      var c :| IsCodePoint(c) && |t| < |c| && t == c[..|t|];
      CodePointShape(c);
    }
  }

  /** The slice and the carry-over of a chunk, with the rest of the text behind them. */
  lemma CutText(text: seq<byte>, s: seq<byte>, rest: seq<byte>)
    requires Valid(text) && text == s + rest
    ensures Valid(s[..Cut(s)]) && Begun(s[Cut(s)..]) && |s[Cut(s)..]| <= 3
    ensures Valid(s[Cut(s)..] + rest) && text == s[..Cut(s)] + (s[Cut(s)..] + rest)
    ensures rest == [] ==> s[Cut(s)..] == []
  {
    hide Valid, Begun, Cut;
    ChunkSplits(text, s);
    Regroup(text, s, rest, Cut(s));
    if rest == [] { assert s == text; }
  }

  lemma Regroup(text: seq<byte>, s: seq<byte>, rest: seq<byte>, k: nat)
    requires text == s + rest && k <= |s|
    ensures text[k..] == s[k..] + rest && text == s[..k] + (s[k..] + rest)
  {
  }

  lemma TextOfChunks(pending: seq<byte>, chunks: seq<seq<byte>>)
    requires chunks != []
    ensures pending + Flatten(chunks) == pending + chunks[0] + Flatten(chunks[1..])
  {
    ConcatAssociates(pending, chunks[0], Flatten(chunks[1..]));
  }

  /** Every slice is whole, the slices join to the text, and nothing is left. */
  ghost predicate Splits(slices: seq<seq<byte>>, end: seq<byte>, text: seq<byte>) {
    (forall i | 0 <= i < |slices| :: Valid(slices[i])) && Flatten(slices) == text && end == []
  }

  lemma {:induction false} DecodesText(pending: seq<byte>, chunks: seq<seq<byte>>)
    requires Valid(pending + Flatten(chunks)) && (chunks == [] ==> pending == [])
    ensures Splits(Decoded(pending, chunks).0, Decoded(pending, chunks).1, pending + Flatten(chunks))
    decreases |chunks|
  {
    hide Valid, Begun, Cut, Flatten, Splits;
    if chunks == [] {
      NothingSplits(chunks);
    } else {
      var s, rest := pending + chunks[0], Flatten(chunks[1..]);
      TextOfChunks(pending, chunks);
      CutText(pending + Flatten(chunks), s, rest);
      NoChunks(chunks[1..]);
      DecodesText(s[Cut(s)..], chunks[1..]);
      var (slices, end) := Decoded(s[Cut(s)..], chunks[1..]);
      SplitsMore(s[..Cut(s)], slices, end, s[Cut(s)..] + rest);
    }
  }

  lemma NoChunks(chunks: seq<seq<byte>>)
    ensures chunks == [] ==> Flatten(chunks) == []
  {
  }

  lemma NothingSplits(chunks: seq<seq<byte>>)
    requires chunks == []
    ensures Splits([], [], [] + Flatten(chunks))
  {
  }

  lemma SplitsMore(slice: seq<byte>, slices: seq<seq<byte>>, end: seq<byte>, text: seq<byte>)
    requires Splits(slices, end, text) && Valid(slice)
    ensures Splits([slice] + slices, end, slice + text)
  {
    hide Valid;
    FlattenCons(slice, slices);
  }

  /** At every point of a text no more than three bytes are carried over. */
  lemma {:induction false} CarriesAtMostThree(pending: seq<byte>, chunks: seq<seq<byte>>, more: seq<byte>)
    requires Valid(pending + Flatten(chunks) + more) && |pending| <= 3
    ensures |Decoded(pending, chunks).1| <= 3
    decreases |chunks|
  {
    hide Valid, Begun, Cut, Flatten;
    if chunks != [] {
      var s, rest := pending + chunks[0], Flatten(chunks[1..]);
      TextOfChunks(pending, chunks);
      ConcatAssociates(s, rest, more);
      CutText(pending + Flatten(chunks) + more, s, rest + more);
      ConcatAssociates(s[Cut(s)..], rest, more);
      CarriesAtMostThree(s[Cut(s)..], chunks[1..], more);
    }
  }

  /** The whole property, for a text given in any chunks. */
  lemma SlicesAreWhole(chunks: seq<seq<byte>>)
    requires Valid(Flatten(chunks))
    ensures Splits(Decoded([], chunks).0, Decoded([], chunks).1, Flatten(chunks))
    ensures forall i | 0 <= i <= |chunks| :: |Decoded([], chunks[..i]).1| <= 3
  {
    hide Valid, Splits, Decoded, Flatten;
    assert [] + Flatten(chunks) == Flatten(chunks);
    DecodesText([], chunks);
    forall i | 0 <= i <= |chunks| ensures |Decoded([], chunks[..i]).1| <= 3 {
      assert chunks == chunks[..i] + chunks[i..];
      FlattenConcat(chunks[..i], chunks[i..]);
      assert [] + Flatten(chunks[..i]) + Flatten(chunks[i..]) == Flatten(chunks);
      CarriesAtMostThree([], chunks[..i], Flatten(chunks[i..]));
    }
  }

  /** Whatever the bytes are, nothing is lost: the slices, and then what is pending, are the bytes given. */
  lemma {:induction false} NothingLost(pending: seq<byte>, chunks: seq<seq<byte>>)
    ensures Flatten(Decoded(pending, chunks).0) + Decoded(pending, chunks).1 == pending + Flatten(chunks)
    decreases |chunks|
  {
    hide Cut;
    if chunks == [] {
      assert [] + pending == pending + [];
    } else {
      var s := pending + chunks[0];
      var rest := Decoded(s[Cut(s)..], chunks[1..]);
      NothingLost(s[Cut(s)..], chunks[1..]);
      hide Flatten, Decoded;
      TextOfChunks(pending, chunks);
      FlattenCons(s[..Cut(s)], rest.0);
      ConcatAssociates(s[..Cut(s)], Flatten(rest.0), rest.1);
      ConcatAssociates(s[..Cut(s)], s[Cut(s)..], Flatten(chunks[1..]));
      assert s[..Cut(s)] + s[Cut(s)..] == s;
    }
  }

  /**
   Where any bytes are cut, by the last byte that is no continuation byte: before it when it announces more bytes than
   are there, and otherwise not at all.
   */
  lemma CutsBy(front: seq<byte>, lead: byte, tail: seq<byte>)
    requires lead < 0x80 || lead >= 0xC0
    requires forall i | 0 <= i < |tail| :: 0x80 <= tail[i] < 0xC0
    ensures var needed := if lead < 0x80 || lead >= 0xF8 then 1 else if lead < 0xE0 then 2 else if lead < 0xF0 then 3 else 4;
      Cut(front + [lead] + tail) == if 1 + |tail| < needed then |front| else |front| + 1 + |tail|
  {
    hide BackFrom;
    var s := front + [lead] + tail;
    assert s[|front|] == lead && forall i | |front| < i < |s| :: s[i] == tail[i - |front| - 1];
    BackStops(s, |s| - 1, |front|);
  }
}
