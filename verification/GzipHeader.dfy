/**
 The gzip member header (node/node/zlib.js): its parser, and the format it reads as an encoder written from
 section 2.3 of RFC 1952.
 */
module GzipHeader {
  import opened Sequences
  import opened Wrappers
  import opened Bytes
  import JsInt

  datatype Error =
    | TruncatedHeader | BadMagic | BadMethod
    | TruncatedExtra | TruncatedName | TruncatedComment | TruncatedHcrc
    | TruncatedTrailer | CrcMismatch | SizeMismatch | Incomplete

  const FEXTRA: nat := 2
  const FNAME: nat := 3
  const FCOMMENT: nat := 4
  const FHCRC: nat := 1

  /** Whether `flg & (1 << bit)` is not zero. */
  predicate Flag(flg: byte, bit: nat) {
    match bit
    case 1 => flg / 2 % 2 == 1
    case 2 => flg / 4 % 2 == 1
    case 3 => flg / 8 % 2 == 1
    case 4 => flg / 16 % 2 == 1
    case _ => false
  }

  // ---- what the parser computes, field by field ----

  function AfterExtra(buf: seq<byte>, off: nat): Result<nat, Error> {
    if off + 2 > |buf| then Err(TruncatedExtra)
    else
      var end := off + 2 + ReadU16(buf[off..]);
      if end > |buf| then Err(TruncatedExtra) else Ok(end)
  }

  /** The offset of the first zero byte from `off` on, or the end of the buffer. */
  function ZeroFrom(buf: seq<byte>, off: nat): (z: nat)
    requires off <= |buf|
    ensures off <= z <= |buf|
    ensures z < |buf| ==> buf[z] == 0
    ensures forall i | off <= i < z :: buf[i] != 0
    decreases |buf| - off
  {
    if off == |buf| || buf[off] == 0 then off else ZeroFrom(buf, off + 1)
  }

  function AfterString(buf: seq<byte>, off: nat, error: Error): Result<nat, Error>
    requires off <= |buf|
  {
    var z := ZeroFrom(buf, off);
    if z == |buf| then Err(error) else Ok(z + 1)
  }

  function AfterHcrc(buf: seq<byte>, off: nat): Result<nat, Error> {
    if off + 2 > |buf| then Err(TruncatedHcrc) else Ok(off + 2)
  }

  function ExtraStep(buf: seq<byte>, flg: byte): Result<nat, Error> {
    if Flag(flg, FEXTRA) then AfterExtra(buf, 10) else Ok(10)
  }

  function NameStep(buf: seq<byte>, flg: byte, off: nat): Result<nat, Error>
    requires off <= |buf|
  {
    if Flag(flg, FNAME) then AfterString(buf, off, TruncatedName) else Ok(off)
  }

  function CommentStep(buf: seq<byte>, flg: byte, off: nat): Result<nat, Error>
    requires off <= |buf|
  {
    if Flag(flg, FCOMMENT) then AfterString(buf, off, TruncatedComment) else Ok(off)
  }

  function HcrcStep(buf: seq<byte>, flg: byte, off: nat): Result<nat, Error> {
    if Flag(flg, FHCRC) then AfterHcrc(buf, off) else Ok(off)
  }

  function Fields(buf: seq<byte>, flg: byte): Result<nat, Error>
    requires |buf| >= 10
  {
    match ExtraStep(buf, flg)
    case Err(e) => Err(e)
    case Ok(a) =>
      match NameStep(buf, flg, a)
      case Err(e) => Err(e)
      case Ok(b) =>
        match CommentStep(buf, flg, b)
        case Err(e) => Err(e)
        case Ok(c) => HcrcStep(buf, flg, c)
  }

  /** The length of the header, or why there is none. */
  function HeaderLength(buf: seq<byte>): Result<nat, Error> {
    if |buf| < 10 then Err(TruncatedHeader)
    else if buf[0] != 0x1f || buf[1] != 0x8b then Err(BadMagic)
    else if buf[2] != 8 then Err(BadMethod)
    else Fields(buf, buf[3])
  }

  lemma HeaderFits(buf: seq<byte>)
    ensures HeaderLength(buf).Ok? ==> 10 <= HeaderLength(buf).value <= |buf|
  {
  }

  lemma LowHighByte(low: byte, high: byte)
    ensures JsInt.Or(low, JsInt.Shl(high, 8)) == low + TWO_8 * high
  {
    JsInt.ScaledByBytes(high);
    JsInt.ScaledByBytes(1);
    JsInt.ShlExact(high, 8);
    JsInt.OrDisjoint(low, high, 8);
  }

  /** `parseGzipHeader`. */
  method ParseGzipHeader(buf: seq<byte>) returns (r: Result<nat, Error>)
    ensures r == HeaderLength(buf)
  {
    hide Flag, ReadU16, JsInt.Or, JsInt.Shl;
    if |buf| < 10 { return Err(TruncatedHeader); }
    if buf[0] != 0x1f || buf[1] != 0x8b { return Err(BadMagic); }
    if buf[2] != 8 { return Err(BadMethod); }
    var flg := buf[3];
    var off := 10;
    if Flag(flg, FEXTRA) {
      if off + 2 > |buf| { return Err(TruncatedExtra); }
      var xlen := JsInt.Or(buf[off], JsInt.Shl(buf[off + 1], 8));
      ExtraLength(buf, off);
      off := off + 2 + xlen;
      if off > |buf| { return Err(TruncatedExtra); }
    }
    ghost var a := off;
    assert ExtraStep(buf, flg) == Ok(a);
    hide ExtraStep;
    if Flag(flg, FNAME) {
      off := SkipString(buf, off);
      if off >= |buf| { return Err(TruncatedName); }
      off := off + 1;
    }
    ghost var b := off;
    assert NameStep(buf, flg, a) == Ok(b);
    hide NameStep;
    if Flag(flg, FCOMMENT) {
      off := SkipString(buf, off);
      if off >= |buf| { return Err(TruncatedComment); }
      off := off + 1;
    }
    assert CommentStep(buf, flg, b) == Ok(off);
    hide CommentStep;
    if Flag(flg, FHCRC) {
      off := off + 2;
      if off > |buf| { return Err(TruncatedHcrc); }
    }
    return Ok(off);
  }

  lemma ExtraLength(buf: seq<byte>, off: nat)
    requires off + 2 <= |buf|
    ensures JsInt.Or(buf[off], JsInt.Shl(buf[off + 1], 8)) == ReadU16(buf[off..])
  {
    LowHighByte(buf[off], buf[off + 1]);
  }

  /** The scan for the zero that ends a name or a comment. */
  method SkipString(buf: seq<byte>, start: nat) returns (off: nat)
    requires start <= |buf|
    ensures off == ZeroFrom(buf, start)
  {
    off := start;
    while off < |buf| && buf[off] != 0
      invariant start <= off <= |buf|
      invariant ZeroFrom(buf, off) == ZeroFrom(buf, start)
    {
      off := off + 1;
    }
  }

  // ---- a prefix of the input ----

  /** A field ends inside a prefix exactly when it ends there in the whole input, and then in the same place. */
  ghost predicate SameWithin(part: Result<nat, Error>, whole: Result<nat, Error>, b: nat) {
    if whole.Ok? && whole.value <= b then part == whole else part.Err?
  }

  lemma ExtraWithin(buf: seq<byte>, b: nat, flg: byte)
    requires 10 <= b <= |buf|
    ensures SameWithin(ExtraStep(buf[..b], flg), ExtraStep(buf, flg), b)
  {
    if Flag(flg, FEXTRA) && 12 <= b {
      assert ReadU16(buf[..b][10..]) == ReadU16(buf[10..]);
    }
  }

  lemma ZeroWithin(buf: seq<byte>, b: nat, off: nat)
    requires off <= b <= |buf|
    ensures ZeroFrom(buf[..b], off) == Min(ZeroFrom(buf, off), b)
  {
    assert forall i | off <= i < b :: buf[..b][i] == buf[i];
  }

  lemma StringWithin(buf: seq<byte>, b: nat, off: nat, error: Error)
    requires off <= b <= |buf|
    ensures SameWithin(AfterString(buf[..b], off, error), AfterString(buf, off, error), b)
  {
    ZeroWithin(buf, b, off);
  }

  lemma FieldsWithin(buf: seq<byte>, b: nat, flg: byte)
    requires 10 <= b <= |buf|
    ensures SameWithin(Fields(buf[..b], flg), Fields(buf, flg), b)
  {
    ExtraWithin(buf, b, flg);
    hide ExtraStep, AfterString, Flag;
    var a := ExtraStep(buf, flg);
    if a.Ok? && a.value <= b {
      StringWithin(buf, b, a.value, TruncatedName);
      var n := NameStep(buf, flg, a.value);
      if n.Ok? && n.value <= b {
        StringWithin(buf, b, n.value, TruncatedComment);
      }
    }
  }

  /** The parser succeeds on a prefix exactly when the whole header is in it, and always with the same length. */
  lemma HeaderOfPrefix(buf: seq<byte>, b: nat)
    requires b <= |buf|
    ensures SameWithin(HeaderLength(buf[..b]), HeaderLength(buf), b)
  {
    HeaderFits(buf);
    if b >= 10 {
      assert buf[..b][0] == buf[0] && buf[..b][1] == buf[1] && buf[..b][2] == buf[2] && buf[..b][3] == buf[3];
      FieldsWithin(buf, b, buf[3]);
    }
  }

  // ---- the format ----

  /** A header as RFC 1952 describes it; `mid` is the time, the extra flags and the operating system. */
  datatype Header = Header(
    flg: byte, mid: seq<byte>, extra: seq<byte>, name: seq<byte>, comment: seq<byte>, hcrc: seq<byte>)

  ghost predicate WellFormed(h: Header) {
    && |h.mid| == 6
    && |h.extra| < TWO_16
    && (forall i | 0 <= i < |h.name| :: h.name[i] != 0)
    && (forall i | 0 <= i < |h.comment| :: h.comment[i] != 0)
    && |h.hcrc| == 2
  }

  function ExtraField(h: Header): seq<byte> {
    if Flag(h.flg, FEXTRA) then U16(|h.extra|) + h.extra else []
  }

  function NameField(h: Header): seq<byte> {
    if Flag(h.flg, FNAME) then h.name + [0] else []
  }

  function CommentField(h: Header): seq<byte> {
    if Flag(h.flg, FCOMMENT) then h.comment + [0] else []
  }

  function HcrcField(h: Header): seq<byte> {
    if Flag(h.flg, FHCRC) then h.hcrc else []
  }

  function FixedPart(h: Header): seq<byte> {
    [0x1f, 0x8b, 8, h.flg] + h.mid
  }

  function Encode(h: Header): seq<byte> {
    FixedPart(h) + ExtraField(h) + NameField(h) + CommentField(h) + HcrcField(h)
  }

  lemma StringReads(buf: seq<byte>, off: nat, text: seq<byte>, error: Error)
    requires StandsAt(buf, off, text + [0]) && forall i | 0 <= i < |text| :: text[i] != 0
    ensures AfterString(buf, off, error) == Ok(off + |text| + 1)
  {
    var s := text + [0];
    forall k | off <= k < off + |s| ensures buf[k] == s[k - off] {
      assert buf[off..off + |s|][k - off] == s[k - off];
    }
    ZeroFirst(buf, off, off + |text|);
  }

  lemma ZeroFirst(buf: seq<byte>, off: nat, z: nat)
    requires off <= z < |buf| && buf[z] == 0 && forall i | off <= i < z :: buf[i] != 0
    ensures ZeroFrom(buf, off) == z
  {
  }

  lemma ExtraReads(buf: seq<byte>, h: Header)
    requires WellFormed(h) && StandsAt(buf, 10, ExtraField(h))
    ensures ExtraStep(buf, h.flg) == Ok(10 + |ExtraField(h)|)
  {
    if Flag(h.flg, FEXTRA) {
      var e := ExtraField(h);
      assert buf[10..10 + |e|] == e;
      assert buf[10..] == U16(|h.extra|) + buf[12..] by {
        assert buf[10] == buf[10..10 + |e|][0] && buf[11] == buf[10..10 + |e|][1];
      }
      ReadWriteU16(|h.extra|, buf[12..]);
    }
  }

  lemma {:induction false} Places(buf: seq<byte>, a: seq<byte>, b: seq<byte>, c: seq<byte>, d: seq<byte>, e: seq<byte>)
    requires StandsAt(buf, 0, a + b + c + d + e)
    ensures StandsAt(buf, 0, a) && StandsAt(buf, |a|, b) && StandsAt(buf, |a + b|, c)
    ensures StandsAt(buf, |a + b + c|, d) && StandsAt(buf, |a + b + c + d|, e)
  {
    SplitStand(buf, 0, a + b + c + d, e);
    SplitStand(buf, 0, a + b + c, d);
    SplitStand(buf, 0, a + b, c);
    SplitStand(buf, 0, a, b);
  }

  /** The parser finds the length of every header of the format, whatever follows it. */
  lemma ReadsEveryHeader(h: Header, rest: seq<byte>)
    requires WellFormed(h)
    ensures HeaderLength(Encode(h) + rest) == Ok(|Encode(h)|)
  {
    var buf := Encode(h) + rest;
    var fixed, extra, name, comment := FixedPart(h), ExtraField(h), NameField(h), CommentField(h);
    assert StandsAt(buf, 0, Encode(h));
    Places(buf, fixed, extra, name, comment, HcrcField(h));
    FixedReads(buf, h);
    hide StandsAt, Encode, Fields, ExtraStep, NameStep, CommentStep, HcrcStep, ExtraField, NameField, CommentField, FixedPart;
    ExtraReads(buf, h);
    NameReads(buf, h, |fixed + extra|);
    CommentReads(buf, h, |fixed + extra + name|);
    EncodeLength(h, rest);
    FieldsChain(buf, h.flg, |fixed + extra|, |fixed + extra + name|, |fixed + extra + name + comment|);
  }

  lemma FieldsChain(buf: seq<byte>, flg: byte, a: nat, b: nat, c: nat)
    requires 10 <= a <= |buf| && b <= |buf| && c <= |buf|
    requires ExtraStep(buf, flg) == Ok(a) && NameStep(buf, flg, a) == Ok(b) && CommentStep(buf, flg, b) == Ok(c)
    ensures Fields(buf, flg) == HcrcStep(buf, flg, c)
  {
    hide ExtraStep, NameStep, CommentStep, HcrcStep;
  }

  lemma EncodeLength(h: Header, rest: seq<byte>)
    requires WellFormed(h)
    ensures var end := |FixedPart(h) + ExtraField(h) + NameField(h) + CommentField(h)|;
      |Encode(h)| == end + |HcrcField(h)| && HcrcStep(Encode(h) + rest, h.flg, end) == Ok(|Encode(h)|)
  {
    hide Flag, ExtraField, NameField, CommentField, FixedPart;
  }

  lemma FixedReads(buf: seq<byte>, h: Header)
    requires |h.mid| == 6 && StandsAt(buf, 0, FixedPart(h))
    ensures |buf| >= 10 && |FixedPart(h)| == 10
    ensures buf[0] == 0x1f && buf[1] == 0x8b && buf[2] == 8 && buf[3] == h.flg
  {
    assert forall i | 0 <= i < 4 :: buf[0..10][i] == buf[i];
  }

  lemma NameReads(buf: seq<byte>, h: Header, off: nat)
    requires WellFormed(h) && off <= |buf| && StandsAt(buf, off, NameField(h))
    ensures NameStep(buf, h.flg, off) == Ok(off + |NameField(h)|)
  {
    hide Flag, AfterString;
    if Flag(h.flg, FNAME) { StringReads(buf, off, h.name, TruncatedName); }
  }

  lemma CommentReads(buf: seq<byte>, h: Header, off: nat)
    requires WellFormed(h) && off <= |buf| && StandsAt(buf, off, CommentField(h))
    ensures CommentStep(buf, h.flg, off) == Ok(off + |CommentField(h)|)
  {
    hide Flag, AfterString;
    if Flag(h.flg, FCOMMENT) { StringReads(buf, off, h.comment, TruncatedComment); }
  }
}
