/**
 Where a pkt-line stream ends badly (node/qn/git.js): the length field in characters, packets that are cut off or have
 no length a packet can have, and bands there are not.
 */
module GitPktLaws {
  import opened Sequences
  import opened Wrappers
  import opened Bytes
  import opened GitPktLine

  /** The characters "0123456789abcdef". */
  const HEX_DIGITS: seq<byte> := [48, 49, 50, 51, 52, 53, 54, 55, 56, 57, 97, 98, 99, 100, 101, 102]

  function Digit(d: nat): byte
    requires d < 16
  {
    HEX_DIGITS[d]
  }

  lemma HexStep(n: nat)
    ensures n < 16 ==> Hex(n) == [Digit(n)]
    ensures n >= 16 ==> Hex(n) == Hex(n / 16) + [Digit(n % 16)]
  {
  }

  lemma OneMoreDigit(n: nat, high: nat, low: nat, digits: seq<byte>)
    requires n == 16 * high + low && high > 0 && low < 16 && Hex(high) == digits
    ensures Hex(n) == digits + [Digit(low)]
  {
    assert n / 16 == high && n % 16 == low;
    HexStep(n);
  }

  /** A length below 65536 is written as four lower-case digits. */
  lemma FourDigits(a: nat, b: nat, c: nat, d: nat)
    requires a < 16 && b < 16 && c < 16 && d < 16
    ensures PaddedHex(4096 * a + 256 * b + 16 * c + d) == [Digit(a), Digit(b), Digit(c), Digit(d)]
  {
    hide Hex, Digit, HexDigit, PaddedHex;
    var ab := 16 * a + b;
    var abc := 16 * ab + c;
    var n := 16 * abc + d;
    var w, x, y, z := Digit(a), Digit(b), Digit(c), Digit(d);
    ZeroDigit();
    if a > 0 {
      HexStep(a);
      OneMoreDigit(ab, a, b, [w]);
      OneMoreDigit(abc, ab, c, [w, x]);
      OneMoreDigit(n, abc, d, [w, x, y]);
      Padded(n, [w, x, y, z]);
    } else if b > 0 {
      HexStep(ab);
      OneMoreDigit(abc, ab, c, [x]);
      OneMoreDigit(n, abc, d, [x, y]);
      Padded(n, [x, y, z]);
    } else if c > 0 {
      HexStep(abc);
      OneMoreDigit(n, abc, d, [y]);
      Padded(n, [y, z]);
    } else {
      HexStep(n);
      Padded(n, [z]);
    }
  }

  lemma ZeroDigit()
    ensures Digit(0) == 48
  {
  }

  lemma Padded(n: nat, h: seq<byte>)
    requires Hex(n) == h && 0 < |h| <= 4
    ensures |h| == 4 ==> PaddedHex(n) == [h[0], h[1], h[2], h[3]]
    ensures |h| == 3 ==> PaddedHex(n) == [48, h[0], h[1], h[2]]
    ensures |h| == 2 ==> PaddedHex(n) == [48, 48, h[0], h[1]]
    ensures |h| == 1 ==> PaddedHex(n) == [48, 48, 48, h[0]]
  {
    hide Hex;
  }

  lemma TwoDigits(first: byte, second: byte, tail: seq<byte>)
    requires DigitValue(first).Some? && DigitValue(second).Some?
    requires tail == [] || DigitValue(tail[0]).None?
    ensures DigitsValue([first, second] + tail, None)
         == Some(16 * DigitValue(first).value + DigitValue(second).value)
  {
    hide DigitValue;
    var s := [first, second] + tail;
    assert s[1..] == [second] + tail && s[1..][1..] == tail;
    assert DigitsValue(tail, Some(16 * DigitValue(first).value + DigitValue(second).value))
        == Some(16 * DigitValue(first).value + DigitValue(second).value);
  }

  /**
   `parseInt` takes more than four lower-case digits: "0x1F", "  2b" and "2Bg0" are
   numbers to it, and a sign before the digits counts.
   */
  lemma OddNumbers()
    ensures ParseInt([48, 120, 49, 70]) == Some(0x1f) && ParseInt([32, 32, 50, 98]) == Some(0x2b)
    ensures ParseInt([50, 66, 103, 48]) == Some(0x2b) && ParseInt([45, 50, 98]) == Some(-0x2b)
  {
    hide DigitsValue;
    assert [48, 120, 49, 70][2..] == [49, 70] + [];
    TwoDigits(49, 70, []);
    assert [32, 32, 50, 98][1..] == [32, 50, 98] && [32, 50, 98][1..] == [50, 98] + [];
    assert Trimmed([32, 32, 50, 98]) == Trimmed([32, 50, 98]) == Trimmed([50, 98]) == [50, 98];
    TwoDigits(50, 98, []);
    assert [50, 66, 103, 48] == [50, 66] + [103, 48];
    TwoDigits(50, 66, [103, 48]);
    assert [45, 50, 98][1..] == [50, 98] + [];
  }

  /** A packet whose length field says 2 or 3, or more than there is, or is no number, ends the iteration in an error. */
  lemma BadField(buf: seq<byte>, i: nat, length: nat)
    requires i + 4 <= |buf| && buf[i..i + 4] == PaddedHex(length)
    requires length == 2 || length == 3 || i + length > |buf|
    ensures PktAt(buf, i) == BadLength
  {
    hide ParseInt, PaddedHex;
    ParsePadded(length);
  }

  /** So does a length field whose first character, which is no space, no sign and no digit, is that of no number. */
  lemma NoNumber(buf: seq<byte>, i: nat)
    requires i + 4 <= |buf|
    requires 103 <= buf[i] || 58 <= buf[i] <= 64 || 71 <= buf[i] <= 96
    requires buf[i] != 160
    ensures PktAt(buf, i) == BadLength
  {
    var field := buf[i..i + 4];
    assert field[0] == buf[i];
    assert Trimmed(field) == field;
    hide Trimmed;
    assert DigitsValue(field, None) == None;
  }

  /** Packets before a bad one are still delivered, and fewer than four bytes at the end are ignored. */
  lemma {:induction false} StreamEnds(buf: seq<byte>, i: nat, fs: seq<Frame>)
    requires (forall f <- fs :: Fits(f)) && StandsAt(buf, i, EncodeFrames(fs))
    ensures var end := i + |EncodeFrames(fs)|;
      && (PktAt(buf, end) == BadLength ==> Packets(buf, i) == (FramesAt(fs, i), false))
      && (end + 4 > |buf| ==> Packets(buf, i) == (FramesAt(fs, i), true))
    decreases |fs|
  {
    hide PktAt, EncodeFrame, FrameAt, Fits, StandsAt;
    if fs == [] {
      assert i + |EncodeFrames(fs)| == i;
      TooShort(buf, i);
    } else {
      SplitStand(buf, i, EncodeFrame(fs[0]), EncodeFrames(fs[1..]));
      FrameReads(buf, i, fs[0]);
      FrameEnd(fs[0], i);
      var next := i + |EncodeFrame(fs[0])|;
      assert next + |EncodeFrames(fs[1..])| == i + |EncodeFrames(fs)|;
      StreamEnds(buf, next, fs[1..]);
    }
  }

  lemma TooShort(buf: seq<byte>, i: nat)
    ensures i + 4 > |buf| ==> PktAt(buf, i) == Done
  {
  }

  /** Demultiplexing fails at a bad packet, and at the first band other than 1, 2 and 3. */
  lemma {:induction false} BandsEnd(buf: seq<byte>, i: nat, xs: seq<Item>, band: byte, text: seq<byte>)
    requires (forall x <- xs :: Fits(ItemFrame(x))) && StandsAt(buf, i, EncodeFrames(ItemFrames(xs)))
    ensures var end := i + |EncodeFrames(ItemFrames(xs))|;
      && (PktAt(buf, end) == BadLength ==> Demuxed(buf, i) == Err(BadPacket))
      && (band != 1 && band != 2 && band != 3 && |text| < 65531 && StandsAt(buf, end, PktEncode([band] + text)) ==>
          Demuxed(buf, i) == Err(UnknownBand(band)))
    decreases |xs|
  {
    hide PktAt, EncodeFrame, FrameAt, Fits, StandsAt, ItemFrame, PktEncode;
    if xs == [] {
      assert i + |EncodeFrames(ItemFrames(xs))| == i;
      BadBand(buf, i, band, text);
    } else {
      var f, rest := ItemFrame(xs[0]), ItemFrames(xs[1..]);
      assert ItemFrames(xs)[1..] == rest;
      SplitStand(buf, i, EncodeFrame(f), EncodeFrames(rest));
      FrameReads(buf, i, f);
      FrameEnd(f, i);
      var next := i + |EncodeFrame(f)|;
      assert next + |EncodeFrames(rest)| == i + |EncodeFrames(ItemFrames(xs))|;
      BandsEnd(buf, next, xs[1..], band, text);
      FaultPasses(buf, i, xs[0], next);
    }
  }

  lemma BadBand(buf: seq<byte>, i: nat, band: byte, text: seq<byte>)
    ensures PktAt(buf, i) == BadLength ==> Demuxed(buf, i) == Err(BadPacket)
    ensures band != 1 && band != 2 && band != 3 && |text| < 65531 && StandsAt(buf, i, PktEncode([band] + text)) ==>
      Demuxed(buf, i) == Err(UnknownBand(band))
  {
    hide PktAt, PktEncode;
    if |text| < 65531 && StandsAt(buf, i, PktEncode([band] + text)) {
      PacketRoundTrip([band] + text, buf, i);
    }
  }

  /** A fault behind a good packet is the fault of the whole stream. */
  lemma FaultPasses(buf: seq<byte>, i: nat, x: Item, next: nat)
    requires PktAt(buf, i) == Next(FrameAt(ItemFrame(x), i)) && FrameAt(ItemFrame(x), i).end == next
    ensures Bands(buf, next).Err? ==> Bands(buf, i) == Err(Bands(buf, next).error)
  {
    hide PktAt, EncodeFrame;
    match x
    case Chunk(bytes) => assert ([1] + bytes)[0] == 1;
    case Progress(more) => assert ([2] + more)[0] == 2;
    case Complaint(more) => assert ([3] + more)[0] == 3;
    case _ =>
  }
}
