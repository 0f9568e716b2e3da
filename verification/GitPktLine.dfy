/**
 Pkt-line framing and sideband demultiplexing of the smart HTTP protocol (node/qn/git.js).

 A packet is four hexadecimal digits counting itself and its payload. The laws: iterating over concatenated
 packets gives them back with exact end offsets, a payload survives exactly when it has at most 65531 bytes,
 and the sideband stream yields the same pack bytes however they are cut into packets and interleaved.
 */
module GitPktLine {
  import opened Sequences
  import opened Wrappers
  import opened Bytes

  // ---- hexadecimal numbers ----

  function HexDigit(d: nat): byte
    requires d < 16
  {
    if d < 10 then 48 + d else 87 + d
  }

  function Hex(n: nat): seq<byte> {
    if n < 16 then [HexDigit(n)] else Hex(n / 16) + [HexDigit(n % 16)]
  }

  /** `toString(16).padStart(4, '0')`. */
  function PaddedHex(n: nat): seq<byte> {
    var h := Hex(n);
    if |h| >= 4 then h else seq(4 - |h|, _ => 48) + h
  }

  function DigitValue(b: byte): Option<nat> {
    if 48 <= b <= 57 then Some(b - 48)
    else if 97 <= b <= 102 then Some(b - 87)
    else if 65 <= b <= 70 then Some(b - 55)
    else None
  }

  /** The value of the longest prefix of hexadecimal digits, if there is one. */
  function DigitsValue(s: seq<byte>, soFar: Option<nat>): Option<nat> {
    if s == [] || DigitValue(s[0]).None? then soFar
    else DigitsValue(s[1..], Some((match soFar case None => 0 case Some(v) => 16 * v) + DigitValue(s[0]).value))
  }

  predicate IsSpace(b: byte) {
    9 <= b <= 13 || b == 32 || b == 160
  }

  function Trimmed(s: seq<byte>): seq<byte> {
    if s != [] && IsSpace(s[0]) then Trimmed(s[1..]) else s
  }

  /** `parseInt(s, 16)`: leading space, a sign and a `0x` are accepted, and anything after the digits is ignored. */
  function ParseInt(s: seq<byte>): Option<int> {
    var t := Trimmed(s);
    var negative := t != [] && t[0] == 45;
    var u := if t != [] && (t[0] == 45 || t[0] == 43) then t[1..] else t;
    var v := if |u| >= 2 && u[0] == 48 && (u[1] == 120 || u[1] == 88) then u[2..] else u;
    match DigitsValue(v, None)
    case None => None
    case Some(n) =>
      var value: int := n;
      Some(if negative then -value else value)
  }

  // ---- packets ----

  datatype Packet = Flush(end: nat) | Delim(end: nat) | Data(data: seq<byte>, end: nat)

  datatype Step = Done | BadLength | Next(packet: Packet)

  function PktEncode(payload: seq<byte>): seq<byte> {
    PaddedHex(|payload| + 4) + payload
  }

  /** What the iterator meets at offset `i`. */
  function PktAt(buf: seq<byte>, i: nat): (r: Step)
    ensures r.Next? ==> i + 4 <= r.packet.end <= |buf|
  {
    if i + 4 > |buf| then Done
    else
      match ParseInt(buf[i..i + 4])
      case None => BadLength
      case Some(len) =>
        if len == 0 then Next(Flush(i + 4))
        else if len == 1 then Next(Delim(i + 4))
        else if len < 4 || i + len > |buf| then BadLength
        else Next(Data(buf[i + 4..i + len], i + len))
  }

  /** All packets from offset `i` on, and whether the iteration ended without an error. */
  function Packets(buf: seq<byte>, i: nat): (seq<Packet>, bool)
    decreases |buf| - i
  {
    match PktAt(buf, i)
    case Done => ([], true)
    case BadLength => ([], false)
    case Next(p) => var (rest, ok) := Packets(buf, p.end); ([p] + rest, ok)
  }

  /** `pktIter`, run to its end. */
  method PktIter(buf: seq<byte>, start: nat) returns (packets: seq<Packet>, ok: bool)
    ensures (packets, ok) == Packets(buf, start)
  {
    hide ParseInt;
    packets := [];
    var i := start;
    assert [] + Packets(buf, i).0 == Packets(buf, i).0;
    while i + 4 <= |buf|
      invariant Packets(buf, start) == (packets + Packets(buf, i).0, Packets(buf, i).1)
      decreases |buf| - i
    {
      ghost var from := i;
      var len := ParseInt(buf[i..i + 4]);
      if len.None? {
        assert packets + [] == packets;
        return packets, false;
      }
      var packet;
      if len.value == 0 {
        packet := Flush(i + 4);
      } else if len.value == 1 {
        packet := Delim(i + 4);
      } else if len.value < 4 || i + len.value > |buf| {
        assert packets + [] == packets;
        return packets, false;
      } else {
        packet := Data(buf[i + 4..i + len.value], i + len.value);
      }
      i := packet.end;
      assert PktAt(buf, from) == Next(packet);
      ConcatAssociates(packets, [packet], Packets(buf, i).0);
      packets := packets + [packet];
    }
    assert packets + [] == packets;
    ok := true;
  }

  // ---- the digits of a length ----

  lemma DigitRoundTrip(d: nat)
    requires d < 16
    ensures DigitValue(HexDigit(d)) == Some(d) && !IsSpace(HexDigit(d))
    ensures HexDigit(d) !in {43, 45, 88, 120}
  {
  }

  ghost predicate AllDigits(s: seq<byte>) {
    forall i | 0 <= i < |s| :: DigitValue(s[i]).Some? && !IsSpace(s[i]) && s[i] !in {43, 45, 88, 120}
  }

  /** The number written by a string of digits. */
  function Value(s: seq<byte>): nat
    requires AllDigits(s)
  {
    if s == [] then 0 else 16 * Value(s[..|s| - 1]) + DigitValue(s[|s| - 1]).value
  }

  lemma {:induction false} DigitsValueIs(done: seq<byte>, rest: seq<byte>)
    requires AllDigits(done) && AllDigits(rest) && AllDigits(done + rest) && done != []
    ensures DigitsValue(rest, Some(Value(done))) == Some(Value(done + rest))
    decreases |rest|
  {
    if rest == [] {
      assert done + rest == done;
    } else {
      var next := done + [rest[0]];
      assert next[..|done|] == done;
      assert next + rest[1..] == done + rest;
      DigitsValueIs(next, rest[1..]);
    }
  }

  lemma ParseDigits(s: seq<byte>)
    requires AllDigits(s) && s != []
    ensures ParseInt(s) == Some(Value(s))
  {
    assert Trimmed(s) == s;
    assert s[..1] + s[1..] == s;
    var first := s[..1];
    assert first[..0] == [];
    assert Value(first) == DigitValue(s[0]).value;
    DigitsValueIs(first, s[1..]);
  }

  lemma {:induction false} HexValue(n: nat)
    ensures AllDigits(Hex(n)) && Value(Hex(n)) == n
  {
    DigitRoundTrip(n % 16);
    if n >= 16 {
      HexValue(n / 16);
      var h := Hex(n);
      assert h[..|h| - 1] == Hex(n / 16);
    } else {
      assert Hex(n)[..0] == [];
    }
  }

  lemma {:induction false} HexLength(n: nat)
    ensures n < 0x1_0000 <==> |Hex(n)| <= 4
    ensures n < 0x1000 <==> |Hex(n)| <= 3
    ensures n < 0x100 <==> |Hex(n)| <= 2
    ensures n < 0x10 <==> |Hex(n)| <= 1
  {
    if n >= 16 { HexLength(n / 16); }
  }

  lemma {:induction false} PrefixValue(s: seq<byte>, k: nat)
    requires AllDigits(s) && k <= |s| && AllDigits(s[..k])
    ensures Value(s[..k]) <= Value(s)
    ensures k < |s| && Value(s) > 0 ==> Value(s[..k]) < Value(s)
    decreases |s|
  {
    if k == |s| {
      assert s[..k] == s;
    } else {
      var front := s[..|s| - 1];
      assert front[..k] == s[..k];
      PrefixValue(front, k);
    }
  }

  lemma {:induction false} ZerosValue(z: nat, s: seq<byte>)
    requires AllDigits(s)
    ensures var padded := seq(z, _ => 48) + s;
      AllDigits(padded) && Value(padded) == Value(s)
    decreases |s|, z
  {
    var padded := seq(z, _ => 48) + s;
    if s == [] {
      if z > 0 {
        assert padded[..|padded| - 1] == seq(z - 1, _ => 48) + s;
        ZerosValue(z - 1, s);
      }
    } else {
      var front := s[..|s| - 1];
      assert padded[..|padded| - 1] == seq(z, _ => 48) + front;
      ZerosValue(z, front);
    }
  }

  lemma PaddedValue(n: nat)
    ensures |PaddedHex(n)| >= 4 && AllDigits(PaddedHex(n)) && Value(PaddedHex(n)) == n
    ensures n < 0x1_0000 <==> |PaddedHex(n)| == 4
  {
    HexValue(n);
    HexLength(n);
    if |Hex(n)| < 4 { ZerosValue(4 - |Hex(n)|, Hex(n)); }
  }

  /** The length field at the front of a packet, whatever follows: the first four digits of its size. */
  lemma LengthField(payload: seq<byte>, buf: seq<byte>, i: nat)
    requires i + |PktEncode(payload)| <= |buf| && buf[i..i + |PktEncode(payload)|] == PktEncode(payload)
    ensures var total := |payload| + 4;
      && ParseInt(buf[i..i + 4]).Some?
      && (total < 0x1_0000 ==> ParseInt(buf[i..i + 4]).value == total)
      && (total >= 0x1_0000 ==> ParseInt(buf[i..i + 4]).value < total)
  {
    var total := |payload| + 4;
    var digits := PaddedHex(total);
    PaddedValue(total);
    var field := buf[i..i + 4];
    assert field == buf[i..i + |PktEncode(payload)|][..4] == digits[..4];
    assert AllDigits(field);
    ParseDigits(field);
    PrefixValue(digits, 4);
    if total < 0x1_0000 { assert digits[..4] == digits; }
  }

  /** A packet comes back as it was encoded exactly when its payload has at most 65531 bytes. */
  lemma PacketRoundTrip(payload: seq<byte>, buf: seq<byte>, i: nat)
    requires i + |PktEncode(payload)| <= |buf| && buf[i..i + |PktEncode(payload)|] == PktEncode(payload)
    ensures PktAt(buf, i) == Next(Data(payload, i + |PktEncode(payload)|)) <==> |payload| <= 65531
  {
    hide ParseInt;
    LengthField(payload, buf, i);
    PaddedValue(|payload| + 4);
    if |payload| <= 65531 {
      var total := |payload| + 4;
      assert buf[i + 4..i + total] == buf[i..i + total][4..] == payload;
    }
  }

  // ---- a stream of packets ----

  datatype Frame = FlushFrame | DelimFrame | DataFrame(payload: seq<byte>)

  const FLUSH: seq<byte> := [48, 48, 48, 48]
  const DELIM: seq<byte> := [48, 48, 48, 49]

  function EncodeFrame(f: Frame): (s: seq<byte>)
  {
    match f
    case FlushFrame => FLUSH
    case DelimFrame => DELIM
    case DataFrame(payload) => PktEncode(payload)
  }

  function EncodeFrames(fs: seq<Frame>): seq<byte> {
    if fs == [] then [] else EncodeFrame(fs[0]) + EncodeFrames(fs[1..])
  }

  ghost predicate Fits(f: Frame) {
    f.DataFrame? ==> |f.payload| <= 65531
  }

  function FrameAt(f: Frame, i: nat): Packet {
    var end := i + |EncodeFrame(f)|;
    match f
    case FlushFrame => Flush(end)
    case DelimFrame => Delim(end)
    case DataFrame(payload) => Data(payload, end)
  }

  function FramesAt(fs: seq<Frame>, i: nat): seq<Packet> {
    if fs == [] then [] else [FrameAt(fs[0], i)] + FramesAt(fs[1..], i + |EncodeFrame(fs[0])|)
  }

  lemma ParsePadded(n: nat)
    ensures ParseInt(PaddedHex(n)) == Some(n)
  {
    PaddedValue(n);
    ParseDigits(PaddedHex(n));
  }

  lemma ParseMarkers()
    ensures ParseInt(FLUSH) == Some(0) && ParseInt(DELIM) == Some(1)
  {
    assert PaddedHex(0) == FLUSH && PaddedHex(1) == DELIM;
    hide ParseInt, PaddedHex;
    ParsePadded(0);
    ParsePadded(1);
  }

  lemma FrameReads(buf: seq<byte>, i: nat, f: Frame)
    requires Fits(f) && StandsAt(buf, i, EncodeFrame(f))
    ensures PktAt(buf, i) == Next(FrameAt(f, i))
  {
    hide ParseInt, PktEncode;
    match f
    case DataFrame(payload) => PacketRoundTrip(payload, buf, i);
    case _ => ParseMarkers();
  }

  /** Iterating over encoded packets yields them in order, each with the offset just past it. */
  lemma {:induction false} StreamRoundTrip(buf: seq<byte>, i: nat, fs: seq<Frame>)
    requires (forall f <- fs :: Fits(f)) && StandsAt(buf, i, EncodeFrames(fs)) && i + |EncodeFrames(fs)| == |buf|
    ensures Packets(buf, i) == (FramesAt(fs, i), true)
    decreases |fs|
  {
    hide PktAt, EncodeFrame, FrameAt;
    if fs == [] {
      NothingLeft(buf, i);
    } else {
      SplitStand(buf, i, EncodeFrame(fs[0]), EncodeFrames(fs[1..]));
      FrameReads(buf, i, fs[0]);
      FrameEnd(fs[0], i);
      StreamRoundTrip(buf, i + |EncodeFrame(fs[0])|, fs[1..]);
    }
  }

  lemma NothingLeft(buf: seq<byte>, i: nat)
    requires i >= |buf|
    ensures PktAt(buf, i) == Done
  {
  }

  lemma FrameEnd(f: Frame, i: nat)
    ensures FrameAt(f, i).end == i + |EncodeFrame(f)|
  {
  }

  // ---- sideband ----

  datatype DemuxError = BadPacket | UnknownBand(band: byte) | ServerError(text: seq<byte>)

  /** The pack bytes and server errors collected from offset `i` on, or the first fault. */
  function Bands(buf: seq<byte>, i: nat): Result<(seq<byte>, seq<byte>), DemuxError>
    decreases |buf| - i
  {
    match PktAt(buf, i)
    case Done => Ok(([], []))
    case BadLength => Err(BadPacket)
    case Next(Flush(_)) => Ok(([], []))
    case Next(Delim(end)) => Bands(buf, end)
    case Next(Data(data, end)) =>
      if data == [] then Bands(buf, end)
      else if !(1 <= data[0] <= 3) then Err(UnknownBand(data[0]))
      else
        match Bands(buf, end)
        case Err(e) => Err(e)
        case Ok(rest) =>
          Ok((if data[0] == 1 then data[1..] + rest.0 else rest.0,
              if data[0] == 3 then data[1..] + rest.1 else rest.1))
  }

  function Demuxed(buf: seq<byte>, start: nat): Result<seq<byte>, DemuxError> {
    match Bands(buf, start)
    case Err(e) => Err(e)
    case Ok(r) => if r.1 != [] then Err(ServerError(r.1)) else Ok(r.0)
  }

  function With(r: Result<(seq<byte>, seq<byte>), DemuxError>, data: seq<byte>, errors: seq<byte>)
    : Result<(seq<byte>, seq<byte>), DemuxError>
  {
    match r
    case Err(e) => Err(e)
    case Ok(x) => Ok((data + x.0, errors + x.1))
  }

  /** `demuxSideband`. */
  method DemuxSideband(buf: seq<byte>, start: nat) returns (r: Result<seq<byte>, DemuxError>)
    ensures r == Demuxed(buf, start)
  {
    hide PktAt;
    var dataChunks: seq<seq<byte>> := [];
    var errors: seq<byte> := [];
    var i := start;
    var going := true;
    assert With(Bands(buf, i), [], []) == Bands(buf, start) by { WithNothing(Bands(buf, i)); }
    while going
      invariant going ==> With(Bands(buf, i), Flatten(dataChunks), errors) == Bands(buf, start)
      invariant !going ==> Bands(buf, start) == Ok((Flatten(dataChunks), errors))
      decreases going, |buf| - i
    {
      var step := PktAt(buf, i);
      ghost var before := Bands(buf, i);
      match step
      case Done =>
        WithEmpty(Flatten(dataChunks), errors);
        going := false;
      case BadLength => return Err(BadPacket);
      case Next(Flush(_)) =>
        WithEmpty(Flatten(dataChunks), errors);
        going := false;
      case Next(Delim(end)) => i := end;
      case Next(Data(data, end)) =>
        i := end;
        if |data| != 0 {
          var band := data[0];
          var payload := data[1..];
          if band == 1 {
            WithData(Bands(buf, i), Flatten(dataChunks), errors, payload);
            FlattenSnoc(dataChunks, payload);
            dataChunks := dataChunks + [payload];
          } else if band == 3 {
            WithErrors(Bands(buf, i), Flatten(dataChunks), errors, payload);
            errors := errors + payload;
          } else if band != 2 {
            return Err(UnknownBand(band));
          }
        }
    }
    if errors != [] { return Err(ServerError(errors)); }
    return Ok(Flatten(dataChunks));
  }

  lemma WithNothing(r: Result<(seq<byte>, seq<byte>), DemuxError>)
    ensures With(r, [], []) == r
  {
    match r
    case Err(_) =>
    case Ok(x) => assert [] + x.0 == x.0 && [] + x.1 == x.1;
  }

  lemma WithEmpty(data: seq<byte>, errors: seq<byte>)
    ensures With(Ok(([], [])), data, errors) == Ok((data, errors))
  {
    assert data + [] == data && errors + [] == errors;
  }

  lemma WithData(r: Result<(seq<byte>, seq<byte>), DemuxError>, data: seq<byte>, errors: seq<byte>, more: seq<byte>)
    ensures With(With(r, more, []), data, errors) == With(r, data + more, errors)
    ensures r.Ok? ==> With(r, more, []) == Ok((more + r.value.0, r.value.1))
  {
    match r
    case Err(_) =>
    case Ok(x) =>
      ConcatAssociates(data, more, x.0);
      assert [] + x.1 == x.1;
  }

  lemma WithErrors(r: Result<(seq<byte>, seq<byte>), DemuxError>, data: seq<byte>, errors: seq<byte>, more: seq<byte>)
    ensures With(With(r, [], more), data, errors) == With(r, data, errors + more)
    ensures r.Ok? ==> With(r, [], more) == Ok((r.value.0, more + r.value.1))
  {
    match r
    case Err(_) =>
    case Ok(x) =>
      ConcatAssociates(errors, more, x.1);
      assert [] + x.0 == x.0;
  }

  /** What a server may send before the closing flush: pack bytes, progress, error text, empty packets, delimiters. */
  datatype Item = Chunk(bytes: seq<byte>) | Progress(text: seq<byte>) | Complaint(text: seq<byte>) | Empty | Separator

  function ItemFrame(x: Item): Frame {
    match x
    case Chunk(bytes) => DataFrame([1] + bytes)
    case Progress(text) => DataFrame([2] + text)
    case Complaint(text) => DataFrame([3] + text)
    case Empty => DataFrame([])
    case Separator => DelimFrame
  }

  function ItemFrames(xs: seq<Item>): seq<Frame> {
    if xs == [] then [] else [ItemFrame(xs[0])] + ItemFrames(xs[1..])
  }

  function PackBytes(xs: seq<Item>): seq<byte> {
    if xs == [] then []
    else (match xs[0] case Chunk(bytes) => bytes case _ => []) + PackBytes(xs[1..])
  }

  function ErrorText(xs: seq<Item>): seq<byte> {
    if xs == [] then []
    else (match xs[0] case Complaint(text) => text case _ => []) + ErrorText(xs[1..])
  }

  /** Nothing but the end of the buffer, or a flush packet with anything behind it. */
  ghost predicate Closed(buf: seq<byte>, i: nat) {
    PktAt(buf, i).Done? || (PktAt(buf, i).Next? && PktAt(buf, i).packet.Flush?)
  }

  lemma {:induction false} BandsCollect(buf: seq<byte>, i: nat, xs: seq<Item>)
    requires (forall x <- xs :: Fits(ItemFrame(x))) && StandsAt(buf, i, EncodeFrames(ItemFrames(xs)))
    requires Closed(buf, i + |EncodeFrames(ItemFrames(xs))|)
    ensures Bands(buf, i) == Ok((PackBytes(xs), ErrorText(xs)))
    decreases |xs|
  {
    hide PktAt, EncodeFrame, FrameAt, Fits, StandsAt, Closed, ItemFrame;
    if xs == [] {
      NothingCollected(buf, i, xs);
    } else {
      var f, rest := ItemFrame(xs[0]), ItemFrames(xs[1..]);
      assert ItemFrames(xs)[1..] == rest;
      SplitStand(buf, i, EncodeFrame(f), EncodeFrames(rest));
      FrameReads(buf, i, f);
      var next := i + |EncodeFrame(f)|;
      assert next + |EncodeFrames(rest)| == i + |EncodeFrames(ItemFrames(xs))|;
      FrameEnd(f, i);
      BandsCollect(buf, next, xs[1..]);
      hide Bands, PackBytes, ErrorText;
      BandStep(buf, i, xs[0], next, PackBytes(xs[1..]), ErrorText(xs[1..]));
      CollectedStep(xs);
    }
  }

  lemma NothingCollected(buf: seq<byte>, i: nat, xs: seq<Item>)
    requires xs == [] && Closed(buf, i + |EncodeFrames(ItemFrames(xs))|)
    ensures Bands(buf, i) == Ok((PackBytes(xs), ErrorText(xs)))
  {
    hide PktAt;
  }

  function BytesOf(x: Item): seq<byte> {
    match x case Chunk(bytes) => bytes case _ => []
  }

  function TextOf(x: Item): seq<byte> {
    match x case Complaint(text) => text case _ => []
  }

  lemma CollectedStep(xs: seq<Item>)
    requires xs != []
    ensures PackBytes(xs) == BytesOf(xs[0]) + PackBytes(xs[1..]) && ErrorText(xs) == TextOf(xs[0]) + ErrorText(xs[1..])
  {
  }

  /** One more packet of the stream in front of what has been collected behind it. */
  lemma BandStep(buf: seq<byte>, i: nat, x: Item, next: nat, data: seq<byte>, text: seq<byte>)
    requires PktAt(buf, i) == Next(FrameAt(ItemFrame(x), i)) && FrameAt(ItemFrame(x), i).end == next
    requires Bands(buf, next) == Ok((data, text))
    ensures Bands(buf, i) == Ok((BytesOf(x) + data, TextOf(x) + text))
  {
    hide PktAt, EncodeFrame;
    assert [] + data == data && [] + text == text;
    match x
    case Chunk(bytes) => assert ([1] + bytes)[1..] == bytes;
    case Progress(more) => assert ([2] + more)[1..] == more;
    case Complaint(more) => assert ([3] + more)[1..] == more;
    case _ =>
  }

  /**
   Demultiplexing returns the pack bytes for every way of cutting them into packets and interleaving them with
   progress, empty packets and delimiters; it fails exactly when the server sent error text.
   */
  lemma DemuxIndependent(buf: seq<byte>, i: nat, xs: seq<Item>)
    requires (forall x <- xs :: Fits(ItemFrame(x))) && StandsAt(buf, i, EncodeFrames(ItemFrames(xs)))
    requires Closed(buf, i + |EncodeFrames(ItemFrames(xs))|)
    ensures Demuxed(buf, i) == if ErrorText(xs) == [] then Ok(PackBytes(xs)) else Err(ServerError(ErrorText(xs)))
  {
    BandsCollect(buf, i, xs);
  }
}
