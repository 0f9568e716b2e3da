/**
 Messages between a worker and its parent (libuv/qn-worker.c): frames of a 32-bit length and a payload, put together
 again in a growing buffer from reads of any size.

 The law: for every list of messages, empty ones included, and every way the stream is cut into reads, exactly that
 list is delivered in order, and what the buffer holds is the undelivered rest of the stream.
 */
module WorkerReadBuf {
  import opened Sequences
  import opened Wrappers
  import opened Bytes
  import JsInt
  import Memory

  // ---- the wire format ----

  const HEADER: nat := 4

  function Frame(message: seq<byte>): seq<byte> {
    U32(|message|) + message
  }

  function FrameAll(messages: seq<seq<byte>>): seq<byte> {
    if messages == [] then [] else Frame(messages[0]) + FrameAll(messages[1..])
  }

  ghost predicate Numbered(messages: seq<seq<byte>>) {
    forall i | 0 <= i < |messages| :: |messages[i]| < TWO_32
  }

  /** The bytes `send_message` hands to libuv, whose buffer length has 32 bits. */
  function Sent(message: seq<byte>): seq<byte> {
    Frame(message)[..(HEADER + |message|) % TWO_32]
  }

  /** A frame is sent whole exactly when it is shorter than 2^32 bytes. */
  lemma SentWhole(message: seq<byte>)
    ensures Sent(message) == Frame(message) <==> HEADER + |message| < TWO_32
  {
    assert |Frame(message)| == HEADER + |message|;
    hide Frame;
    assert HEADER + |message| < TWO_32 ==> (HEADER + |message|) % TWO_32 == HEADER + |message|;
  }

  /** The first complete frame of a stream: its payload and the stream behind it. */
  function First(s: seq<byte>): Option<(seq<byte>, seq<byte>)> {
    if |s| < HEADER then None
    else
      var n := ReadU32(s);
      if |s| < HEADER + n then None else Some((s[HEADER..HEADER + n], s[HEADER + n..]))
  }

  /** All complete frames of a stream, and the bytes behind the last one. */
  function Messages(s: seq<byte>): (seq<seq<byte>>, seq<byte>)
    decreases |s|
  {
    match First(s)
    case None => ([], s)
    case Some((m, rest)) => var (more, end) := Messages(rest); ([m] + more, end)
  }

  lemma FirstExtends(a: seq<byte>, b: seq<byte>)
    requires First(a).Some?
    ensures First(a + b) == Some((First(a).value.0, First(a).value.1 + b))
  {
    var n := ReadU32(a);
    assert ReadU32(a + b) == n;
    assert (a + b)[HEADER..HEADER + n] == a[HEADER..HEADER + n];
    assert (a + b)[HEADER + n..] == a[HEADER + n..] + b;
  }

  /** Reading a stream in two parts: what is left of the first is put before the second. */
  lemma {:induction false} MessagesConcat(a: seq<byte>, b: seq<byte>)
    ensures var (m, r) := Messages(a);
      Messages(a + b) == (m + Messages(r + b).0, Messages(r + b).1)
    decreases |a|
  {
    match First(a)
    case None =>
      assert [] + Messages(a + b).0 == Messages(a + b).0;
    case Some((m, rest)) =>
      hide First;
      FirstExtends(a, b);
      MessagesConcat(rest, b);
      var (more, end) := Messages(rest);
      ConcatAssociates([m], more, Messages(end + b).0);
  }

  lemma FirstOfFrame(message: seq<byte>, rest: seq<byte>)
    requires |message| < TWO_32
    ensures First(Frame(message) + rest) == Some((message, rest))
  {
    var head := U32(|message|);
    var s := head + message + rest;
    ReadWriteU32(|message|, message + rest);
    assert |head| == HEADER;
    hide U32, ReadU32;
    ConcatAssociates(head, message, rest);
    assert s[HEADER..HEADER + |message|] == message;
    assert s[HEADER + |message|..] == rest;
  }

  lemma {:induction false} MessagesOfFrames(messages: seq<seq<byte>>, tail: seq<byte>)
    requires Numbered(messages)
    ensures Messages(FrameAll(messages) + tail) == (messages + Messages(tail).0, Messages(tail).1)
  {
    if messages == [] {
      assert [] + tail == tail && [] + Messages(tail).0 == Messages(tail).0;
    } else {
      var m, rest := messages[0], messages[1..];
      ConcatAssociates(Frame(m), FrameAll(rest), tail);
      FirstOfFrame(m, FrameAll(rest) + tail);
      hide First, Frame;
      MessagesOfFrames(rest, tail);
      ConcatAssociates([m], rest, Messages(tail).0);
      assert [m] + rest == messages;
    }
  }

  lemma FirstRebuilds(s: seq<byte>)
    requires First(s).Some?
    ensures s == Frame(First(s).value.0) + First(s).value.1
  {
    var n := ReadU32(s);
    WriteRead(s);
    assert s == s[..HEADER] + s[HEADER..HEADER + n] + s[HEADER + n..];
  }

  lemma WriteRead(s: seq<byte>)
    requires |s| >= 4
    ensures U32(ReadU32(s)) == s[..4]
  {
    var v := ReadU32(s);
    assert v / TWO_8 == s[1] + TWO_8 * s[2] + TWO_16 * s[3];
    assert v / TWO_16 == s[2] + TWO_8 * s[3];
    assert v / TWO_24 == s[3];
  }

  /** No byte is lost: a stream is the frames delivered from it followed by what is left. */
  lemma {:induction false} NothingLost(s: seq<byte>)
    ensures s == FrameAll(Messages(s).0) + Messages(s).1
    decreases |s|
  {
    if First(s).Some? {
      var (m, rest) := First(s).value;
      FirstRebuilds(s);
      hide First, Frame;
      NothingLost(rest);
      var (more, end) := Messages(rest);
      assert ([m] + more)[1..] == more;
      ConcatAssociates(Frame(m), FrameAll(more), end);
    } else {
      assert [] + s == s;
    }
  }

  // ---- the buffer ----

  /** `decode_u32`. */
  function DecodeU32(b: seq<byte>): nat
    requires |b| >= 4
  {
    JsInt.Or(JsInt.Or(JsInt.Or(b[0], JsInt.Shl(b[1], 8)), JsInt.Shl(b[2], 16)), JsInt.Shl(b[3], 24))
  }

  lemma DecodeReads(b: seq<byte>)
    requires |b| >= 4
    ensures DecodeU32(b) == ReadU32(b)
  {
    JoinByte(b[0], b[1], 8);
    JoinByte(b[0] + TWO_8 * b[1], b[2], 16);
    JoinByte(b[0] + TWO_8 * b[1] + TWO_16 * b[2], b[3], 24);
  }

  lemma JoinByte(low: nat, b: byte, shift: nat)
    requires (shift == 8 && low < TWO_8) || (shift == 16 && low < TWO_16) || (shift == 24 && low < TWO_24)
    ensures JsInt.Or(low, JsInt.Shl(b, shift)) == low +
      (if shift == 8 then TWO_8 * b else if shift == 16 then TWO_16 * b else TWO_24 * b)
  {
    JsInt.ScaledByBytes(b);
    JsInt.ScaledByBytes(1);
    hide JsInt.Scaled, JsInt.Or, JsInt.Shl;
    JsInt.ShlSmall(b, shift);
    JsInt.OrDisjoint(low, b, shift);
  }

  class ReadBuf {
    var buf: array<byte>
    var len: nat
    var cap: nat
    var msgLen: nat

    constructor ()
      ensures Valid() && fresh(buf) && Pending() == []
    {
      buf := new byte[0];
      len, cap, msgLen := 0, 0, 0;
    }

    ghost predicate Valid()
      reads this
    {
      len <= cap && cap == buf.Length && msgLen < TWO_32
    }

    /** The stream bytes received and not yet delivered: a header already taken out, and the buffer. */
    ghost function Pending(): seq<byte>
      reads this, buf
      requires Valid()
    {
      (if msgLen > 0 then U32(msgLen) else []) + buf[..len]
    }

    /** `readbuf_append`. */
    method Append(data: seq<byte>)
      requires Valid()
      modifies this, buf
      ensures Valid() && (buf == old(buf) || fresh(buf))
      ensures msgLen == old(msgLen) && buf[..len] == old(buf[..len]) + data
      ensures cap == if old(len) + |data| <= old(cap) then old(cap)
        else if old(cap) == 0 then Max(4096, old(len) + |data|) else Max(2 * old(cap), old(len) + |data|)
    {
      Reserve(len + |data|);
      Memory.Put(buf, len, data);
      len := len + |data|;
    }

    /** The growing part of `readbuf_append`. */
    method Reserve(needed: nat)
      requires Valid() && len <= needed
      modifies this
      ensures Valid() && (buf == old(buf) || fresh(buf))
      ensures len == old(len) && msgLen == old(msgLen) && buf[..len] == old(buf[..len])
      ensures cap >= needed
      ensures cap == if needed <= old(cap) then old(cap)
        else if old(cap) == 0 then Max(4096, needed) else Max(2 * old(cap), needed)
    {
      if needed > cap {
        var newCap := if cap > 0 then cap * 2 else 4096;
        if newCap < needed { newCap := needed; }
        var bigger := new byte[newCap](_ => 0);
        Memory.CopyDown(buf, 0, bigger, len);
        buf := bigger;
        cap := newCap;
      }
    }

    /** `readbuf_extract`: the first complete frame of what is pending, if there is one. */
    method Extract() returns (message: Option<seq<byte>>)
      requires Valid()
      modifies this, buf
      ensures Valid() && buf == old(buf) && cap == old(cap)
      ensures match First(old(Pending()))
        case None => message == None && Pending() == old(Pending())
        case Some((m, rest)) => message == Some(m) && Pending() == rest && msgLen == 0 && len <= old(len)
    {
      hide First, U32, ReadU32;
      ghost var s := Pending();
      if msgLen == 0 {
        if len < HEADER {
          ShortHeader(s);
          return None;
        }
        TakeHeader();
      } else {
        HeaderKept(msgLen, buf[..len]);
      }
      if len < msgLen { return None; }
      message := Some(buf[..msgLen]);
      ghost var held := buf[..len];
      assert held[..msgLen] == buf[..msgLen] && held[msgLen..] == buf[msgLen..len];
      assert First(s) == Some((held[..msgLen], held[msgLen..]));
      DropPayload();
      assert [] + buf[..len] == buf[..len];
    }

    /** The header is decoded and shifted out of the buffer. */
    method TakeHeader()
      requires Valid() && msgLen == 0 && len >= HEADER
      modifies this, buf
      ensures Valid() && buf == old(buf) && cap == old(cap) && len == old(len) - HEADER
      ensures Awaiting(old(Pending()), msgLen, buf[..len])
      ensures old(Pending()) == U32(msgLen) + buf[..len]
    {
      hide First, U32, ReadU32, DecodeU32;
      ghost var s := Pending();
      assert s == buf[..len];
      DecodeReads(s);
      msgLen := DecodeU32(buf[..len]);
      len := len - HEADER;
      if len > 0 { Memory.CopyDown(buf, HEADER, buf, len); }
      assert buf[..len] == s[HEADER..];
      HeaderTaken(s, msgLen, buf[..len]);
    }

    /** The payload is shifted out of the buffer. */
    method DropPayload()
      requires Valid() && msgLen <= len
      modifies this, buf
      ensures Valid() && buf == old(buf) && cap == old(cap) && len == old(len) - old(msgLen)
      ensures msgLen == 0 && buf[..len] == old(buf[msgLen..len])
    {
      len := len - msgLen;
      if len > 0 { Memory.CopyDown(buf, msgLen, buf, len); }
      msgLen := 0;
    }
  }

  function Max(a: nat, b: nat): nat {
    if a < b then b else a
  }

  lemma ShortHeader(s: seq<byte>)
    requires |s| < HEADER
    ensures First(s) == None
  {
  }

  /** What is pending once the header has been shifted out, in terms of the stream it came from. */
  ghost predicate Awaiting(s: seq<byte>, n: nat, body: seq<byte>) {
    First(s) == if |body| < n then None else Some((body[..n], body[n..]))
  }

  lemma HeaderTaken(s: seq<byte>, n: nat, body: seq<byte>)
    requires |s| >= HEADER && n == ReadU32(s) && body == s[HEADER..]
    ensures Awaiting(s, n, body) && s == U32(n) + body
  {
    WriteRead(s);
    assert s == s[..HEADER] + body;
    if |body| >= n {
      assert body[..n] == s[HEADER..HEADER + n] && body[n..] == s[HEADER + n..];
    }
  }

  lemma HeaderKept(n: nat, body: seq<byte>)
    requires n < TWO_32
    ensures Awaiting(U32(n) + body, n, body)
  {
    ReadWriteU32(n, body);
    var s := U32(n) + body;
    assert |U32(n)| == HEADER;
    hide U32, ReadU32;
    assert s[HEADER..] == body;
    HeaderTaken(s, n, body);
  }

  /** The body of a read callback: what was read is appended, then every complete frame is taken out. */
  method OnRead(rb: ReadBuf, data: seq<byte>) returns (delivered: seq<seq<byte>>)
    requires rb.Valid()
    modifies rb, rb.buf
    ensures rb.Valid() && (rb.buf == old(rb.buf) || fresh(rb.buf))
    ensures (delivered, rb.Pending()) == Messages(old(rb.Pending()) + data)
  {
    hide First, U32;
    delivered := [];
    ghost var s := rb.Pending() + data;
    ghost var head := if rb.msgLen > 0 then U32(rb.msgLen) else [];
    ConcatAssociates(head, rb.buf[..rb.len], data);
    rb.Append(data);
    assert [] + Messages(s).0 == Messages(s).0;
    var going := true;
    while going
      invariant rb.Valid() && (rb.buf == old(rb.buf) || fresh(rb.buf))
      invariant Messages(s) == (delivered + Messages(rb.Pending()).0, Messages(rb.Pending()).1)
      invariant !going ==> First(rb.Pending()) == None
      decreases going, |rb.Pending()|
    {
      ghost var before := rb.Pending();
      var message := rb.Extract();
      if message.None? {
        going := false;
      } else {
        FirstShorter(before);
        ConcatAssociates(delivered, [message.value], Messages(rb.Pending()).0);
        delivered := delivered + [message.value];
      }
    }
    assert delivered + [] == delivered;
  }

  lemma FirstShorter(s: seq<byte>)
    ensures First(s).Some? ==> |First(s).value.1| < |s|
  {
  }

  // ---- whole streams ----

  /** What successive reads deliver, starting from some pending bytes, and what is pending after them. */
  function Reads(pending: seq<byte>, chunks: seq<seq<byte>>): (seq<seq<byte>>, seq<byte>)
    decreases |chunks|
  {
    if chunks == [] then ([], pending)
    else
      var (now, left) := Messages(pending + chunks[0]);
      var (later, end) := Reads(left, chunks[1..]);
      (now + later, end)
  }

  lemma MessagesLeaveNone(s: seq<byte>)
    ensures Messages(Messages(s).1) == ([], Messages(s).1)
    decreases |s|
  {
  }

  lemma {:induction false} ReadsAsOne(pending: seq<byte>, chunks: seq<seq<byte>>)
    requires Messages(pending) == ([], pending)
    ensures Reads(pending, chunks) == Messages(pending + Flatten(chunks))
    decreases |chunks|
  {
    hide Messages;
    if chunks == [] {
      assert pending + [] == pending;
    } else {
      var s := pending + chunks[0];
      var (now, left) := Messages(s);
      MessagesLeaveNone(s);
      ReadsAsOne(left, chunks[1..]);
      MessagesConcat(s, Flatten(chunks[1..]));
      ConcatAssociates(pending, chunks[0], Flatten(chunks[1..]));
    }
  }

  /** However the stream is cut into reads, the same messages are delivered and the same bytes stay pending. */
  lemma CutsDoNotMatter(chunks: seq<seq<byte>>)
    ensures Reads([], chunks) == Messages(Flatten(chunks))
    ensures Flatten(chunks) == FrameAll(Reads([], chunks).0) + Reads([], chunks).1
  {
    ReadsAsOne([], chunks);
    assert [] + Flatten(chunks) == Flatten(chunks);
    NothingLost(Flatten(chunks));
  }

  function SentAll(messages: seq<seq<byte>>): seq<byte> {
    if messages == [] then [] else Sent(messages[0]) + SentAll(messages[1..])
  }

  lemma {:induction false} SentAllWhole(messages: seq<seq<byte>>)
    requires forall i | 0 <= i < |messages| :: HEADER + |messages[i]| < TWO_32
    ensures SentAll(messages) == FrameAll(messages) && Numbered(messages)
  {
    hide Sent, Frame;
    if messages != [] {
      SentWhole(messages[0]);
      SentAllWhole(messages[1..]);
    }
  }

  /**
   Every list of messages shorter than 2^32 - 4 bytes, empty ones included, arrives as it was sent, in order and
   completely, for every cut of the stream into reads, and with the start of one more frame the rest stays pending.
   */
  lemma DeliversWhatWasSent(messages: seq<seq<byte>>, tail: seq<byte>, chunks: seq<seq<byte>>)
    requires forall i | 0 <= i < |messages| :: HEADER + |messages[i]| < TWO_32
    requires Flatten(chunks) == SentAll(messages) + tail && First(tail) == None
    ensures Reads([], chunks) == (messages, tail)
  {
    SentAllWhole(messages);
    CutsDoNotMatter(chunks);
    MessagesOfFrames(messages, tail);
    assert messages + [] == messages;
  }
}
