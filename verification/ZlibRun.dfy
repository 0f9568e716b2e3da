/**
 The loop that pumps a compression engine into a growing buffer (libuv/qn-zlib.c).

 The engine is abstract: fed some input it has a finite total output, which it hands out in pieces of its own choice
 and gets on with whenever it is given room.
 The laws: the loop collects that output whatever the first capacity, as long as no request for room is a positive
 multiple of 2^32 bytes, which the 32-bit `avail_out` turns into no room at all.
 */
module ZlibRun {
  import opened Wrappers
  import opened Bytes
  import Memory

  datatype Status = Okay | BufError | StreamEnd | Error(code: int)

  /** What one call of `mz_deflate` or `mz_inflate` does. */
  datatype Reply<S> = Reply(state: S, consumed: nat, output: seq<byte>, status: Status)

  datatype Ending = Ends | Pauses | Fails(code: int)

  /** All an engine will ever do with the input it has: its output, how much input it takes, and how it stops. */
  datatype Total = Total(output: seq<byte>, consumed: nat, ending: Ending)

  datatype Engine<!S> = Engine(call: (S, seq<byte>, nat) -> Reply<S>, total: (S, seq<byte>) -> Total)

  predicate Says(status: Status, ending: Ending) {
    match ending
    case Ends => status == StreamEnd
    case Fails(code) => status == Error(code)
    case Pauses => status == Okay || status == BufError
  }

  const NOTHING_LEFT: Total := Total([], 0, Pauses)

  /**
   A call hands out a part of what is left and leaves the rest; without room it does nothing, and with room it gets on
   with something while anything is left. It reports an end or an error only with the last of the output.
   */
  ghost predicate CallOk<S>(e: Engine<S>, s: S, input: seq<byte>, room: nat) {
    var r, t := e.call(s, input, room), e.total(s, input);
    && t.consumed <= |input|
    && r.consumed <= t.consumed
    && |r.output| <= room
    && r.output <= t.output
    && (room == 0 ==> r == Reply(s, 0, [], BufError))
    && (IsFinal(r.status) ==> r.output == t.output && r.consumed == t.consumed && Says(r.status, t.ending))
    && (!IsFinal(r.status) ==>
        && e.total(r.state, input[r.consumed..])
           == Total(t.output[|r.output|..], t.consumed - r.consumed, t.ending)
        && (room > 0 && r.output == [] && r.consumed == 0 ==> t == NOTHING_LEFT))
  }

  /** Whether a reply ends the loop with a status of its own. */
  predicate IsFinal(status: Status) {
    status == StreamEnd || status.Error?
  }

  ghost predicate Progresses<S(!new)>(e: Engine<S>) {
    forall s: S, input: seq<byte>, room: nat :: CallOk(e, s, input, room)
  }

  /** A compressor that is not flushed: when it returns with room left and its input used up, it holds nothing back. */
  ghost predicate StopsDry<S(!new)>(e: Engine<S>) {
    forall s: S, input: seq<byte>, room: nat ::
      var r := e.call(s, input, room);
      !IsFinal(r.status) && |r.output| < room && r.consumed == |input| ==>
        e.total(s, input).output == r.output && e.total(s, input).ending == Pauses
  }

  // ---- capacities ----

  /** `in_len > 32 ? in_len * 2 : 64`. */
  function FirstCapacity(inLen: nat): (cap: nat)
    ensures cap > 0
  {
    if inLen > 32 then inLen * 2 else 64
  }

  /** `(unsigned int)(out_cap - out_len)`. */
  function Room(space: nat): (room: nat)
    ensures room <= space
  {
    space % TWO_32
  }

  /** How much output fits when a full buffer of `cap` bytes is about to be doubled. */
  function LimitOfDoubling(cap: nat): (limit: nat)
    requires cap > 0
    ensures limit >= TWO_32
    decreases TWO_32 - cap
  {
    if cap >= TWO_32 then cap + Room(cap) else LimitOfDoubling(2 * cap)
  }

  /** How much output fits when `room` bytes have just been added behind `base` bytes. */
  function LimitFrom(base: nat, room: nat): nat
    requires room > 0
  {
    if room >= TWO_32 then base + Room(room) else LimitOfDoubling(base + room)
  }

  /** How far the buffer can be filled before it is doubled or the loop hangs. */
  function Reach(base: nat, cap: nat): (reach: nat)
    requires base < cap
    ensures base <= reach <= cap
  {
    if cap - base >= TWO_32 then base + Room(cap - base) else cap
  }

  lemma ReachWithinLimit(base: nat, cap: nat)
    requires base < cap
    ensures Reach(base, cap) <= LimitFrom(base, cap - base)
    ensures cap - base >= TWO_32 ==> Reach(base, cap) == LimitFrom(base, cap - base) < cap
    ensures cap - base < TWO_32 ==> LimitFrom(base, cap - base) == LimitFrom(cap, cap)
  {
    if cap - base < TWO_32 { DoublingGrows(cap); }
  }

  lemma {:induction false} DoublingGrows(cap: nat)
    requires cap > 0
    ensures LimitOfDoubling(cap) >= cap && LimitOfDoubling(cap) == LimitFrom(cap, cap)
    decreases TWO_32 - cap
  {
    if cap < TWO_32 { DoublingGrows(2 * cap); }
  }

  /** From the start of a region the room offered reaches exactly to `Reach`, and from there nothing is offered. */
  lemma RoomToReach(base: nat, cap: nat)
    requires base < cap
    ensures base + Room(cap - base) == Reach(base, cap)
    ensures Room(cap - Reach(base, cap)) == 0
    ensures Reach(base, cap) == cap || (Reach(base, cap) < cap && Reach(base, cap) == LimitFrom(base, cap - base))
  {
  }

  lemma RoomLeft(space: nat, used: nat)
    requires used <= Room(space)
    ensures Room(space - used) == Room(space) - used
  {
    var q := space / TWO_32;
    assert space == TWO_32 * q + space % TWO_32;
  }

  /** How much output fits at all, from the first capacity on. */
  function Limit(cap: nat): nat
    requires cap > 0
  {
    LimitFrom(0, cap)
  }

  /** Inputs below 2^31 bytes leave room for at least 2^32 bytes of output. */
  lemma SmallInputsFit(inLen: nat)
    requires inLen < 0x8000_0000
    ensures Limit(FirstCapacity(inLen)) >= TWO_32
  {
  }

  /** An input of exactly 2^31 bytes leaves none: its capacity is 2^32, which `avail_out` cannot hold. */
  lemma HalfWordDoesNotFit()
    ensures Limit(FirstCapacity(0x8000_0000)) == 0
  {
  }

  // ---- the loop ----

  /** `Hangs` stands for a loop that never ends. */
  datatype Outcome = Collected(output: seq<byte>, consumed: int, finished: bool) | Failed(code: int) | OutOfMemory | Hangs

  /** What the caller should get, capacities aside; `unseen` bytes of input were never offered to the engine. */
  function Expected(t: Total, unseen: nat): Outcome {
    match t.ending
    case Fails(code) => Failed(code)
    case _ => Collected(t.output, unseen + t.consumed, t.ending == Ends)
  }

  /** `avail_in` has 32 bits. */
  function Offered(input: seq<byte>): (s: seq<byte>)
    ensures |s| == |input| % TWO_32
  {
    input[..|input| % TWO_32]
  }

  method Realloc(buf: array<byte>, keep: nat, size: nat) returns (nb: array<byte>)
    requires keep <= buf.Length && keep <= size
    ensures fresh(nb) && nb.Length == size && nb[..keep] == buf[..keep]
  {
    nb := new byte[size](_ => 0);
    Memory.CopyDown(buf, 0, nb, keep);
  }

  /** Midway through the input: `outLen` bytes are out and `rest` is left. */
  ghost predicate Midway<S>(e: Engine<S>, s: S, rest: seq<byte>, t: Total, offered: nat, outLen: nat) {
    && outLen <= |t.output|
    && t.consumed <= offered
    && offered - t.consumed <= |rest| <= offered
    && e.total(s, rest) == Total(t.output[outLen..], t.consumed - (offered - |rest|), t.ending)
  }

  lemma Begins<S(!new)>(e: Engine<S>, s: S, input: seq<byte>)
    requires Progresses(e)
    ensures Midway(e, s, input, e.total(s, input), |input|, 0)
  {
    UseProgress(e, s, input, 0);
    hide Progresses;
  }

  lemma UseProgress<S(!new)>(e: Engine<S>, s: S, input: seq<byte>, room: nat)
    requires Progresses(e)
    ensures CallOk(e, s, input, room)
  {
  }

  /** All output is out and all input that will be taken has been taken. */
  ghost predicate Finished(t: Total, outLen: nat, consumed: int) {
    outLen == |t.output| && consumed == t.consumed
  }

  /** One call with room: it ends the run, or it gets on and what is left is as before; no output is lost in between. */
  lemma CallGoes<S(!new)>(
    e: Engine<S>, s: S, rest: seq<byte>, t: Total, offered: nat, outLen: nat, room: nat)
    requires Progresses(e) && Midway(e, s, rest, t, offered, outLen) && room > 0
    ensures var r := e.call(s, rest, room);
      && |r.output| <= room && r.consumed <= |rest|
      && outLen + |r.output| <= |t.output|
      && t.output[..outLen] + r.output == t.output[..outLen + |r.output|]
      && offered - (|rest| - r.consumed) <= t.consumed
      && if IsFinal(r.status) then
           && Finished(t, outLen + |r.output|, offered - (|rest| - r.consumed))
           && t.ending == (match r.status case Error(code) => Fails(code) case _ => Ends)
         else
           && Midway(e, r.state, rest[r.consumed..], t, offered, outLen + |r.output|)
           && (r.output == [] && r.consumed == 0 ==> Finished(t, outLen, offered - |rest|) && t.ending == Pauses)
  {
    UseProgress(e, s, rest, room);
    hide Progresses;
    var r := e.call(s, rest, room);
    assert t.output[..outLen] + t.output[outLen..] == t.output;
    assert t.output[outLen..][|r.output|..] == t.output[outLen + |r.output|..];
  }

  lemma CallDry<S(!new)>(
    e: Engine<S>, s: S, rest: seq<byte>, t: Total, offered: nat, outLen: nat, room: nat)
    requires Progresses(e) && StopsDry(e) && Midway(e, s, rest, t, offered, outLen)
    ensures var r := e.call(s, rest, room);
      !IsFinal(r.status) && |r.output| < room && r.consumed == |rest| ==>
        Finished(t, outLen + |r.output|, offered) && t.ending == Pauses
  {
    UseProgress(e, s, rest, room);
    hide Progresses;
  }

  /** One engine call into the free part of the buffer. */
  method Engage<S(!new)>(
    e: Engine<S>, s: S, rest: seq<byte>, outBuf: array<byte>, outLen: nat, availOut: nat,
    ghost t: Total, ghost offered: nat)
    returns (reply: Reply<S>)
    requires Progresses(e) && Midway(e, s, rest, t, offered, outLen) && availOut > 0
    requires outLen + availOut <= outBuf.Length && outLen <= |t.output| && outBuf[..outLen] == t.output[..outLen]
    modifies outBuf
    ensures reply == e.call(s, rest, availOut)
    ensures |reply.output| <= availOut && reply.consumed <= |rest| && outLen + |reply.output| <= |t.output|
    ensures t.output[..outLen] + reply.output == t.output[..outLen + |reply.output|]
    ensures outBuf[..outLen + |reply.output|] == t.output[..outLen + |reply.output|]
    ensures offered - (|rest| - reply.consumed) <= t.consumed
    ensures IsFinal(reply.status) ==>
      && Finished(t, outLen + |reply.output|, offered - (|rest| - reply.consumed))
      && t.ending == (match reply.status case Error(code) => Fails(code) case _ => Ends)
    ensures !IsFinal(reply.status) ==>
      && Midway(e, reply.state, rest[reply.consumed..], t, offered, outLen + |reply.output|)
      && (reply.output == [] && reply.consumed == 0 ==> Finished(t, outLen, offered - |rest|) && t.ending == Pauses)
    ensures StopsDry(e) && !IsFinal(reply.status) && |reply.output| < availOut && reply.consumed == |rest| ==>
      Finished(t, outLen + |reply.output|, offered) && t.ending == Pauses
  {
    hide Progresses, CallOk, Says, Midway, Finished;
    reply := e.call(s, rest, availOut);
    CallGoes(e, s, rest, t, offered, outLen, availOut);
    if StopsDry(e) { CallDry(e, s, rest, t, offered, outLen, availOut); }
    hide StopsDry;
    Memory.Put(outBuf, outLen, reply.output);
  }

  /**
   What the loop may give back: the expected result, below the limit; above it, no result ever; at the limit one or the
   other, as the engine reports its end with the last byte or not.
   */
  ghost predicate Allowed(r: Outcome, t: Total, unseen: nat, firstCapacity: nat, memory: nat)
    requires firstCapacity > 0
  {
    && (r == OutOfMemory ==> memory < firstCapacity || memory < 2 * |t.output|)
    && (r != OutOfMemory && |t.output| < Limit(firstCapacity) ==> r == Expected(t, unseen))
    && (r != OutOfMemory && |t.output| == Limit(firstCapacity) ==> r == Expected(t, unseen) || r == Hangs)
    && (r != OutOfMemory && |t.output| > Limit(firstCapacity) ==> r == Hangs)
  }

  lemma AllowsResult(t: Total, unseen: nat, firstCapacity: nat, memory: nat)
    requires firstCapacity > 0 && |t.output| <= Limit(firstCapacity)
    ensures Allowed(Expected(t, unseen), t, unseen, firstCapacity, memory)
  {
    hide Limit;
  }

  lemma AllowsHang(t: Total, unseen: nat, firstCapacity: nat, memory: nat)
    requires firstCapacity > 0 && |t.output| >= Limit(firstCapacity)
    ensures Allowed(Hangs, t, unseen, firstCapacity, memory)
  {
    hide Limit;
  }

  lemma AllowsFailure(t: Total, unseen: nat, firstCapacity: nat, memory: nat)
    requires firstCapacity > 0 && (memory < firstCapacity || memory < 2 * |t.output|)
    ensures Allowed(OutOfMemory, t, unseen, firstCapacity, memory)
  {
    hide Limit;
  }

  /** Where the buffer stands: its last `cap - base` bytes are new, and what is offered reaches just to `Reach`. */
  ghost predicate Region(firstCapacity: nat, base: nat, cap: nat, outLen: nat)
    requires firstCapacity > 0
  {
    && base < cap
    && base <= outLen <= Reach(base, cap)
    && Limit(firstCapacity) == LimitFrom(base, cap - base)
    && Room(cap - outLen) == Reach(base, cap) - outLen
  }

  lemma RegionStarts(firstCapacity: nat)
    requires firstCapacity > 0
    ensures Region(firstCapacity, 0, firstCapacity, 0)
  {
    hide Room, LimitFrom, Reach;
    RoomToReach(0, firstCapacity);
  }

  lemma RegionDoubles(firstCapacity: nat, base: nat, cap: nat)
    requires firstCapacity > 0 && Region(firstCapacity, base, cap, cap)
    ensures cap < 2 * cap && Region(firstCapacity, cap, 2 * cap, cap)
  {
    hide Room, LimitFrom, Limit, Reach;
    ReachWithinLimit(base, cap);
    RoomToReach(cap, 2 * cap);
  }

  lemma RegionAdvances(firstCapacity: nat, base: nat, cap: nat, outLen: nat, more: nat)
    requires firstCapacity > 0 && Region(firstCapacity, base, cap, outLen) && more <= Room(cap - outLen)
    ensures outLen + more <= cap && Region(firstCapacity, base, cap, outLen + more)
  {
    hide LimitFrom, Limit, Reach;
    RoomLeft(cap - outLen, more);
  }

  /** What is collected stays within the limit, and a buffer that is not full offers no room only at the limit. */
  lemma RegionBounds(firstCapacity: nat, base: nat, cap: nat, outLen: nat)
    requires firstCapacity > 0 && Region(firstCapacity, base, cap, outLen)
    ensures outLen <= cap && outLen <= Limit(firstCapacity)
    ensures outLen < cap && Room(cap - outLen) == 0 ==> outLen == Limit(firstCapacity)
  {
    hide Room, LimitFrom, Limit, Reach;
    ReachWithinLimit(base, cap);
    RoomToReach(base, cap);
  }

  // ---- the calls of a run ----

  /** What some calls of an engine have led to: its state, the input left over, and the output joined. */
  datatype Reached<S> = Reached(state: S, rest: seq<byte>, output: seq<byte>)

  function Behind(input: seq<byte>, consumed: nat): seq<byte> {
    if consumed <= |input| then input[consumed..] else []
  }

  /** One call for each room, each with the state and the input that the one before left. */
  function After<S>(e: Engine<S>, s: S, input: seq<byte>, rooms: seq<nat>): Reached<S>
    decreases |rooms|
  {
    if rooms == [] then Reached(s, input, [])
    else
      var r := e.call(s, input, rooms[0]);
      var end := After(e, r.state, Behind(input, r.consumed), rooms[1..]);
      Reached(end.state, end.rest, r.output + end.output)
  }

  function LastReply<S>(e: Engine<S>, s: S, input: seq<byte>, rooms: seq<nat>): Reply<S>
    requires rooms != []
  {
    var before := After(e, s, input, rooms[..|rooms| - 1]);
    e.call(before.state, before.rest, rooms[|rooms| - 1])
  }

  /** None of the calls ends the run by its status. */
  ghost predicate GoesOn<S>(e: Engine<S>, s: S, input: seq<byte>, rooms: seq<nat>)
    decreases |rooms|
  {
    rooms == [] ||
    (!IsFinal(LastReply(e, s, input, rooms).status) && GoesOn(e, s, input, rooms[..|rooms| - 1]))
  }

  lemma {:induction false} AfterConcat<S>(e: Engine<S>, s: S, input: seq<byte>, a: seq<nat>, b: seq<nat>)
    ensures var mid := After(e, s, input, a);
      var end := After(e, mid.state, mid.rest, b);
      After(e, s, input, a + b) == Reached(end.state, end.rest, mid.output + end.output)
    decreases |a|
  {
    if a == [] {
      assert a + b == b;
      assert [] + After(e, s, input, b).output == After(e, s, input, b).output;
    } else {
      var r := e.call(s, input, a[0]);
      assert (a + b)[1..] == a[1..] + b;
      AfterConcat(e, r.state, Behind(input, r.consumed), a[1..], b);
    }
  }

  lemma AfterSnoc<S>(e: Engine<S>, s: S, input: seq<byte>, rooms: seq<nat>, room: nat)
    ensures var before := After(e, s, input, rooms);
      var r := e.call(before.state, before.rest, room);
      && After(e, s, input, rooms + [room])
           == Reached(r.state, Behind(before.rest, r.consumed), before.output + r.output)
      && LastReply(e, s, input, rooms + [room]) == r
      && (GoesOn(e, s, input, rooms + [room]) <==> GoesOn(e, s, input, rooms) && !IsFinal(r.status))
  {
    var before := After(e, s, input, rooms);
    AfterConcat(e, s, input, rooms, [room]);
    AfterOne(e, before.state, before.rest, room);
    hide After;
    assert (rooms + [room])[..|rooms|] == rooms;
  }

  lemma AfterOne<S>(e: Engine<S>, s: S, input: seq<byte>, room: nat)
    ensures var r := e.call(s, input, room);
      After(e, s, input, [room]) == Reached(r.state, Behind(input, r.consumed), r.output)
  {
    assert [room][1..] == [];
    assert e.call(s, input, room).output + [] == e.call(s, input, room).output;
  }

  /** How a run has ended, in the words of its calls. */
  ghost predicate Stopped<S>(
    r: Outcome, deflate: bool, noFlush: bool, inLen: nat, e: Engine<S>, start: S, input: seq<byte>, rooms: seq<nat>)
  {
    match r
    case Collected(output, consumed, finished) =>
      && rooms != [] && GoesOn(e, start, input, rooms[..|rooms| - 1])
      && var end := After(e, start, input, rooms);
      && var last := LastReply(e, start, input, rooms);
      && output == end.output && consumed == inLen - |end.rest|
      && !last.status.Error? && (finished <==> last.status == StreamEnd)
      && (!finished ==> (last.output == [] && last.consumed == 0) || (deflate && noFlush && end.rest == []))
    case Failed(code) =>
      && rooms != [] && GoesOn(e, start, input, rooms[..|rooms| - 1])
      && LastReply(e, start, input, rooms).status == Error(code)
    case _ => GoesOn(e, start, input, rooms)
  }

  lemma ReachedNothing<S>(e: Engine<S>, s: S, input: seq<byte>)
    ensures After(e, s, input, []) == Reached(s, input, []) && GoesOn(e, s, input, [])
  {
  }

  lemma ReachesOn<S>(e: Engine<S>, start: S, input: seq<byte>, rooms: seq<nat>, room: nat, reply: Reply<S>)
    requires var before := After(e, start, input, rooms);
      reply == e.call(before.state, before.rest, room) && reply.consumed <= |before.rest|
    ensures var before := After(e, start, input, rooms);
      After(e, start, input, rooms + [room])
        == Reached(reply.state, before.rest[reply.consumed..], before.output + reply.output)
    ensures GoesOn(e, start, input, rooms + [room]) <==> GoesOn(e, start, input, rooms) && !IsFinal(reply.status)
  {
    hide After, GoesOn, LastReply;
    AfterSnoc(e, start, input, rooms, room);
  }

  lemma StopsCollected<S>(
    r: Outcome, deflate: bool, noFlush: bool, inLen: nat,
    e: Engine<S>, start: S, input: seq<byte>, front: seq<nat>, room: nat, reply: Reply<S>)
    requires r.Collected? && GoesOn(e, start, input, front)
    requires var before := After(e, start, input, front); reply == e.call(before.state, before.rest, room)
    requires var end := After(e, start, input, front + [room]);
      && r.output == end.output && r.consumed == inLen - |end.rest|
      && !reply.status.Error? && (r.finished <==> reply.status == StreamEnd)
      && (!r.finished ==> (reply.output == [] && reply.consumed == 0) || (deflate && noFlush && end.rest == []))
    ensures Stopped(r, deflate, noFlush, inLen, e, start, input, front + [room])
  {
    hide After, GoesOn, LastReply;
    AfterSnoc(e, start, input, front, room);
    assert (front + [room])[..|front|] == front;
  }

  lemma StopsFailed<S>(
    r: Outcome, deflate: bool, noFlush: bool, inLen: nat,
    e: Engine<S>, start: S, input: seq<byte>, front: seq<nat>, room: nat)
    requires r.Failed? && GoesOn(e, start, input, front)
    requires var before := After(e, start, input, front);
      e.call(before.state, before.rest, room).status == Error(r.code)
    ensures Stopped(r, deflate, noFlush, inLen, e, start, input, front + [room])
  {
    hide After, GoesOn, LastReply;
    AfterSnoc(e, start, input, front, room);
    assert (front + [room])[..|front|] == front;
  }

  lemma StopsOpen<S>(
    r: Outcome, deflate: bool, noFlush: bool, inLen: nat, e: Engine<S>, start: S, input: seq<byte>, rooms: seq<nat>)
    requires (r.OutOfMemory? || r.Hangs?) && GoesOn(e, start, input, rooms)
    ensures Stopped(r, deflate, noFlush, inLen, e, start, input, rooms)
  {
    hide After, GoesOn, LastReply;
  }

  // ---- runs in succession ----

  /** One call on a stream; a later run may use another engine on the same state, as the flush mode changes. */
  datatype Call<!S> = Call(engine: Engine<S>, input: seq<byte>, room: nat)

  /** A sequence of calls: the state it leads to and the outputs joined. */
  function Played<S>(s: S, calls: seq<Call<S>>): (S, seq<byte>)
    decreases |calls|
  {
    if calls == [] then (s, [])
    else
      var r := calls[0].engine.call(s, calls[0].input, calls[0].room);
      var end := Played(r.state, calls[1..]);
      (end.0, r.output + end.1)
  }

  /** The calls of one run. */
  function CallsOf<S>(e: Engine<S>, s: S, input: seq<byte>, rooms: seq<nat>): seq<Call<S>>
    decreases |rooms|
  {
    if rooms == [] then []
    else
      var r := e.call(s, input, rooms[0]);
      [Call(e, input, rooms[0])] + CallsOf(e, r.state, Behind(input, r.consumed), rooms[1..])
  }

  lemma {:induction false} RunIsPlayed<S>(e: Engine<S>, s: S, input: seq<byte>, rooms: seq<nat>)
    ensures var end := After(e, s, input, rooms); Played(s, CallsOf(e, s, input, rooms)) == (end.state, end.output)
    decreases |rooms|
  {
    if rooms != [] {
      var r := e.call(s, input, rooms[0]);
      RunIsPlayed(e, r.state, Behind(input, r.consumed), rooms[1..]);
      var more := CallsOf(e, r.state, Behind(input, r.consumed), rooms[1..]);
      assert CallsOf(e, s, input, rooms)[1..] == more;
    }
  }

  lemma {:induction false} PlayedConcat<S>(s: S, a: seq<Call<S>>, b: seq<Call<S>>)
    ensures var mid := Played(s, a);
      var end := Played(mid.0, b);
      Played(s, a + b) == (end.0, mid.1 + end.1)
    decreases |a|
  {
    if a == [] {
      assert a + b == b;
      assert [] + Played(s, b).1 == Played(s, b).1;
    } else {
      var r := a[0].engine.call(s, a[0].input, a[0].room);
      assert (a + b)[1..] == a[1..] + b;
      PlayedConcat(r.state, a[1..], b);
      var mid := Played(r.state, a[1..]);
      assert r.output + (mid.1 + Played(mid.0, b).1) == (r.output + mid.1) + Played(mid.0, b).1;
    }
  }

  /**
   Two runs in succession on one stream, the second from the state the first returned: together they are one sequence
   of calls from the first state, and their outputs joined are its output.
   */
  lemma RunsInSuccession<S>(
    e1: Engine<S>, start: S, input1: seq<byte>, rooms1: seq<nat>, r1: Outcome, s1: S, flags1: (bool, bool), inLen1: nat,
    e2: Engine<S>, input2: seq<byte>, rooms2: seq<nat>, r2: Outcome, s2: S, flags2: (bool, bool), inLen2: nat)
    requires s1 == After(e1, start, input1, rooms1).state && s2 == After(e2, s1, input2, rooms2).state
    requires r1.Collected? && Stopped(r1, flags1.0, flags1.1, inLen1, e1, start, input1, rooms1)
    requires r2.Collected? && Stopped(r2, flags2.0, flags2.1, inLen2, e2, s1, input2, rooms2)
    ensures Played(start, CallsOf(e1, start, input1, rooms1) + CallsOf(e2, s1, input2, rooms2))
         == (s2, r1.output + r2.output)
  {
    hide After, Played, CallsOf, GoesOn, LastReply;
    RunIsPlayed(e1, start, input1, rooms1);
    RunIsPlayed(e2, s1, input2, rooms2);
    PlayedConcat(start, CallsOf(e1, start, input1, rooms1), CallsOf(e2, s1, input2, rooms2));
  }

  /** Later input does not change what an engine does with what it has: it only adds to the total. */
  ghost predicate Streams<S(!new)>(e: Engine<S>) {
    forall s: S, input: seq<byte>, more: seq<byte>, room: nat :: CallStreams(e, s, input, more, room)
  }

  ghost predicate CallStreams<S>(e: Engine<S>, s: S, input: seq<byte>, more: seq<byte>, room: nat) {
    var r := e.call(s, input, room);
    !IsFinal(r.status) && r.consumed <= |input| ==>
      var t := e.total(r.state, Behind(input, r.consumed) + more);
      e.total(s, input + more) == Total(r.output + t.output, r.consumed + t.consumed, t.ending)
  }

  lemma UseStreams<S(!new)>(e: Engine<S>, s: S, input: seq<byte>, more: seq<byte>, room: nat)
    requires Streams(e)
    ensures CallStreams(e, s, input, more, room)
  {
  }

  /**
   Input in pieces: what a run that stopped short has put out, and then the total of the state it returned on the input
   left over with any further input behind it, make up the total of the first state on all the input at once.
   */
  lemma {:induction false} PiecesMakeWhole<S(!new)>(
    e: Engine<S>, start: S, input: seq<byte>, rooms: seq<nat>, more: seq<byte>)
    requires Progresses(e) && Streams(e) && GoesOn(e, start, input, rooms)
    ensures var end := After(e, start, input, rooms);
      var t := e.total(end.state, end.rest + more);
      && |end.rest| <= |input|
      && e.total(start, input + more) == Total(end.output + t.output, |input| - |end.rest| + t.consumed, t.ending)
    decreases |rooms|
  {
    hide Streams, Progresses;
    if rooms == [] {
      var t := e.total(start, input + more);
      assert Total([] + t.output, t.consumed, t.ending) == t;
    } else {
      var front, room := rooms[..|rooms| - 1], rooms[|rooms| - 1];
      assert front + [room] == rooms;
      PiecesMakeWhole(e, start, input, front, more);
      AfterSnoc(e, start, input, front, room);
      var before := After(e, start, input, front);
      UseProgress(e, before.state, before.rest, room);
      UseStreams(e, before.state, before.rest, more, room);
      hide After, GoesOn, LastReply;
      PieceJoins(e, start, input, before, room, more);
    }
  }

  lemma PieceJoins<S>(e: Engine<S>, start: S, input: seq<byte>, before: Reached<S>, room: nat, more: seq<byte>)
    requires CallStreams(e, before.state, before.rest, more, room) && |before.rest| <= |input|
    requires var t := e.total(before.state, before.rest + more);
      e.total(start, input + more)
        == Total(before.output + t.output, |input| - |before.rest| + t.consumed, t.ending)
    requires var r := e.call(before.state, before.rest, room); !IsFinal(r.status) && r.consumed <= |before.rest|
    ensures var r := e.call(before.state, before.rest, room);
      var rest := Behind(before.rest, r.consumed);
      var t := e.total(r.state, rest + more);
      && |rest| <= |input|
      && e.total(start, input + more)
           == Total((before.output + r.output) + t.output, |input| - |rest| + t.consumed, t.ending)
  {
    var r := e.call(before.state, before.rest, room);
    var t := e.total(r.state, Behind(before.rest, r.consumed) + more);
    assert before.output + (r.output + t.output) == (before.output + r.output) + t.output;
  }

  /** `qn_zlib_run`; an allocation succeeds exactly when it asks for no more than `memory` bytes. */
  method Run<S(!new)>(
    e: Engine<S>, start: S, deflate: bool, noFlush: bool, input: seq<byte>, firstCapacity: nat, memory: nat)
    returns (r: Outcome, s: S, ghost rooms: seq<nat>)
    requires Progresses(e) && firstCapacity > 0
    requires deflate && noFlush ==> StopsDry(e)
    ensures Allowed(r, e.total(start, Offered(input)), |input| - |Offered(input)|, firstCapacity, memory)
    ensures s == After(e, start, Offered(input), rooms).state && forall room <- rooms :: room > 0
    ensures Stopped(r, deflate, noFlush, |input|, e, start, Offered(input), rooms)
  {
    hide Progresses, StopsDry, CallOk, Says, Midway, Offered, Room, Limit, Allowed, Region, After, LastReply, GoesOn;
    hide Behind, Stopped;
    s, rooms := start, [];
    var offered := Offered(input);
    ghost var t := e.total(start, offered);
    ghost var unseen := |input| - |offered|;
    var outCap := firstCapacity;
    ReachedNothing(e, s, offered);
    if outCap > memory {
      AllowsFailure(t, unseen, firstCapacity, memory);
      StopsOpen(OutOfMemory, deflate, noFlush, |input|, e, start, offered, rooms);
      return OutOfMemory, s, rooms;
    }
    var outBuf := new byte[outCap](_ => 0);
    var outLen: nat := 0;
    var rest := offered;
    ghost var base: nat := 0;
    Begins(e, s, offered);
    RegionStarts(firstCapacity);
    while true
      invariant fresh(outBuf) && outBuf.Length == outCap
      invariant Midway(e, s, rest, t, |offered|, outLen)
      invariant Region(firstCapacity, base, outCap, outLen)
      invariant outLen <= outCap && outLen <= |t.output| && outBuf[..outLen] == t.output[..outLen]
      invariant |offered| - |rest| <= t.consumed
      invariant After(e, start, offered, rooms) == Reached(s, rest, t.output[..outLen])
      invariant GoesOn(e, start, offered, rooms) && forall room <- rooms :: room > 0
      decreases |t.output| - outLen + t.consumed - (|offered| - |rest|)
    {
      if outLen == outCap {
        var newCap := outCap * 2;
        if newCap > memory {
          AllowsFailure(t, unseen, firstCapacity, memory);
          StopsOpen(OutOfMemory, deflate, noFlush, |input|, e, start, offered, rooms);
          return OutOfMemory, s, rooms;
        }
        outBuf := Realloc(outBuf, outLen, newCap);
        RegionDoubles(firstCapacity, base, outCap);
        base := outCap;
        outCap := newCap;
      }
      RegionBounds(firstCapacity, base, outCap, outLen);
      var availOut := Room(outCap - outLen);
      if availOut == 0 {
        AllowsHang(t, unseen, firstCapacity, memory);
        StopsOpen(Hangs, deflate, noFlush, |input|, e, start, offered, rooms);
        return Hangs, s, rooms;
      }
      var reply := Engage(e, s, rest, outBuf, outLen, availOut, t, |offered|);
      RegionAdvances(firstCapacity, base, outCap, outLen, |reply.output|);
      ghost var front := rooms;
      ReachesOn(e, start, offered, front, availOut, reply);
      rooms := front + [availOut];
      s := reply.state;
      rest := rest[reply.consumed..];
      outLen := outLen + |reply.output|;
      if outLen == |t.output| {
        RegionBounds(firstCapacity, base, outCap, outLen);
        AllowsResult(t, unseen, firstCapacity, memory);
        assert outBuf[..outLen] == t.output;
      }
      if reply.status == StreamEnd {
        r := Collected(outBuf[..outLen], |input| - |rest|, true);
        StopsCollected(r, deflate, noFlush, |input|, e, start, offered, front, availOut, reply);
        return;
      }
      if reply.status.Error? {
        r := Failed(reply.status.code);
        StopsFailed(r, deflate, noFlush, |input|, e, start, offered, front, availOut);
        return;
      }
      if |reply.output| == availOut { continue; }
      if (reply.consumed == 0 && reply.output == []) || (deflate && noFlush && |rest| == 0) {
        r := Collected(outBuf[..outLen], |input| - |rest|, false);
        StopsCollected(r, deflate, noFlush, |input|, e, start, offered, front, availOut, reply);
        return;
      }
    }
  }

  // ---- what this means for the callers ----

  /** Inputs below 2^31 bytes with outputs below 2^32 bytes: the result is the expected one, or memory ran out. */
  lemma SmallRuns(r: Outcome, t: Total, inLen: nat, memory: nat)
    requires inLen < 0x8000_0000 && |t.output| < TWO_32
    requires Allowed(r, t, 0, FirstCapacity(inLen), memory)
    ensures r == Expected(t, 0) || (r == OutOfMemory && memory < 2 * (inLen + |t.output| + 32))
  {
    SmallInputsFit(inLen);
    hide Limit;
  }

  /** The first capacity and the doubling points make no difference to what is collected. */
  lemma CapacityIndependent(
    r1: Outcome, r2: Outcome, t: Total, unseen: nat, cap1: nat, cap2: nat, memory1: nat, memory2: nat)
    requires 0 < cap1 < TWO_32 && 0 < cap2 < TWO_32 && |t.output| < TWO_32
    requires Allowed(r1, t, unseen, cap1, memory1) && Allowed(r2, t, unseen, cap2, memory2)
    requires r1 != OutOfMemory && r2 != OutOfMemory
    ensures r1 == r2 == Expected(t, unseen)
  {
  }

  /** `consumed` is what the engine took exactly when the input length fits 32 bits. */
  lemma ConsumedIsExact(input: seq<byte>, t: Total)
    requires !t.ending.Fails?
    ensures Expected(t, |input| - |Offered(input)|).consumed == t.consumed <==> |input| < TWO_32
  {
  }

  /** The loop's variables, contents of the buffer apart. */
  datatype LoopState<S> = LoopState(s: S, rest: seq<byte>, outLen: nat, outCap: nat)

  /** One round of the loop: the state it goes on with, None once it ends. */
  function RoundOf<S>(e: Engine<S>, deflate: bool, noFlush: bool, st: LoopState<S>): Option<LoopState<S>>
    requires st.outLen <= st.outCap
  {
    var cap := if st.outLen == st.outCap then st.outCap * 2 else st.outCap;
    var room := Room(cap - st.outLen);
    var r := e.call(st.s, st.rest, room);
    var rest := if r.consumed <= |st.rest| then st.rest[r.consumed..] else [];
    var next := LoopState(r.state, rest, st.outLen + |r.output|, cap);
    if IsFinal(r.status) then None
    else if |r.output| == room then Some(next)
    else if r.consumed == 0 && r.output == [] then None
    else if deflate && noFlush && rest == [] then None
    else Some(next)
  }

  function Rounds<S>(e: Engine<S>, deflate: bool, noFlush: bool, st: LoopState<S>, n: nat): Option<LoopState<S>>
    decreases n
  {
    if n == 0 then Some(st)
    else if st.outLen > st.outCap then None
    else
      match RoundOf(e, deflate, noFlush, st)
      case None => None
      case Some(next) => Rounds(e, deflate, noFlush, next, n - 1)
  }

  /** Where the loop is said to hang it is in the same state after every number of rounds, and has not ended. */
  lemma {:induction false} HangsForever<S(!new)>(
    e: Engine<S>, deflate: bool, noFlush: bool, st: LoopState<S>, n: nat)
    requires Progresses(e) && st.outLen < st.outCap && Room(st.outCap - st.outLen) == 0
    ensures Rounds(e, deflate, noFlush, st, n) == Some(st)
    decreases n
  {
    hide Progresses, Room, RoundOf;
    if n > 0 {
      RoundIdle(e, deflate, noFlush, st);
      HangsForever(e, deflate, noFlush, st, n - 1);
    }
  }

  lemma RoundIdle<S(!new)>(e: Engine<S>, deflate: bool, noFlush: bool, st: LoopState<S>)
    requires Progresses(e) && st.outLen < st.outCap && Room(st.outCap - st.outLen) == 0
    ensures RoundOf(e, deflate, noFlush, st) == Some(st)
  {
    UseProgress(e, st.s, st.rest, 0);
    hide Progresses, Room;
    assert e.call(st.s, st.rest, 0) == Reply(st.s, 0, [], BufError);
    assert st.rest[0..] == st.rest;
  }

  /** With 2^31 bytes of input every run that has anything to put out hangs at once. */
  lemma HalfWordHangs(r: Outcome, t: Total, memory: nat)
    requires t.output != [] && Allowed(r, t, 0, FirstCapacity(0x8000_0000), memory)
    ensures r == Hangs || r == OutOfMemory
  {
    HalfWordDoesNotFit();
    hide Limit;
  }

  lemma PowerOfTwoLimit()
    ensures Limit(FirstCapacity(0x40_0000)) == TWO_32
  {
    hide Room;
    var cap := 0x80_0000;
    DoubleOnce(cap);
    DoubleOnce(2 * cap);
    DoubleOnce(4 * cap);
    DoubleOnce(8 * cap);
    DoubleOnce(16 * cap);
    DoubleOnce(32 * cap);
    DoubleOnce(64 * cap);
    DoubleOnce(128 * cap);
    DoubleOnce(256 * cap);
    hide LimitOfDoubling;
    assert 512 * cap == TWO_32;
    FullWord();
  }

  lemma DoubleOnce(cap: nat)
    requires 0 < cap < TWO_32
    ensures LimitOfDoubling(cap) == LimitOfDoubling(2 * cap)
  {
  }

  lemma FullWord()
    ensures LimitOfDoubling(TWO_32) == TWO_32
  {
  }

  /** Four megabytes of input are enough to hang, if they inflate to more than 2^32 bytes. */
  lemma LargeOutputHangs(r: Outcome, t: Total, memory: nat)
    requires |t.output| > TWO_32 && Allowed(r, t, 0, FirstCapacity(0x40_0000), memory)
    ensures r == Hangs || r == OutOfMemory
  {
    PowerOfTwoLimit();
    hide Limit;
  }

  /** An engine that stores its input unchanged, three bytes at a time: what is asked of an engine can be met. */
  const COPYING: Engine<bool> := Engine(
    (s: bool, input: seq<byte>, room: nat) =>
      var n := Min(Min(|input|, room), 3); Reply(s, n, input[..n], if room == 0 then BufError else Okay),
    (s: bool, input: seq<byte>) => Total(input, |input|, Pauses))

  lemma CopyingProgresses()
    ensures Progresses(COPYING) && StopsDry(COPYING)
  {
    forall s: bool, input: seq<byte>, room: nat ensures CallOk(COPYING, s, input, room) {
      var n := Min(Min(|input|, room), 3);
      assert input[..n] <= input;
      assert room == 0 ==> input[..n] == [];
      assert |input| == 0 ==> input == [];
    }
    forall s: bool, input: seq<byte>, room: nat
      ensures var r := COPYING.call(s, input, room); r.consumed == |input| ==> input == r.output
    {
      assert input[..|input|] == input;
    }
  }

  lemma CopyingStreams()
    ensures Streams(COPYING)
  {
    forall s: bool, input: seq<byte>, more: seq<byte>, room: nat ensures CallStreams(COPYING, s, input, more, room) {
      CopyingJoins(input, more, Min(Min(|input|, room), 3));
    }
  }

  lemma CopyingJoins(input: seq<byte>, more: seq<byte>, n: nat)
    requires n <= |input|
    ensures input[..n] + (Behind(input, n) + more) == input + more
    ensures n + |Behind(input, n) + more| == |input + more|
  {
  }
}
