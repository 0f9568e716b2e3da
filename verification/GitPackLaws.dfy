/**
 What the bytes of a pack mean (node/qn/git.js): which entry a written header with its body is read as, what reading
 a chain of written deltas returns, and which packs pass the checks of the scan.
 */
module GitPackLaws {
  import opened Wrappers
  import opened Bytes
  import opened JsInt
  import opened GitVarint
  import opened GitDelta
  import opened GitDeltaLaws
  import opened GitPack

  // ---- numbers of one, two and three bytes ----

  lemma HeldParts(buf: seq<byte>, off: int, a: seq<byte>, b: seq<byte>)
    requires Holds(buf, off, a + b)
    ensures Holds(buf, off, a) && Holds(buf, off + |a|, b)
  {
    var end := off + |a + b|;
    assert buf[off..off + |a|] == buf[off..end][..|a|] == a;
    assert buf[off + |a|..end] == buf[off..end][|a|..] == b;
  }

  /** The first byte of a header has the kind above four bits of the size; every further byte adds seven bits. */
  lemma ShortHeaders(buf: seq<byte>, off: int, kind: nat, low: nat, g: nat, h: nat)
    requires kind < 8 && low < 16 && g < 128 && h < 128
    ensures Holds(buf, off, [16 * kind + low]) ==> HeaderAt(buf, off) == Header(kind, low, 1)
    ensures Holds(buf, off, [128 + 16 * kind + low, g]) ==> HeaderAt(buf, off) == Header(kind, low + 16 * g, 2)
    ensures Holds(buf, off, [128 + 16 * kind + low, 128 + g, h]) ==>
      HeaderAt(buf, off) == Header(kind, low + 16 * g + 2048 * h, 3)
  {
    hide HeaderAt, Scaled, SizeValue;
    HeaderBits(kind, low);
    if Holds(buf, off, [16 * kind + low]) {
      OneByteHeader(buf, off, kind, low);
    }
    if Holds(buf, off, [128 + 16 * kind + low, g]) {
      assert [128 + 16 * kind + low, g] == [128 + kind * 16 + low] + [g];
      GroupValues(g, h);
      DecodesHeader(buf, off, kind, low, [g]);
    }
    if Holds(buf, off, [128 + 16 * kind + low, 128 + g, h]) {
      assert [128 + 16 * kind + low, 128 + g, h] == [128 + kind * 16 + low] + [128 + g, h];
      GroupValues(g, h);
      DecodesHeader(buf, off, kind, low, [128 + g, h]);
    }
  }

  lemma OneByteHeader(buf: seq<byte>, off: int, kind: nat, low: nat)
    requires kind < 8 && low < 16 && Holds(buf, off, [16 * kind + low])
    ensures HeaderAt(buf, off) == Header(kind, low, 1)
  {
    HoldsTail(buf, off, [16 * kind + low]);
    assert (16 * kind + low) / 16 == kind;
  }

  lemma GroupValues(g: nat, h: nat)
    requires g < 128 && h < 128
    ensures SizeValue([g], 4) == 16 * g && SizeValue([128 + g, h], 4) == 16 * g + 2048 * h
    ensures SizeValue([g], 0) == g && SizeValue([128 + g, h], 0) == g + 128 * h
    ensures Complete([g]) && Complete([128 + g, h])
  {
    ScaledBySeven(g);
    ScaledBySeven(h);
    ScaledBySeven(16 * h);
    ScaledMore(h, 4, 7);
    assert [128 + g, h][1..] == [h] && [g][1..] == [] && [h][1..] == [];
    assert SizeValue([h], 11) == Scaled(h, 11) && SizeValue([h], 7) == Scaled(h, 7);
    hide Scaled;
    assert (128 + g) % 128 == g;
  }

  /** The sizes of a delta and the distance of an offset delta, in one and two bytes. */
  lemma ShortNumbers(buf: seq<byte>, off: int, g: nat, h: nat)
    requires g < 128 && h < 128
    ensures Holds(buf, off, [g]) ==> VarSizeAt(buf, off) == (g, off + 1) && OffsetAt(buf, off) == (g, 1)
    ensures Holds(buf, off, [128 + g, h]) ==>
      VarSizeAt(buf, off) == (g + 128 * h, off + 2) && OffsetAt(buf, off) == (128 * (g + 1) + h, 2)
  {
    hide VarSizeAt, OffsetAt, SizeValue;
    GroupValues(g, h);
    assert [128 + g, h][..1] == [128 + g];
    if Holds(buf, off, [g]) {
      DecodesSize(buf, off, [g]);
      DecodesComplete(buf, off, [g]);
    }
    if Holds(buf, off, [128 + g, h]) {
      DecodesSize(buf, off, [128 + g, h]);
      DecodesComplete(buf, off, [128 + g, h]);
    }
  }

  // ---- one written entry ----

  /** The kinds of whole objects by number; no other number below eight but 6 and 7 is the kind of an entry. */
  lemma WholeEntry(p: Pack, off: int, number: nat, size: nat)
    requires number < 8 && number != 6 && number != 7
    requires size < HALF && Holds(p.buf, off, EncodeHeader(number, size))
    ensures var body := off + |EncodeHeader(number, size)|;
      var unpacked := p.inflate(p.buf[body..]);
      EntryAt(p, off) ==
        if number == 0 || number == 5 || unpacked.None? then Broken
        else
          Whole(Object(if number == 1 then Commit else if number == 2 then Tree else if number == 3 then Blob else Tag,
                       unpacked.value.0), |unpacked.value.0| == size, body + unpacked.value.1)
  {
    hide HeaderAt, EncodeHeader;
    HeaderRoundTrip(p.buf, off, number, size);
  }

  /** An offset delta names its base by the distance back from its own start. */
  lemma OfsEntry(p: Pack, off: int, size: nat, distance: nat)
    requires size < HALF && distance < HALF
    requires Holds(p.buf, off, EncodeHeader(6, size) + EncodeOffset(distance))
    ensures var body := off + |EncodeHeader(6, size)| + |EncodeOffset(distance)|;
      var unpacked := p.inflate(p.buf[body..]);
      EntryAt(p, off) ==
        if unpacked.None? then Broken
        else Ofs(off - distance, unpacked.value.0, body + unpacked.value.1)
  {
    hide HeaderAt, EncodeHeader, OffsetAt, EncodeOffset;
    HeldParts(p.buf, off, EncodeHeader(6, size), EncodeOffset(distance));
    HeaderRoundTrip(p.buf, off, 6, size);
    OffsetRoundTrip(p.buf, off + |EncodeHeader(6, size)|, distance);
  }

  /** A reference delta names its base by the twenty bytes behind its header. */
  lemma RefEntry(p: Pack, off: int, size: nat, sha: Sha)
    requires size < HALF && |sha| == 20
    requires Holds(p.buf, off, EncodeHeader(7, size) + sha)
    ensures var body := off + |EncodeHeader(7, size)| + 20;
      var unpacked := p.inflate(p.buf[body..]);
      EntryAt(p, off) ==
        if unpacked.None? then Broken else Ref(sha, unpacked.value.0, body + unpacked.value.1)
  {
    hide HeaderAt, EncodeHeader, OffsetAt;
    HeldParts(p.buf, off, EncodeHeader(7, size), sha);
    HeaderRoundTrip(p.buf, off, 7, size);
    SliceHeld(p.buf, off + |EncodeHeader(7, size)|, sha);
  }

  lemma SliceHeld(buf: seq<byte>, at: int, s: seq<byte>)
    requires Holds(buf, at, s)
    ensures Slice(buf, at, |s|) == s
  {
    assert buf[at..][..|s|] == buf[at..at + |s|];
  }

  // ---- reading written entries ----

  /** A whole object is read exactly when it has the declared size. */
  lemma ReadsWhole(p: Pack, bySha: map<Sha, int>, off: int, stack: nat, number: nat, kind: Kind, size: nat,
                   content: seq<byte>, n: nat)
    requires (number, kind) in {(1, Commit), (2, Tree), (3, Blob), (4, Tag)}
    requires stack > 0 && size < HALF && Holds(p.buf, off, EncodeHeader(number, size))
    requires p.inflate(p.buf[off + |EncodeHeader(number, size)|..]) == Some((content, n))
    ensures ReadPackObject(p, bySha, off, stack) == if |content| == size then Some(Object(kind, content)) else None
  {
    hide EntryAt, EncodeHeader;
    WholeEntry(p, off, number, size);
  }

  lemma AppliesTo(base: Object, delta: seq<byte>, xs: seq<Instruction>)
    requires AllWellFormed(xs) && delta == Encode(base.content, xs)
    requires |base.content| < HALF && |Pieces(base.content, xs)| < HALF
    ensures ApplyTo(Some(base), delta) == Some(Object(base.kind, Pieces(base.content, xs)))
  {
    hide Applied, Encode, Pieces;
    ApplyEncoded(base.content, xs);
  }

  /** An offset delta of written instructions yields their pieces over the object found `distance` bytes before it. */
  lemma ReadsOfs(p: Pack, bySha: map<Sha, int>, off: int, stack: nat, size: nat, distance: nat,
                 base: Object, xs: seq<Instruction>, n: nat)
    requires stack > 0 && size < HALF && distance < HALF
    requires Holds(p.buf, off, EncodeHeader(6, size) + EncodeOffset(distance))
    requires AllWellFormed(xs) && |base.content| < HALF && |Pieces(base.content, xs)| < HALF
    requires p.inflate(p.buf[off + |EncodeHeader(6, size)| + |EncodeOffset(distance)|..])
          == Some((Encode(base.content, xs), n))
    requires ReadPackObject(p, bySha, off - distance, stack - 1) == Some(base)
    ensures ReadPackObject(p, bySha, off, stack) == Some(Object(base.kind, Pieces(base.content, xs)))
  {
    hide EntryAt, EncodeHeader, EncodeOffset, Encode, Pieces, ApplyTo;
    OfsEntry(p, off, size, distance);
    AppliesTo(base, Encode(base.content, xs), xs);
  }

  /** A reference delta does so over the object the index has under its hash, and is unreadable without one. */
  lemma ReadsRef(p: Pack, bySha: map<Sha, int>, off: int, stack: nat, size: nat, sha: Sha,
                 base: Object, xs: seq<Instruction>, n: nat)
    requires stack > 0 && size < HALF && |sha| == 20 && Holds(p.buf, off, EncodeHeader(7, size) + sha)
    requires AllWellFormed(xs) && |base.content| < HALF && |Pieces(base.content, xs)| < HALF
    requires p.inflate(p.buf[off + |EncodeHeader(7, size)| + 20..]) == Some((Encode(base.content, xs), n))
    ensures sha !in bySha ==> ReadPackObject(p, bySha, off, stack) == None
    ensures sha in bySha && ReadPackObject(p, bySha, bySha[sha], stack - 1) == Some(base) ==>
      ReadPackObject(p, bySha, off, stack) == Some(Object(base.kind, Pieces(base.content, xs)))
  {
    hide EntryAt, EncodeHeader, Encode, Pieces, ApplyTo;
    RefEntry(p, off, size, sha);
    AppliesTo(base, Encode(base.content, xs), xs);
  }

  /** A delta over a base that cannot be read, or one that is refused by the base, cannot be read. */
  lemma UnreadableBase(p: Pack, bySha: map<Sha, int>, off: int, stack: nat)
    requires stack > 0 && EntryAt(p, off).Ofs?
    ensures var base := ReadPackObject(p, bySha, EntryAt(p, off).base, stack - 1);
      ReadPackObject(p, bySha, off, stack).Some? <==>
      base.Some? && Applied(base.value.content, EntryAt(p, off).delta).Ok?
  {
    hide EntryAt, Applied;
  }

  /** A version of an object: where its delta stands in the pack, and the instructions it was made with. */
  datatype Version = Version(off: int, size: nat, xs: seq<Instruction>, length: nat)

  /** Versions written as a chain: each an offset delta against the one before it, the first against the entry at `from`. */
  ghost predicate Chained(p: Pack, from: int, content: seq<byte>, vs: seq<Version>)
    decreases |vs|
  {
    vs == [] ||
    var v := vs[0];
    && v.size < HALF && 0 <= v.off - from < HALF && AllWellFormed(v.xs)
    && |content| < HALF && |Pieces(content, v.xs)| < HALF
    && Holds(p.buf, v.off, EncodeHeader(6, v.size) + EncodeOffset(v.off - from))
    && p.inflate(p.buf[v.off + |EncodeHeader(6, v.size)| + |EncodeOffset(v.off - from)|..])
         == Some((Encode(content, v.xs), v.length))
    && Chained(p, v.off, Pieces(content, v.xs), vs[1..])
  }

  function LastOffset(from: int, vs: seq<Version>): int {
    if vs == [] then from else vs[|vs| - 1].off
  }

  function LastContent(content: seq<byte>, vs: seq<Version>): seq<byte>
    requires forall v <- vs :: AllWellFormed(v.xs)
    decreases |vs|
  {
    if vs == [] then content else LastContent(Pieces(content, vs[0].xs), vs[1..])
  }

  lemma {:induction false} ChainedWellFormed(p: Pack, from: int, content: seq<byte>, vs: seq<Version>)
    requires Chained(p, from, content, vs)
    ensures forall v <- vs :: AllWellFormed(v.xs)
    decreases |vs|
  {
    hide EncodeHeader, EncodeOffset, Encode, Pieces, Holds, AllWellFormed;
    if vs != [] { ChainedWellFormed(p, vs[0].off, Pieces(content, vs[0].xs), vs[1..]); }
  }

  /** Reading the last of a chain of written versions applies all their instructions in order to the first object. */
  lemma {:induction false} ReadsChain(p: Pack, bySha: map<Sha, int>, from: int, base: Object, stack: nat, vs: seq<Version>)
    requires Chained(p, from, base.content, vs) && ReadPackObject(p, bySha, from, stack) == Some(base)
    ensures forall v <- vs :: AllWellFormed(v.xs)
    ensures ReadPackObject(p, bySha, LastOffset(from, vs), stack + |vs|)
         == Some(Object(base.kind, LastContent(base.content, vs)))
    decreases |vs|
  {
    hide EncodeHeader, EncodeOffset, Encode, Pieces, Holds, AllWellFormed, ReadPackObject;
    ChainedWellFormed(p, from, base.content, vs);
    if vs != [] {
      var v := vs[0];
      var next := Object(base.kind, Pieces(base.content, v.xs));
      ReadsOfs(p, bySha, v.off, stack + 1, v.size, v.off - from, base, v.xs, v.length);
      ReadsChain(p, bySha, v.off, next, stack + 1, vs[1..]);
    }
  }

  // ---- the frame of a pack ----

  /** Entries that stand one behind the other are visited in this order, the last one even if it is broken. */
  lemma {:induction false} WalkVisits(p: Pack, offs: seq<int>)
    requires forall i | 0 <= i < |offs| - 1 ::
      !EntryAt(p, offs[i]).Broken? && EntryAt(p, offs[i]).next == offs[i + 1]
    ensures offs != [] ==> Walk(p, offs[0], |offs|) == offs
    decreases |offs|
  {
    hide EntryAt;
    if |offs| > 1 {
      WalkVisits(p, offs[1..]);
    } else if |offs| == 1 {
      assert Walk(p, offs[0], 1) == [offs[0]];
    }
  }

  /** Four bytes as a number, most significant first. */
  lemma BigEndian(a: byte, b: byte, c: byte, d: byte, front: seq<byte>, tail: seq<byte>)
    ensures Be32(front + [a, b, c, d] + tail, |front|) == 0x100_0000 * a + 0x1_0000 * b + 0x100 * c + d
  {
  }

  /**
   A pack passes the scan exactly when it is framed: the letters PACK, version 2 or 3, entries that can be read, as
   many as the third word says, starting at byte 12, and behind everything else a checksum of twenty bytes.
   */
  lemma FramedExactly(p: Pack)
    ensures FaultOf(p).None? <==>
      var n := |p.buf|;
      && n >= 32
      && p.buf[0] == 0x50 && p.buf[1] == 0x41 && p.buf[2] == 0x43 && p.buf[3] == 0x4b
      && p.buf[4] == 0 && p.buf[5] == 0 && p.buf[6] == 0 && (p.buf[7] == 2 || p.buf[7] == 3)
      && (forall s <- Walk(p, 12, Be32(p.buf, 8)) :: !EntryAt(p, s).Broken?)
      && p.checksum(p.buf[..n - 20]) == p.buf[n - 20..]
  {
    hide EntryAt, Walk;
    var n := |p.buf|;
    if n >= 4 {
      assert p.buf[..4] == [p.buf[0], p.buf[1], p.buf[2], p.buf[3]];
    }
  }
}
