/**
 Reading the objects of a git pack and indexing them in memory (node/qn/git.js).

 A pack mixes whole objects with deltas against other entries: an offset delta names its base by distance,
 a reference delta by hash, and the entry with that hash may come later. The index records whole objects
 first and then repeats passes over the deltas until a pass records nothing. The laws say that this finds
 exactly the entries whose chain of bases ends in a whole object, in at most one pass more than there are
 deltas.

 The hash of an object and the inflation of a compressed body are given functions.
 */
module GitPack {
  import opened Wrappers
  import opened Bytes
  import opened JsInt
  import opened GitVarint
  import opened GitDelta

  datatype Kind = Commit | Tree | Blob | Tag

  datatype Object = Object(kind: Kind, content: seq<byte>)

  type Sha = seq<byte>

  datatype Pack = Pack(
    buf: seq<byte>,
    inflate: seq<byte> -> Option<(seq<byte>, nat)>,
    hash: Object -> Sha,
    checksum: seq<byte> -> seq<byte>)

  /** What stands at an offset: a whole object and whether its length is the declared one, or a delta and its base. */
  datatype Entry =
    | Whole(obj: Object, declared: bool, next: int)
    | Ofs(base: int, delta: seq<byte>, next: int)
    | Ref(sha: Sha, delta: seq<byte>, next: int)
    | Broken

  predicate IsDelta(e: Entry) {
    e.Ofs? || e.Ref?
  }

  function Tail(buf: seq<byte>, at: int): seq<byte> {
    if 0 <= at <= |buf| then buf[at..] else []
  }

  function Slice(buf: seq<byte>, at: int, n: nat): seq<byte> {
    var tail := Tail(buf, at);
    tail[..Min(n, |tail|)]
  }

  function WholeKind(kind: nat): Option<Kind> {
    if kind == 1 then Some(Commit) else if kind == 2 then Some(Tree)
    else if kind == 3 then Some(Blob) else if kind == 4 then Some(Tag) else None
  }

  function EntryAt(p: Pack, off: int): Entry {
    var hdr := HeaderAt(p.buf, off);
    var body := off + hdr.headerLen;
    if hdr.kind == 6 then
      var (value, len) := OffsetAt(p.buf, body);
      match p.inflate(Tail(p.buf, body + len))
      case None => Broken
      case Some(r) => Ofs(off - Signed(value), r.0, body + len + r.1)
    else if hdr.kind == 7 then
      match p.inflate(Tail(p.buf, body + 20))
      case None => Broken
      case Some(r) => Ref(Slice(p.buf, body, 20), r.0, body + 20 + r.1)
    else
      match WholeKind(hdr.kind)
      case None => Broken
      case Some(kind) =>
        match p.inflate(Tail(p.buf, body))
        case None => Broken
        case Some(r) => Whole(Object(kind, r.0), |r.0| == Signed(hdr.size), body + r.1)
  }

  function ApplyTo(base: Option<Object>, delta: seq<byte>): Option<Object> {
    match base
    case None => None
    case Some(b) =>
      match Applied(b.content, delta)
      case Err(_) => None
      case Ok(content) => Some(Object(b.kind, content))
  }

  /**
   `readPackObject` with the index built so far, on a call stack with room for `stack` frames: running out of
   stack is one of the exceptions its callers see.
   */
  function ReadPackObject(p: Pack, bySha: map<Sha, int>, off: int, stack: nat): Option<Object>
    decreases stack
  {
    if stack == 0 then None
    else
      match EntryAt(p, off)
      case Broken => None
      case Whole(obj, declared, _) => if declared then Some(obj) else None
      case Ofs(base, delta, _) => ApplyTo(ReadPackObject(p, bySha, base, stack - 1), delta)
      case Ref(sha, delta, _) =>
        if sha !in bySha then None else ApplyTo(ReadPackObject(p, bySha, bySha[sha], stack - 1), delta)
  }

  // ---- the meaning of a chain of deltas, without an index ----

  ghost predicate Supplies(p: Pack, starts: set<int>, n: nat, sha: Sha, s: int, obj: Object)
    decreases n, 1
  {
    s in starts && Meaning(p, starts, n, s) == Some(obj) && p.hash(obj) == sha
  }

  /** The object at `off` when its chain ends in a whole object after fewer than `n` deltas. */
  ghost function Meaning(p: Pack, starts: set<int>, n: nat, off: int): Option<Object>
    decreases n, 0
  {
    if n == 0 then None
    else
      match EntryAt(p, off)
      case Broken => None
      case Whole(obj, declared, _) => if declared then Some(obj) else None
      case Ofs(base, delta, _) => ApplyTo(Meaning(p, starts, n - 1, base), delta)
      case Ref(sha, delta, _) => ApplyTo(Named(p, starts, n - 1, sha), delta)
  }

  ghost function Named(p: Pack, starts: set<int>, n: nat, sha: Sha): Option<Object>
    decreases n, 2
  {
    if exists s, obj :: Supplies(p, starts, n, sha, s, obj) then
      var s, obj :| Supplies(p, starts, n, sha, s, obj);
      Some(obj)
    else None
  }

  ghost predicate Injective(p: Pack) {
    forall a, b :: p.hash(a) == p.hash(b) ==> a == b
  }

  lemma NamedIs(p: Pack, starts: set<int>, n: nat, sha: Sha, s: int, obj: Object)
    requires Injective(p) && Supplies(p, starts, n, sha, s, obj)
    ensures Named(p, starts, n, sha) == Some(obj)
  {
    var s', obj' :| Supplies(p, starts, n, sha, s', obj') && Named(p, starts, n, sha) == Some(obj');
    assert p.hash(obj) == p.hash(obj');
  }

  lemma {:induction false} MeaningMore(p: Pack, starts: set<int>, n: nat, m: nat, off: int)
    requires Injective(p) && n <= m && Meaning(p, starts, n, off).Some?
    ensures Meaning(p, starts, m, off) == Meaning(p, starts, n, off)
    decreases n
  {
    hide HeaderAt, OffsetAt, Applied;
    match EntryAt(p, off)
    case Broken =>
    case Whole(_, _, _) =>
    case Ofs(base, _, _) => MeaningMore(p, starts, n - 1, m - 1, base);
    case Ref(sha, _, _) =>
      var s, obj :| Supplies(p, starts, n - 1, sha, s, obj);
      MeaningMore(p, starts, n - 1, m - 1, s);
      assert Supplies(p, starts, m - 1, sha, s, obj);
      NamedIs(p, starts, n - 1, sha, s, obj);
      NamedIs(p, starts, m - 1, sha, s, obj);
  }

  /** The chain at `off` ends in a whole object and yields `obj`. */
  ghost predicate Resolves(p: Pack, starts: set<int>, off: int, obj: Object) {
    exists n: nat :: Meaning(p, starts, n, off) == Some(obj)
  }

  /** The object whose hash the index keeps for an entry: a whole one as it is, a delta with its chain applied. */
  ghost predicate Recorded(p: Pack, starts: set<int>, off: int, obj: Object) {
    match EntryAt(p, off)
    case Whole(o, _, _) => obj == o
    case _ => Resolves(p, starts, off, obj)
  }

  lemma ResolvesOnce(p: Pack, starts: set<int>, off: int, a: Object, b: Object)
    requires Injective(p) && Resolves(p, starts, off, a) && Resolves(p, starts, off, b)
    ensures a == b
  {
    hide EntryAt;
    var n: nat :| Meaning(p, starts, n, off) == Some(a);
    var m: nat :| Meaning(p, starts, m, off) == Some(b);
    if n <= m { MeaningMore(p, starts, n, m, off); } else { MeaningMore(p, starts, m, n, off); }
  }

  lemma MeaningIsRecorded(p: Pack, starts: set<int>, n: nat, off: int, obj: Object)
    requires Meaning(p, starts, n, off) == Some(obj)
    ensures Recorded(p, starts, off, obj)
  {
    hide HeaderAt, OffsetAt;
    assert Resolves(p, starts, off, obj);
  }

  lemma RecordedOnce(p: Pack, starts: set<int>, off: int, a: Object, b: Object)
    requires Injective(p) && Recorded(p, starts, off, a) && Recorded(p, starts, off, b)
    ensures a == b
  {
    hide HeaderAt, OffsetAt, Resolves;
    if !EntryAt(p, off).Whole? { ResolvesOnce(p, starts, off, a, b); }
  }

  /** No two entries hold the same object. */
  ghost predicate DistinctContents(p: Pack, starts: set<int>) {
    forall s, t, a, b ::
      s in starts && t in starts && Recorded(p, starts, s, a) && Recorded(p, starts, t, b) && a == b ==> s == t
  }

  // ---- the index ----

  datatype Index = Index(byOffset: map<int, Sha>, bySha: map<Sha, int>)

  function Record(x: Index, off: int, sha: Sha): Index {
    Index(x.byOffset[off := sha], x.bySha[sha := off])
  }

  /** Every record is the hash of what its entry holds, and the two maps are each other's inverse. */
  ghost predicate Sound(p: Pack, starts: set<int>, x: Index) {
    && x.byOffset.Keys <= starts
    && (forall s <- x.byOffset :: Holder(p, starts, s, x.byOffset[s]))
    && (forall s <- x.byOffset :: x.byOffset[s] in x.bySha && x.bySha[x.byOffset[s]] == s)
    && (forall sha <- x.bySha :: x.bySha[sha] in x.byOffset && x.byOffset[x.bySha[sha]] == sha)
  }

  ghost predicate Holder(p: Pack, starts: set<int>, s: int, sha: Sha) {
    exists obj :: Recorded(p, starts, s, obj) && p.hash(obj) == sha
  }

  lemma OneHolder(p: Pack, starts: set<int>, s: int, t: int, obj: Object)
    requires Injective(p) && DistinctContents(p, starts) && s in starts && t in starts
    requires Recorded(p, starts, s, obj) && Holder(p, starts, t, p.hash(obj))
    ensures s == t
  {
    hide Recorded;
    var b :| Recorded(p, starts, t, b) && p.hash(b) == p.hash(obj);
  }

  lemma RecordSound(p: Pack, starts: set<int>, x: Index, off: int, obj: Object)
    requires Injective(p) && DistinctContents(p, starts) && Sound(p, starts, x)
    requires off in starts && off !in x.byOffset && Recorded(p, starts, off, obj)
    ensures Sound(p, starts, Record(x, off, p.hash(obj)))
  {
    hide Recorded;
    var sha := p.hash(obj);
    if sha in x.bySha { OneHolder(p, starts, off, x.bySha[sha], obj); }
    assert Holder(p, starts, off, sha);
  }

  /** An object read through a sound index is the meaning of its entry. */
  lemma {:induction false} ReadSound(p: Pack, starts: set<int>, x: Index, off: int, stack: nat)
    requires Injective(p) && Sound(p, starts, x) && ReadPackObject(p, x.bySha, off, stack).Some?
    ensures Meaning(p, starts, stack, off) == ReadPackObject(p, x.bySha, off, stack)
    decreases stack
  {
    hide HeaderAt, OffsetAt, Applied, Recorded;
    match EntryAt(p, off)
    case Broken =>
    case Whole(_, _, _) =>
    case Ofs(base, _, _) => ReadSound(p, starts, x, base, stack - 1);
    case Ref(sha, _, _) =>
      var s := x.bySha[sha];
      ReadSound(p, starts, x, s, stack - 1);
      var obj := ReadPackObject(p, x.bySha, s, stack - 1).value;
      assert Holder(p, starts, s, x.byOffset[s]);
      var b :| Recorded(p, starts, s, b) && p.hash(b) == sha;
      MeaningIsRecorded(p, starts, stack - 1, s, obj);
      RecordedOnce(p, starts, s, obj, b);
      assert Supplies(p, starts, stack - 1, sha, s, obj);
      NamedIs(p, starts, stack - 1, sha, s, obj);
  }

  lemma {:induction false} ReadMore(p: Pack, bySha: map<Sha, int>, off: int, n: nat, m: nat)
    requires n <= m && ReadPackObject(p, bySha, off, n).Some?
    ensures ReadPackObject(p, bySha, off, m) == ReadPackObject(p, bySha, off, n)
    decreases n
  {
    hide HeaderAt, OffsetAt, Applied;
    match EntryAt(p, off)
    case Broken =>
    case Whole(_, _, _) =>
    case Ofs(base, _, _) => ReadMore(p, bySha, base, n - 1, m - 1);
    case Ref(sha, _, _) => ReadMore(p, bySha, bySha[sha], n - 1, m - 1);
  }

  /** A pass that records nothing: every whole object is recorded, and no other delta can be read. */
  ghost predicate Stable(p: Pack, starts: set<int>, x: Index, stack: nat) {
    forall s <- starts :: s in x.byOffset || (IsDelta(EntryAt(p, s)) && ReadPackObject(p, x.bySha, s, stack).None?)
  }

  /** With a stable index every chain that ends can be followed through the index. */
  lemma {:induction false} StableReads(p: Pack, starts: set<int>, x: Index, stack: nat, n: nat, off: int)
    requires Injective(p) && Sound(p, starts, x) && Stable(p, starts, x, stack) && n <= stack
    requires Meaning(p, starts, n, off).Some?
    ensures ReadPackObject(p, x.bySha, off, n) == Meaning(p, starts, n, off)
    decreases n
  {
    hide HeaderAt, OffsetAt, Applied, Recorded;
    match EntryAt(p, off)
    case Broken =>
    case Whole(_, _, _) =>
    case Ofs(base, _, _) => StableReads(p, starts, x, stack, n - 1, base);
    case Ref(sha, _, _) =>
      var s, obj :| Supplies(p, starts, n - 1, sha, s, obj);
      NamedIs(p, starts, n - 1, sha, s, obj);
      StableReads(p, starts, x, stack, n - 1, s);
      ReadMore(p, x.bySha, s, n - 1, stack);
      RecordedUnder(p, starts, x, s, n - 1, obj);
  }

  lemma RecordedUnder(p: Pack, starts: set<int>, x: Index, s: int, n: nat, obj: Object)
    requires Injective(p) && Sound(p, starts, x) && s in x.byOffset && Meaning(p, starts, n, s) == Some(obj)
    ensures x.byOffset[s] == p.hash(obj) && p.hash(obj) in x.bySha && x.bySha[p.hash(obj)] == s
  {
    hide Recorded, Meaning;
    assert Holder(p, starts, s, x.byOffset[s]);
    var b :| Recorded(p, starts, s, b) && p.hash(b) == x.byOffset[s];
    MeaningIsRecorded(p, starts, n, s, obj);
    RecordedOnce(p, starts, s, obj, b);
  }

  /** The call stack is deep enough for every chain that ends. */
  ghost predicate DeepEnough(p: Pack, starts: set<int>, stack: nat) {
    forall s, n: nat :: s in starts && Meaning(p, starts, n, s).Some? ==> Meaning(p, starts, stack, s).Some?
  }

  /**
   What the index holds when a pass records nothing: exactly the whole objects and the deltas whose chain ends
   in one, each under the hash of its fully applied content, and every one of them can be read back.
   */
  lemma StableIsComplete(p: Pack, starts: set<int>, x: Index, stack: nat, s: int)
    requires Injective(p) && Sound(p, starts, x) && Stable(p, starts, x, stack) && DeepEnough(p, starts, stack)
    requires s in starts
    ensures s in x.byOffset <==> EntryAt(p, s).Whole? || exists obj :: Resolves(p, starts, s, obj)
    ensures s in x.byOffset ==> exists obj :: Recorded(p, starts, s, obj) && x.byOffset[s] == p.hash(obj)
                                           && p.hash(obj) in x.bySha && x.bySha[p.hash(obj)] == s
    ensures forall obj :: Resolves(p, starts, s, obj) ==> ReadPackObject(p, x.bySha, s, stack) == Some(obj)
  {
    hide HeaderAt, OffsetAt, ReadPackObject;
    if s in x.byOffset {
      assert Holder(p, starts, s, x.byOffset[s]);
    }
    forall obj | Resolves(p, starts, s, obj)
      ensures s in x.byOffset && ReadPackObject(p, x.bySha, s, stack) == Some(obj)
    {
      var n: nat :| Meaning(p, starts, n, s) == Some(obj);
      if stack <= n { MeaningMore(p, starts, stack, n, s); } else { MeaningMore(p, starts, n, stack, s); }
      StableReads(p, starts, x, stack, stack, s);
    }
  }

  // ---- how deep chains go ----

  /** Every offset delta of the pack goes back to the start of an entry. */
  ghost predicate Lands(p: Pack, starts: set<int>) {
    forall s <- starts :: EntryAt(p, s).Ofs? ==> EntryAt(p, s).base in starts
  }

  ghost function Ending(p: Pack, starts: set<int>, n: nat): set<int> {
    set s | s in starts && Meaning(p, starts, n, s).Some?
  }

  lemma EndingGrows(p: Pack, starts: set<int>, n: nat)
    requires Injective(p)
    ensures Ending(p, starts, n) <= Ending(p, starts, n + 1)
  {
    hide EntryAt;
    forall s <- Ending(p, starts, n) ensures s in Ending(p, starts, n + 1) {
      MeaningMore(p, starts, n, n + 1, s);
    }
  }

  /** Once a step adds no entry, no later step does. */
  lemma EndingSettles(p: Pack, starts: set<int>, n: nat)
    requires Injective(p) && Lands(p, starts) && Ending(p, starts, n + 1) <= Ending(p, starts, n)
    ensures Ending(p, starts, n + 2) <= Ending(p, starts, n + 1)
  {
    hide Meaning;
    var later, sooner := Ending(p, starts, n + 2), Ending(p, starts, n + 1);
    forall s | s in later ensures s in sooner {
      SettledAt(p, starts, n, s);
    }
  }

  lemma SettledAt(p: Pack, starts: set<int>, n: nat, s: int)
    requires Injective(p) && Lands(p, starts) && Ending(p, starts, n + 1) <= Ending(p, starts, n)
    requires s in starts && Meaning(p, starts, n + 2, s).Some?
    ensures Meaning(p, starts, n + 1, s).Some?
  {
    hide HeaderAt, OffsetAt, Applied;
    match EntryAt(p, s)
    case Broken =>
    case Whole(_, _, _) =>
    case Ofs(base, _, _) =>
      assert base in Ending(p, starts, n + 1);
      MeaningMore(p, starts, n, n + 1, base);
    case Ref(sha, _, _) =>
      assert Named(p, starts, n + 1, sha).Some?;
      NamedSettled(p, starts, n, sha);
  }

  lemma NamedSettled(p: Pack, starts: set<int>, n: nat, sha: Sha)
    requires Injective(p) && Ending(p, starts, n + 1) <= Ending(p, starts, n) && Named(p, starts, n + 1, sha).Some?
    ensures Named(p, starts, n, sha) == Named(p, starts, n + 1, sha)
  {
    hide Meaning;
    var t, obj :| Supplies(p, starts, n + 1, sha, t, obj);
    assert t in Ending(p, starts, n + 1);
    MeaningMore(p, starts, n, n + 1, t);
    assert Supplies(p, starts, n, sha, t, obj);
    NamedIs(p, starts, n + 1, sha, t, obj);
    NamedIs(p, starts, n, sha, t, obj);
  }

  lemma {:induction false} EndingBound(p: Pack, starts: set<int>, n: nat)
    requires Injective(p) && Lands(p, starts)
    ensures |Ending(p, starts, n)| >= n || Ending(p, starts, n + 1) <= Ending(p, starts, n)
  {
    hide Meaning, EntryAt;
    if n > 0 {
      EndingBound(p, starts, n - 1);
      EndingGrows(p, starts, n - 1);
      if Ending(p, starts, n) <= Ending(p, starts, n - 1) {
        EndingSettles(p, starts, n - 1);
      } else {
        var s :| s in Ending(p, starts, n) && s !in Ending(p, starts, n - 1);
        SizeMono(Ending(p, starts, n - 1) + {s}, Ending(p, starts, n));
      }
    }
  }

  lemma SizeMono<T>(a: set<T>, b: set<T>)
    requires a <= b
    ensures |a| <= |b|
  {
    if a != {} {
      var x :| x in a;
      SizeMono(a - {x}, b - {x});
    }
  }

  /** No chain that ends is longer than the pack has entries, so that much stack is deep enough. */
  lemma ChainsAreShort(p: Pack, starts: set<int>, stack: nat)
    requires Injective(p) && Lands(p, starts) && |starts| <= stack
    ensures DeepEnough(p, starts, stack)
  {
    hide Meaning, EntryAt;
    forall s, n: nat | s in starts && Meaning(p, starts, n, s).Some?
      ensures Meaning(p, starts, stack, s).Some?
    {
      if n <= stack {
        MeaningMore(p, starts, n, stack, s);
      } else {
        SettledFrom(p, starts, stack, n);
        assert s in Ending(p, starts, n);
      }
    }
  }

  lemma {:induction false} SettledFrom(p: Pack, starts: set<int>, m: nat, n: nat)
    requires Injective(p) && Lands(p, starts) && |starts| <= m <= n
    ensures Ending(p, starts, n) <= Ending(p, starts, m)
    ensures Ending(p, starts, n + 1) <= Ending(p, starts, n)
    decreases n
  {
    hide Meaning, EntryAt;
    if m < n {
      SettledFrom(p, starts, m, n - 1);
      EndingSettles(p, starts, n - 1);
    } else {
      EndingBound(p, starts, n);
      SizeMono(Ending(p, starts, n), starts);
      if !(Ending(p, starts, n + 1) <= Ending(p, starts, n)) {
        var s :| s in Ending(p, starts, n + 1) && s !in Ending(p, starts, n);
        SizeMono(Ending(p, starts, n) + {s}, starts);
      }
    }
  }

  /**
   The index of every pack whose objects are pairwise distinct and whose offset deltas land on entries: with
   stack for as many frames as there are entries, it maps exactly the hashes of the objects the pack holds
   to their entries, whatever the order of the entries.
   */
  lemma IndexIsExact(p: Pack, starts: set<int>, x: Index, stack: nat, sha: Sha, s: int)
    requires Injective(p) && DistinctContents(p, starts) && Lands(p, starts) && |starts| <= stack
    requires Sound(p, starts, x) && Stable(p, starts, x, stack)
    ensures sha in x.bySha && x.bySha[sha] == s <==> s in starts && Holder(p, starts, s, sha)
    ensures s in x.byOffset <==> s in starts && exists obj :: Recorded(p, starts, s, obj)
  {
    hide HeaderAt, OffsetAt, ReadPackObject;
    ChainsAreShort(p, starts, stack);
    if s in starts {
      StableIsComplete(p, starts, x, stack, s);
      if Holder(p, starts, s, sha) {
        var a :| Recorded(p, starts, s, a) && p.hash(a) == sha;
        var b :| Recorded(p, starts, s, b) && x.byOffset[s] == p.hash(b);
        RecordedOnce(p, starts, s, a, b);
      }
    }
  }

  // ---- building the index ----

  datatype ScanError = BadMagic | BadVersion | TooShort | BadEntry | BadChecksum

  const MAGIC: seq<byte> := [0x50, 0x41, 0x43, 0x4b]

  function Be32(buf: seq<byte>, at: nat): nat
    requires at + 4 <= |buf|
  {
    TWO_24 * buf[at] + TWO_16 * buf[at + 1] + TWO_8 * buf[at + 2] + buf[at + 3]
  }

  /** The entry starts met by walking `n` entries from `off`, up to a broken one. */
  function Walk(p: Pack, off: int, n: nat): seq<int>
    decreases n
  {
    if n == 0 then [] else
      match EntryAt(p, off)
      case Broken => [off]
      case e => [off] + Walk(p, e.next, n - 1)
  }

  ghost function Starts(p: Pack, off: int, n: nat): set<int> {
    set s | s in Walk(p, off, n)
  }

  ghost predicate Readable(p: Pack, starts: set<int>) {
    forall s <- starts :: !EntryAt(p, s).Broken?
  }

  ghost function Wholes(p: Pack, starts: set<int>): set<int> {
    set s | s in starts && EntryAt(p, s).Whole?
  }

  ghost function Deltas(p: Pack, starts: set<int>): set<int> {
    set s | s in starts && IsDelta(EntryAt(p, s))
  }

  lemma WalkStep(p: Pack, off: int, n: nat)
    requires n > 0 && !EntryAt(p, off).Broken?
    ensures Starts(p, off, n) == {off} + Starts(p, EntryAt(p, off).next, n - 1)
  {
    hide EntryAt;
    assert Walk(p, off, n)[0] == off;
    assert Walk(p, off, n)[1..] == Walk(p, EntryAt(p, off).next, n - 1);
  }

  lemma WalkDone(p: Pack, off: int)
    ensures Starts(p, off, 0) == {}
  {
  }

  lemma PlainRecord(p: Pack, starts: set<int>, off: int)
    requires EntryAt(p, off).Whole?
    ensures Recorded(p, starts, off, EntryAt(p, off).obj)
  {
    hide HeaderAt, OffsetAt;
  }

  /** The first thing wrong with a pack: its frame, an entry that cannot be read, its length, its checksum. */
  ghost function FaultOf(p: Pack): Option<ScanError> {
    var n := |p.buf|;
    if n < 4 || p.buf[..4] != MAGIC then Some(BadMagic)
    else if n < 8 then Some(TooShort)
    else if Be32(p.buf, 4) !in {2, 3} then Some(BadVersion)
    else if n < 12 then Some(TooShort)
    else if !Readable(p, Starts(p, 12, Be32(p.buf, 8))) then Some(BadEntry)
    else if n < 32 then Some(TooShort)
    else if p.checksum(p.buf[..n - 20]) != p.buf[n - 20..] then Some(BadChecksum)
    else None
  }

  /** What has to hold of a pack for its index to be meaningful. */
  ghost predicate Proper(p: Pack, starts: set<int>) {
    Injective(p) && DistinctContents(p, starts)
  }

  /** Nothing is left to record for an entry: it is recorded already, or cannot be read yet. */
  ghost predicate Settled(p: Pack, x: Index, s: int, stack: nat) {
    s in x.byOffset || ReadPackObject(p, x.bySha, s, stack).None?
  }

  class InMemoryIndex {
    const pack: Pack
    var byOffset: map<int, Sha>
    var bySha: map<Sha, int>

    constructor (pack: Pack)
      ensures this.pack == pack && View() == Index(map[], map[])
    {
      this.pack := pack;
      byOffset, bySha := map[], map[];
    }

    ghost function View(): Index
      reads this
    {
      Index(byOffset, bySha)
    }

    /** `find`: the offset of the object with this hash, or -1. */
    method Find(sha: Sha) returns (off: int)
      ensures off == if sha in bySha then bySha[sha] else -1
    {
      if sha !in bySha { return -1; }
      return bySha[sha];
    }

    method Set(off: int, sha: Sha)
      modifies this
      ensures View() == Record(old(View()), off, sha)
    {
      byOffset := byOffset[off := sha];
      bySha := bySha[sha := off];
    }

    /** The first loop of `_scan`: it walks every entry and records the whole objects. */
    method RecordWholes(count: nat, ghost starts: set<int>) returns (ok: bool)
      requires View() == Index(map[], map[]) && starts == Starts(pack, 12, count)
      modifies this
      ensures ok <==> Readable(pack, starts)
      ensures ok ==> byOffset.Keys == Wholes(pack, starts)
      ensures ok && Proper(pack, starts) ==> Sound(pack, starts, View())
    {
      hide EntryAt, Sound, Walk;
      EmptySound(pack, starts);
      var off := 12;
      ghost var done: set<int> := {};
      for i := 0 to count
        invariant starts == done + Starts(pack, off, count - i)
        invariant Readable(pack, done) && byOffset.Keys == Wholes(pack, done)
        invariant Proper(pack, starts) ==> Sound(pack, starts, View())
      {
        var entry := EntryAt(pack, off);
        WalkHere(pack, off, count - i);
        if entry.Broken? { return false; }
        WalkStep(pack, off, count - i);
        if entry.Whole? {
          PlainRecord(pack, starts, off);
          if Proper(pack, starts) {
            if off !in byOffset {
              RecordSound(pack, starts, View(), off, entry.obj);
            } else {
              RecordAgain(pack, starts, View(), off, entry.obj);
            }
          }
          Set(off, pack.hash(entry.obj));
        }
        done := done + {off};
        off := entry.next;
      }
      WalkDone(pack, off);
      return true;
    }

    /** One delta of a pass: unless recorded already, it is recorded when it can be read with what is known so far. */
    method TryDelta(off: int, stack: nat, ghost starts: set<int>) returns (recorded: bool)
      requires off in starts
      modifies this
      ensures old(byOffset.Keys) <= byOffset.Keys <= old(byOffset.Keys) + {off}
      ensures recorded ==> |byOffset| == old(|byOffset|) + 1
      ensures !recorded ==> View() == old(View()) && Settled(pack, View(), off, stack)
      ensures Proper(pack, starts) && old(Sound(pack, starts, View())) ==> Sound(pack, starts, View())
    {
      hide EntryAt, Sound, ReadPackObject;
      if off in byOffset { return false; }
      var obj := ReadPackObject(pack, bySha, off, stack);
      if obj.None? { return false; }
      var sha := pack.hash(obj.value);
      if Proper(pack, starts) && Sound(pack, starts, View()) {
        ReadSound(pack, starts, View(), off, stack);
        MeaningIsRecorded(pack, starts, stack, off, obj.value);
        RecordSound(pack, starts, View(), off, obj.value);
      }
      Set(off, sha);
      assert byOffset.Keys == old(byOffset.Keys) + {off};
      return true;
    }

    /** One pass over the deltas, in the order of their entries. */
    method Pass(count: nat, stack: nat, ghost starts: set<int>) returns (progress: bool)
      requires starts == Starts(pack, 12, count) && Readable(pack, starts) && byOffset.Keys <= starts
      modifies this
      ensures old(byOffset.Keys) <= byOffset.Keys <= starts
      ensures Proper(pack, starts) && old(Sound(pack, starts, View())) ==> Sound(pack, starts, View())
      ensures |byOffset| >= old(|byOffset|) + if progress then 1 else 0
      ensures !progress ==> View() == old(View()) && forall s <- Deltas(pack, starts) :: Settled(pack, View(), s, stack)
    {
      hide EntryAt, Sound, Starts, Settled, Proper;
      progress := false;
      var off := 12;
      ghost var done: set<int> := {};
      for i := 0 to count
        invariant starts == done + Starts(pack, off, count - i)
        invariant old(byOffset.Keys) <= byOffset.Keys <= starts
        invariant Proper(pack, starts) && old(Sound(pack, starts, View())) ==> Sound(pack, starts, View())
        invariant |byOffset| >= old(|byOffset|) + if progress then 1 else 0
        invariant !progress ==> View() == old(View()) && forall s <- Deltas(pack, done) :: Settled(pack, View(), s, stack)
      {
        WalkHere(pack, off, count - i);
        var entry := EntryAt(pack, off);
        WalkStep(pack, off, count - i);
        if IsDelta(entry) {
          var recorded := TryDelta(off, stack, starts);
          progress := progress || recorded;
        }
        assert Deltas(pack, done + {off}) == Deltas(pack, done) + if IsDelta(entry) then {off} else {};
        done := done + {off};
        off := entry.next;
      }
      WalkDone(pack, off);
      assert done == starts;
    }

    /** `_scan`: check the frame, record the whole objects, then repeat passes until one records nothing. */
    method Scan(stack: nat) returns (r: Result<nat, ScanError>)
      requires View() == Index(map[], map[])
      modifies this
      ensures r.Err? <==> FaultOf(pack).Some?
      ensures r.Err? ==> r.error == FaultOf(pack).value
      ensures r.Ok? ==> |pack.buf| >= 12
      ensures r.Ok? ==> var starts := Starts(pack, 12, Be32(pack.buf, 8));
        && r.value <= |Deltas(pack, starts)| + 1
        && (Proper(pack, starts) ==> Sound(pack, starts, View()) && Stable(pack, starts, View(), stack))
    {
      hide EntryAt, Sound, Walk, ReadPackObject;
      var buf := pack.buf;
      if |buf| < 4 || buf[..4] != MAGIC { return Err(BadMagic); }
      if |buf| < 8 { return Err(TooShort); }
      if Be32(buf, 4) != 2 && Be32(buf, 4) != 3 { return Err(BadVersion); }
      if |buf| < 12 { return Err(TooShort); }
      var count := Be32(buf, 8);
      ghost var starts := Starts(pack, 12, count);
      var ok := RecordWholes(count, starts);
      if !ok { return Err(BadEntry); }
      if |buf| < 32 { return Err(TooShort); }
      if pack.checksum(buf[..|buf| - 20]) != buf[|buf| - 20..] { return Err(BadChecksum); }
      WholesAndDeltas(pack, starts);
      var progress := true;
      var passes := 0;
      while progress
        invariant byOffset.Keys <= starts && Wholes(pack, starts) <= byOffset.Keys
        invariant passes <= |byOffset| - |Wholes(pack, starts)| + if progress then 0 else 1
        invariant Proper(pack, starts) ==> Sound(pack, starts, View())
        invariant !progress ==> forall s <- Deltas(pack, starts) :: Settled(pack, View(), s, stack)
        decreases |starts| - |byOffset|, progress
      {
        progress := Pass(count, stack, starts);
        passes := passes + 1;
        SizeMono(byOffset.Keys, starts);
      }
      SizeMono(byOffset.Keys, starts);
      return Ok(passes);
    }
  }

  lemma EmptySound(p: Pack, starts: set<int>)
    ensures Sound(p, starts, Index(map[], map[]))
  {
  }

  lemma RecordAgain(p: Pack, starts: set<int>, x: Index, off: int, obj: Object)
    requires Injective(p) && Sound(p, starts, x) && off in x.byOffset && Recorded(p, starts, off, obj)
    ensures Record(x, off, p.hash(obj)) == x
  {
    hide Recorded;
    assert Holder(p, starts, off, x.byOffset[off]);
    var b :| Recorded(p, starts, off, b) && p.hash(b) == x.byOffset[off];
    RecordedOnce(p, starts, off, obj, b);
  }

  lemma WalkHere(p: Pack, off: int, n: nat)
    requires n > 0
    ensures off in Starts(p, off, n)
  {
    hide EntryAt;
    assert Walk(p, off, n)[0] == off;
  }

  lemma WholesAndDeltas(p: Pack, starts: set<int>)
    requires Readable(p, starts)
    ensures |Wholes(p, starts)| + |Deltas(p, starts)| == |starts|
    ensures forall s <- starts :: s in Wholes(p, starts) || s in Deltas(p, starts)
  {
    hide EntryAt;
    assert Wholes(p, starts) + Deltas(p, starts) == starts;
    assert Wholes(p, starts) !! Deltas(p, starts);
  }
}
