/**
 gzip framing, one-shot and streaming (node/node/zlib.js).

 The streaming decompressor collects chunks until the header is complete and then holds back the last eight bytes
 it has seen. The laws: for every chunking it feeds the engine the same bytes and checks the same trailer as the
 one-shot code, unless a chunk boundary at or past 1024 bytes falls inside the header; and it gives the same result
 exactly when the compressed stream ends where the trailer begins, which only the one-shot code tests.
 */
module Gzip {
  import opened Sequences
  import opened Wrappers
  import opened Bytes
  import opened GzipHeader

  // ---- checksum, engine, trailer ----

  /** The CRC of some bytes, continuing from `c`; `update` is the step for one byte. */
  function Crc(update: (nat, byte) -> nat, c: nat, s: seq<byte>): nat
    decreases s
  {
    if s == [] then c else Crc(update, update(c, s[0]) % TWO_32, s[1..])
  }

  lemma {:induction false} CrcConcat(update: (nat, byte) -> nat, c: nat, a: seq<byte>, b: seq<byte>)
    ensures Crc(update, c, a + b) == Crc(update, Crc(update, c, a), b)
    decreases a
  {
    if a == [] {
      assert a + b == b;
    } else {
      assert (a + b)[1..] == a[1..] + b;
      CrcConcat(update, update(c, a[0]) % TWO_32, a[1..], b);
    }
  }

  lemma {:induction false} CrcIsWord(update: (nat, byte) -> nat, c: nat, s: seq<byte>)
    requires c < TWO_32
    ensures Crc(update, c, s) < TWO_32
    decreases s
  {
    if s != [] { CrcIsWord(update, update(c, s[0]) % TWO_32, s[1..]); }
  }

  /**
   A compression engine: all it has put out after being fed some bytes, without and with the finishing flush, and
   whether that flush reports the end of the compressed stream. Other errors in the data are not modelled.
   */
  datatype Engine = Engine(
    partial: seq<byte> -> seq<byte>, final: seq<byte> -> seq<byte>, done: seq<byte> -> bool)

  ghost predicate Streams(e: Engine) {
    && (forall a, b :: a <= b ==> e.partial(a) <= e.partial(b))
    && (forall a :: e.partial(a) <= e.final(a))
  }

  const GZIP_HEADER: seq<byte> := [0x1f, 0x8b, 8, 0, 0, 0, 0, 0, 0, 0xff]

  /** `makeGzipTrailer`. */
  function Trailer(crc: nat, size: nat): seq<byte> {
    U32(crc % TWO_32) + U32(size % TWO_32)
  }

  lemma TrailerReads(crc: nat, size: nat)
    ensures |Trailer(crc, size)| == 8
    ensures ReadU32(Trailer(crc, size)) == crc % TWO_32 && ReadU32(Trailer(crc, size)[4..]) == size % TWO_32
  {
    WordsRead(crc % TWO_32, size % TWO_32);
  }

  lemma WordsRead(a: nat, b: nat)
    requires a < TWO_32 && b < TWO_32
    ensures |U32(a) + U32(b)| == 8
    ensures ReadU32(U32(a) + U32(b)) == a && ReadU32((U32(a) + U32(b))[4..]) == b
  {
    ReadWord(a);
    ReadWord(b);
    var s, t := U32(a), U32(b);
    assert |s| == 4 && |t| == 4;
    hide U32;
    assert (s + t)[4..] == t;
  }

  // ---- one-shot ----

  /** A file around the engine's output for some data. */
  function GzipFile(e: Engine, update: (nat, byte) -> nat, data: seq<byte>): seq<byte> {
    GZIP_HEADER + e.final(data) + Trailer(Crc(update, 0, data), |data|)
  }

  /** The framing part of `compressSync`, which insists on the end of the stream. */
  function GzipSync(e: Engine, update: (nat, byte) -> nat, data: seq<byte>): Result<seq<byte>, Error> {
    if e.done(data) then Ok(GzipFile(e, update, data)) else Err(Incomplete)
  }

  function Checked(update: (nat, byte) -> nat, out: seq<byte>, trailer: seq<byte>): Result<seq<byte>, Error>
    requires |trailer| == 8
  {
    if Crc(update, 0, out) != ReadU32(trailer) then Err(CrcMismatch)
    else if |out| % TWO_32 != ReadU32(trailer[4..]) then Err(SizeMismatch)
    else Ok(out)
  }

  /** Header and trailer of a file: where its body lies, or what is wrong with the framing. */
  function BodyOf(data: seq<byte>): (r: Result<nat, Error>)
    ensures r.Ok? ==> r.value + 8 <= |data|
  {
    match HeaderLength(data)
    case Err(x) => Err(x)
    case Ok(h) => if |data| < h + 8 then Err(TruncatedTrailer) else Ok(h)
  }

  /** The framing part of `decompressSync`. */
  function GunzipSync(e: Engine, update: (nat, byte) -> nat, data: seq<byte>): Result<seq<byte>, Error> {
    match BodyOf(data)
    case Err(x) => Err(x)
    case Ok(h) =>
      var body := data[h..|data| - 8];
      if !e.done(body) then Err(Incomplete) else Checked(update, e.final(body), data[|data| - 8..])
  }

  /** What the stream makes of a file: the trailer is checked, the end of the compressed stream is not. */
  function GunzipChecked(e: Engine, update: (nat, byte) -> nat, data: seq<byte>): Result<seq<byte>, Error> {
    match BodyOf(data)
    case Err(x) => Err(x)
    case Ok(h) => Checked(update, e.final(data[h..|data| - 8]), data[|data| - 8..])
  }

  /** Whether the compressed stream of a file ends where its trailer begins; true of files without a body. */
  predicate Ends(e: Engine, data: seq<byte>) {
    match BodyOf(data)
    case Err(_) => true
    case Ok(h) => e.done(data[h..|data| - 8])
  }

  /**
   With and without the test for the end: the same result, error included, exactly when the compressed stream ends;
   both fail or both succeed exactly when it ends or the trailer does not fit anyway.
   */
  lemma DoneMatters(e: Engine, update: (nat, byte) -> nat, data: seq<byte>)
    ensures (GunzipSync(e, update, data) == GunzipChecked(e, update, data)) <==> Ends(e, data)
    ensures (GunzipSync(e, update, data).Ok? == GunzipChecked(e, update, data).Ok?)
      <==> Ends(e, data) || GunzipChecked(e, update, data).Err?
  {
    hide Crc, ReadU32, BodyOf;
  }

  /** Decompressing what was compressed gives it back, at any length. */
  lemma OneShotRoundTrip(deflate: Engine, inflate: Engine, update: (nat, byte) -> nat, data: seq<byte>)
    requires inflate.final(deflate.final(data)) == data && inflate.done(deflate.final(data))
    ensures GunzipSync(inflate, update, GzipFile(deflate, update, data)) == Ok(data)
    ensures BodyOf(GzipFile(deflate, update, data)).Ok? && HeaderLength(GzipFile(deflate, update, data)) == Ok(10)
  {
    var body, trailer := deflate.final(data), Trailer(Crc(update, 0, data), |data|);
    var file := GzipFile(deflate, update, data);
    PlainHeader(body + trailer);
    ConcatAssociates(GZIP_HEADER, body, trailer);
    TrailerReads(Crc(update, 0, data), |data|);
    CrcIsWord(update, 0, data);
    hide HeaderLength, Trailer, Crc, ReadU32;
    assert file[10..|file| - 8] == body && file[|file| - 8..] == trailer;
  }

  lemma PlainHeader(rest: seq<byte>)
    ensures HeaderLength(GZIP_HEADER + rest) == Ok(10)
  {
  }

  // ---- the streaming framing ----

  const LIMIT: nat := 1024

  /** Header bytes collected so far, whether the header is parsed, and the bytes held back. */
  datatype Framing = Framing(headerBuf: seq<byte>, parsed: bool, window: seq<byte>)

  /** The decompressing half of `#preProcess`: the next state and the bytes released, None while the header is open. */
  function Pre(f: Framing, chunk: seq<byte>, isFinal: bool): (Framing, Result<Option<seq<byte>>, Error>) {
    if f.parsed then Hold(f, chunk, isFinal)
    else
      var merged := f.headerBuf + chunk;
      match HeaderLength(merged)
      case Err(x) =>
        if !isFinal && |merged| < LIMIT then (f.(headerBuf := merged), Ok(None)) else (f, Err(x))
      case Ok(h) => Hold(Framing([], true, f.window), merged[h..], isFinal)
  }

  function Hold(f: Framing, chunk: seq<byte>, isFinal: bool): (Framing, Result<Option<seq<byte>>, Error>) {
    var combined := f.window + chunk;
    var n := |combined|;
    if isFinal then
      if n < 8 then (f, Err(TruncatedTrailer))
      else (f.(window := combined[n - 8..]), Ok(Some(combined[..n - 8])))
    else if n <= 8 then (f.(window := combined), Ok(Some([])))
    else (f.(window := combined[n - 8..]), Ok(Some(combined[..n - 8])))
  }

  lemma HoldIs(f: Framing, chunk: seq<byte>, isFinal: bool)
    ensures var c := f.window + chunk; var n := |c|;
      && (isFinal && n < 8 ==> Hold(f, chunk, isFinal) == (f, Err(TruncatedTrailer)))
      && (!isFinal && n <= 8 ==> Hold(f, chunk, isFinal) == (f.(window := c), Ok(Some([]))))
      && (n >= 8 && (isFinal || n > 8) ==>
          Hold(f, chunk, isFinal) == (f.(window := c[n - 8..]), Ok(Some(c[..n - 8]))))
  {
  }

  /** How much of a body is released when its last eight bytes are held back. */
  function Cut(body: seq<byte>): (k: nat)
    ensures k <= |body|
  {
    if |body| <= 8 then 0 else |body| - 8
  }

  /** The framing state after the input `x`, and the body bytes released, whatever the chunks were. */
  function FramingAfter(x: seq<byte>): Framing {
    match HeaderLength(x)
    case Err(_) => Framing(x, false, [])
    case Ok(h) => HeaderFits(x); Framing([], true, x[h..][Cut(x[h..])..])
  }

  function Released(x: seq<byte>): seq<byte> {
    match HeaderLength(x)
    case Err(_) => []
    case Ok(h) => HeaderFits(x); x[h..][..Cut(x[h..])]
  }

  /** A header still open at or past the limit. */
  predicate TooLate(x: seq<byte>) {
    |x| >= LIMIT && HeaderLength(x).Err?
  }

  lemma HoldOn(f: Framing, body: seq<byte>, chunk: seq<byte>)
    requires f.parsed && f.headerBuf == [] && f.window == body[Cut(body)..]
    ensures var (f', r) := Hold(f, chunk, false);
      && r.Ok? && r.value.Some?
      && f' == Framing([], true, (body + chunk)[Cut(body + chunk)..])
      && body[..Cut(body)] + r.value.value == (body + chunk)[..Cut(body + chunk)]
  {
    var whole, combined := body + chunk, f.window + chunk;
    assert whole == body[..Cut(body)] + combined;
    var n := |combined|;
    if n <= 8 {
      assert whole[Cut(whole)..] == combined;
      assert body[..Cut(body)] + [] == whole[..Cut(whole)];
    } else {
      assert whole[Cut(whole)..] == combined[n - 8..];
      assert body[..Cut(body)] + combined[..n - 8] == whole[..Cut(whole)];
    }
  }

  /** One chunk: the state stays a function of the input so far, and what is released extends what was released. */
  lemma ChunkKeeps(x: seq<byte>, chunk: seq<byte>)
    requires !TooLate(x)
    ensures var (f, r) := Pre(FramingAfter(x), chunk, false);
      if TooLate(x + chunk) then r.Err? && r.error == HeaderLength(x + chunk).error
      else
        && r.Ok?
        && f == FramingAfter(x + chunk)
        && Released(x) + (if r.value.Some? then r.value.value else []) == Released(x + chunk)
  {
    HeaderFits(x);
    HeaderFits(x + chunk);
    HeaderOfPrefix(x + chunk, |x|);
    assert (x + chunk)[..|x|] == x;
    hide HeaderLength;
    match HeaderLength(x)
    case Ok(h) =>
      assert (x + chunk)[h..] == x[h..] + chunk;
      HoldOn(FramingAfter(x), x[h..], chunk);
    case Err(_) =>
      if HeaderLength(x + chunk).Ok? {
        var body := (x + chunk)[HeaderLength(x + chunk).value..];
        assert [] + body == body;
        HoldOn(Framing([], true, []), [], body);
        assert [] + body[..Cut(body)] == body[..Cut(body)];
      }
  }

  /** The final call, with an empty chunk: it releases the rest of the body and leaves the trailer in the window. */
  lemma FinalReleases(x: seq<byte>)
    requires !TooLate(x)
    ensures var (f, r) := Pre(FramingAfter(x), [], true);
      match HeaderLength(x)
      case Err(e) => r == Err(e)
      case Ok(h) =>
        if |x| < h + 8 then r == Err(TruncatedTrailer)
        else
          && r.Ok? && r.value.Some?
          && Released(x) + r.value.value == x[h..|x| - 8]
          && f.window == x[|x| - 8..]
  {
    HeaderFits(x);
    hide HeaderLength;
    match HeaderLength(x)
    case Err(_) => assert x + [] == x;
    case Ok(h) =>
      var body := x[h..];
      var window := body[Cut(body)..];
      assert window + [] == window;
      if |body| >= 8 {
        assert window[|window| - 8..] == x[|x| - 8..];
        assert body[..Cut(body)] + window[..|window| - 8] == x[h..|x| - 8];
      }
  }

  // ---- the stream object ----

  datatype Kind = Kind(compress: bool, gzip: bool)

  const GZIP: Kind := Kind(true, true)
  const GUNZIP: Kind := Kind(false, true)

  /** All fields of a stream; `fed` and `produced` are what the engine has taken and given. */
  datatype Stream = Stream(
    framing: Framing,
    emitted: bool,
    crc: nat,
    size: nat,
    fed: seq<byte>,
    produced: seq<byte>,
    pushed: seq<byte>)

  const FRESH: Stream := Stream(Framing([], false, []), false, 0, 0, [], [], [])

  function Rest(total: seq<byte>, produced: seq<byte>): seq<byte> {
    if |produced| <= |total| then total[|produced|..] else []
  }

  function EngineOutput(e: Engine, st: Stream, body: seq<byte>, finish: bool): seq<byte> {
    Rest(if finish then e.final(st.fed + body) else e.partial(st.fed + body), st.produced)
  }

  /** A call of the engine followed by `#emitOutput`. */
  function Pumped(k: Kind, e: Engine, update: (nat, byte) -> nat, st: Stream, body: seq<byte>, finish: bool): Stream {
    var out := EngineOutput(e, st, body, finish);
    var st := st.(fed := st.fed + body, produced := st.produced + out);
    if out == [] then st
    else
      var st := st.(pushed := st.pushed + out);
      if k == GUNZIP then st.(crc := Crc(update, st.crc, out), size := (st.size + |out|) % TWO_32) else st
  }

  function WithHeader(st: Stream): Stream {
    if st.emitted then st else st.(pushed := st.pushed + GZIP_HEADER, emitted := true)
  }

  function Counted(update: (nat, byte) -> nat, st: Stream, body: seq<byte>): Stream {
    st.(crc := Crc(update, st.crc, body), size := (st.size + |body|) % TWO_32)
  }

  /** `_transform`. */
  function Transformed(k: Kind, e: Engine, update: (nat, byte) -> nat, st: Stream, chunk: seq<byte>)
    : (Stream, Option<Error>)
  {
    if k == GUNZIP then
      var (f, r) := Pre(st.framing, chunk, false);
      var st := st.(framing := f);
      match r
      case Err(x) => (st, Some(x))
      case Ok(None) => (st, None)
      case Ok(Some(body)) => (if body == [] then st else Pumped(k, e, update, st, body, false), None)
    else if k == GZIP then
      (Pumped(k, e, update, Counted(update, WithHeader(st), chunk), chunk, false), None)
    else
      (if chunk == [] then st else Pumped(k, e, update, st, chunk, false), None)
  }

  function TrailerVerdict(st: Stream): Option<Error> {
    var w := st.framing.window;
    if |w| < 8 then Some(TruncatedTrailer)
    else if st.crc != ReadU32(w) then Some(CrcMismatch)
    else if st.size != ReadU32(w[4..]) then Some(SizeMismatch)
    else None
  }

  /** `_flush`. */
  function Flushed(k: Kind, e: Engine, update: (nat, byte) -> nat, st: Stream): (Stream, Option<Error>) {
    if k == GUNZIP then
      var (f, r) := Pre(st.framing, [], true);
      var st := st.(framing := f);
      match r
      case Err(x) => (st, Some(x))
      case Ok(body) =>
        var st := Pumped(k, e, update, st, if body.Some? then body.value else [], true);
        (st, TrailerVerdict(st))
    else
      var st := Pumped(k, e, update, st, [], true);
      if k == GZIP then
        var st := WithHeader(st);
        (st.(pushed := st.pushed + Trailer(st.crc, st.size)), None)
      else (st, None)
  }

  class ZlibStream {
    const kind: Kind
    const engine: Engine
    const update: (nat, byte) -> nat
    var gzipHeaderBuf: seq<byte>
    var gzipHeaderParsed: bool
    var trailerBuf: seq<byte>
    var gzipHeaderEmitted: bool
    var gzipCrc: nat
    var gzipSize: nat
    var fed: seq<byte>
    var produced: seq<byte>
    var pushed: seq<byte>

    constructor (kind: Kind, engine: Engine, update: (nat, byte) -> nat)
      ensures View() == FRESH
      ensures this.kind == kind && this.engine == engine && this.update == update
    {
      this.kind, this.engine, this.update := kind, engine, update;
      gzipHeaderBuf, gzipHeaderParsed, trailerBuf, gzipHeaderEmitted := [], false, [], false;
      gzipCrc, gzipSize, fed, produced, pushed := 0, 0, [], [], [];
    }

    function View(): Stream
      reads this
    {
      Stream(Framing(gzipHeaderBuf, gzipHeaderParsed, trailerBuf), gzipHeaderEmitted, gzipCrc, gzipSize,
             fed, produced, pushed)
    }

    /** `#preProcess`. */
    method PreProcess(data: seq<byte>, isFinal: bool) returns (r: Result<Option<seq<byte>>, Error>)
      modifies this
      ensures kind != GUNZIP ==> View() == old(View()) && r == Ok(Some(data))
      ensures kind == GUNZIP ==>
        && r == Pre(old(View()).framing, data, isFinal).1
        && (r.Err? ==> fed == old(fed) && pushed == old(pushed))
        && (r.Ok? ==> View() == old(View()).(framing := Pre(old(View()).framing, data, isFinal).0))
    {
      hide HeaderLength, Hold;
      if kind != GUNZIP { return Ok(Some(data)); }
      var chunk := data;
      if !gzipHeaderParsed {
        var merged := if |chunk| != 0 then gzipHeaderBuf + chunk else gzipHeaderBuf;
        assert chunk == [] ==> gzipHeaderBuf + chunk == gzipHeaderBuf;
        var h := ParseGzipHeader(merged);
        if h.Err? {
          if !isFinal && |merged| < LIMIT {
            gzipHeaderBuf := merged;
            return Ok(None);
          }
          return Err(h.error);
        }
        HeaderFits(merged);
        gzipHeaderParsed := true;
        gzipHeaderBuf := [];
        chunk := merged[h.value..];
      }
      assert Pre(old(View()).framing, data, isFinal) == Hold(View().framing, chunk, isFinal);
      hide Pre;
      HoldIs(View().framing, chunk, isFinal);
      var combined := if |chunk| != 0 then trailerBuf + chunk else trailerBuf;
      assert chunk == [] ==> trailerBuf + chunk == trailerBuf;
      if isFinal {
        if |combined| < 8 { return Err(TruncatedTrailer); }
        var bodyEnd := |combined| - 8;
        trailerBuf := combined[bodyEnd..];
        return Ok(Some(combined[..bodyEnd]));
      }
      if |combined| <= 8 {
        trailerBuf := combined;
        return Ok(Some([]));
      }
      trailerBuf := combined[|combined| - 8..];
      return Ok(Some(combined[..|combined| - 8]));
    }

    /** `Z.processAsync` and `#emitOutput`. */
    method Pump(body: seq<byte>, finish: bool)
      modifies this
      ensures View() == Pumped(kind, engine, update, old(View()), body, finish)
    {
      var out := EngineOutput(engine, View(), body, finish);
      fed, produced := fed + body, produced + out;
      if |out| == 0 { return; }
      if !kind.compress && kind.gzip {
        gzipCrc := Crc(update, gzipCrc, out);
        gzipSize := (gzipSize + |out|) % TWO_32;
      }
      pushed := pushed + out;
    }

    method Transform(chunk: seq<byte>) returns (error: Option<Error>)
      modifies this
      ensures error == Transformed(kind, engine, update, old(View()), chunk).1
      ensures error.None? ==> View() == Transformed(kind, engine, update, old(View()), chunk).0
    {
      hide Pre, Crc;
      var r := PreProcess(chunk, false);
      if r.Err? { return Some(r.error); }
      if r.value.None? { return None; }
      var body := r.value.value;
      if |body| > 0 || (kind.compress && kind.gzip) {
        if kind.compress && kind.gzip {
          if !gzipHeaderEmitted {
            pushed := pushed + GZIP_HEADER;
            gzipHeaderEmitted := true;
          }
          gzipCrc := Crc(update, gzipCrc, body);
          gzipSize := (gzipSize + |body|) % TWO_32;
        }
        Pump(body, false);
      }
      return None;
    }

    method Flush() returns (error: Option<Error>)
      modifies this
      ensures error == Flushed(kind, engine, update, old(View())).1
      ensures error.None? ==> View() == Flushed(kind, engine, update, old(View())).0
    {
      hide Pre, Crc, Trailer, ReadU32;
      var tail := [];
      if !kind.compress && kind.gzip {
        var r := PreProcess([], true);
        if r.Err? { return Some(r.error); }
        if r.value.Some? && |r.value.value| > 0 { tail := r.value.value; }
      }
      hide Pumped;
      Pump(tail, true);
      if kind.compress && kind.gzip {
        if !gzipHeaderEmitted {
          pushed := pushed + GZIP_HEADER;
          gzipHeaderEmitted := true;
        }
        pushed := pushed + Trailer(gzipCrc, gzipSize);
      }
      if !kind.compress && kind.gzip {
        if |trailerBuf| < 8 { return Some(TruncatedTrailer); }
        if gzipCrc != ReadU32(trailerBuf) { return Some(CrcMismatch); }
        if gzipSize != ReadU32(trailerBuf[4..]) { return Some(SizeMismatch); }
      }
      return None;
    }
  }

  // ---- whole streams ----

  /** The chunks written one after another, up to the first error. */
  function Written(k: Kind, e: Engine, update: (nat, byte) -> nat, st: Stream, chunks: seq<seq<byte>>)
    : (Stream, Option<Error>)
    decreases |chunks|
  {
    if chunks == [] then (st, None)
    else
      var (next, error) := Transformed(k, e, update, st, chunks[0]);
      if error.Some? then (next, error) else Written(k, e, update, next, chunks[1..])
  }

  /** All that a stream pushes when it is given some chunks and ended. */
  function Streamed(k: Kind, e: Engine, update: (nat, byte) -> nat, chunks: seq<seq<byte>>): Result<seq<byte>, Error> {
    match Written(k, e, update, FRESH, chunks)
    case (_, Some(x)) => Err(x)
    case (st, None) =>
      match Flushed(k, e, update, st)
      case (_, Some(x)) => Err(x)
      case (end, None) => Ok(end.pushed)
  }

  /** The engine has been fed `x` and its output so far has been pushed behind `front`. */
  ghost predicate InStep(e: Engine, st: Stream, x: seq<byte>, front: seq<byte>) {
    && st.fed == x
    && st.produced <= e.partial(x)
    && st.pushed == front + st.produced
  }

  ghost predicate Accounts(update: (nat, byte) -> nat, st: Stream, s: seq<byte>) {
    st.crc == Crc(update, 0, s) && st.size == |s| % TWO_32
  }

  lemma AccountsMore(update: (nat, byte) -> nat, crc: nat, size: nat, s: seq<byte>, more: seq<byte>)
    requires crc == Crc(update, 0, s) && size == |s| % TWO_32
    ensures Crc(update, crc, more) == Crc(update, 0, s + more) && (size + |more|) % TWO_32 == |s + more| % TWO_32
  {
    hide Crc;
    CrcConcat(update, 0, s, more);
    WordSum(|s|, |more|);
    assert |s + more| == |s| + |more|;
  }

  lemma WordSum(a: nat, b: nat)
    ensures (a % TWO_32 + b) % TWO_32 == (a + b) % TWO_32
  {
    var q := a / TWO_32;
    assert a == TWO_32 * q + a % TWO_32;
  }

  lemma PumpKeeps(
    k: Kind, e: Engine, update: (nat, byte) -> nat, st: Stream, x: seq<byte>, front: seq<byte>,
    body: seq<byte>, finish: bool)
    requires Streams(e) && InStep(e, st, x, front)
    ensures var total := if finish then e.final(x + body) else e.partial(x + body);
      var st' := Pumped(k, e, update, st, body, finish);
      && st'.fed == x + body && st'.produced == total && st'.pushed == front + total
      && st'.framing == st.framing && st'.emitted == st.emitted
      && (k != GUNZIP ==> st'.crc == st.crc && st'.size == st.size)
      && (k == GUNZIP && Accounts(update, st, st.produced) ==> Accounts(update, st', total))
  {
    hide Streams, Crc;
    var total := if finish then e.final(x + body) else e.partial(x + body);
    OutputGrows(e, x, body, st.produced);
    var out := total[|st.produced|..];
    assert st.produced + out == total;
    ConcatAssociates(front, st.produced, out);
    if k == GUNZIP && Accounts(update, st, st.produced) {
      AccountsMore(update, st.crc, st.size, st.produced, out);
    }
    assert front + st.produced + [] == front + st.produced && st.produced + [] == st.produced;
  }

  lemma OutputGrows(e: Engine, x: seq<byte>, body: seq<byte>, produced: seq<byte>)
    requires Streams(e) && produced <= e.partial(x)
    ensures produced <= e.partial(x + body) && produced <= e.final(x + body)
  {
    assert x <= x + body;
    assert e.partial(x) <= e.partial(x + body) <= e.final(x + body);
  }

  // ---- decompressing ----

  ghost predicate GunzipAfter(e: Engine, update: (nat, byte) -> nat, st: Stream, x: seq<byte>) {
    && st.framing == FramingAfter(x)
    && InStep(e, st, Released(x), [])
    && Accounts(update, st, st.produced)
  }

  lemma GunzipChunk(e: Engine, update: (nat, byte) -> nat, st: Stream, x: seq<byte>, chunk: seq<byte>)
    requires Streams(e) && GunzipAfter(e, update, st, x) && !TooLate(x)
    ensures var (st', error) := Transformed(GUNZIP, e, update, st, chunk);
      if TooLate(x + chunk) then error == Some(HeaderLength(x + chunk).error)
      else error == None && GunzipAfter(e, update, st', x + chunk)
  {
    hide HeaderLength, FramingAfter, Released, Pumped, Pre, TooLate, Crc;
    ChunkKeeps(x, chunk);
    var (f, r) := Pre(st.framing, chunk, false);
    if !TooLate(x + chunk) {
      var body := if r.value.Some? then r.value.value else [];
      var mid := st.(framing := f);
      if body == [] {
        assert Released(x) + [] == Released(x);
      } else {
        PumpKeeps(GUNZIP, e, update, mid, Released(x), [], body, false);
        assert [] + e.partial(Released(x) + body) == e.partial(Released(x) + body);
      }
    }
  }

  /** Some chunk boundary at or past the limit comes before the end of the header. */
  ghost predicate Late(x: seq<byte>, chunks: seq<seq<byte>>) {
    exists k | 0 < k <= |chunks| :: TooLate(x + Flatten(chunks[..k]))
  }

  lemma LateStep(x: seq<byte>, chunks: seq<seq<byte>>)
    requires chunks != []
    ensures Late(x, chunks) <==> TooLate(x + chunks[0]) || Late(x + chunks[0], chunks[1..])
  {
    hide TooLate;
    forall k | 0 < k <= |chunks|
      ensures x + Flatten(chunks[..k]) == (x + chunks[0]) + Flatten(chunks[1..][..k - 1])
    {
      assert chunks[..k][1..] == chunks[1..][..k - 1];
      ConcatAssociates(x, chunks[0], Flatten(chunks[1..][..k - 1]));
    }
    var y := x + chunks[0];
    assert chunks[1..][..0] == [] && y + [] == y;
    if TooLate(y) {
      assert TooLate(x + Flatten(chunks[..1]));
    }
    if Late(y, chunks[1..]) {
      var k :| 0 < k <= |chunks[1..]| && TooLate(y + Flatten(chunks[1..][..k]));
      assert TooLate(x + Flatten(chunks[..k + 1]));
    }
    if Late(x, chunks) && !TooLate(y) {
      var k :| 0 < k <= |chunks| && TooLate(x + Flatten(chunks[..k]));
      assert TooLate(y + Flatten(chunks[1..][..k - 1]));
      assert k - 1 > 0;
    }
  }

  lemma {:induction false} GunzipChunks(
    e: Engine, update: (nat, byte) -> nat, st: Stream, x: seq<byte>, chunks: seq<seq<byte>>)
    requires Streams(e) && GunzipAfter(e, update, st, x) && !TooLate(x)
    ensures var (st', error) := Written(GUNZIP, e, update, st, chunks);
      if Late(x, chunks) then error.Some?
      else error == None && GunzipAfter(e, update, st', x + Flatten(chunks)) && !TooLate(x + Flatten(chunks))
    decreases |chunks|
  {
    hide GunzipAfter, TooLate, Transformed;
    if chunks == [] {
      assert x + [] == x;
    } else {
      LateStep(x, chunks);
      GunzipChunk(e, update, st, x, chunks[0]);
      hide Late;
      if !TooLate(x + chunks[0]) {
        var (next, _) := Transformed(GUNZIP, e, update, st, chunks[0]);
        GunzipChunks(e, update, next, x + chunks[0], chunks[1..]);
        ConcatAssociates(x, chunks[0], Flatten(chunks[1..]));
      }
    }
  }

  lemma GunzipEnd(e: Engine, update: (nat, byte) -> nat, st: Stream, x: seq<byte>)
    requires Streams(e) && GunzipAfter(e, update, st, x) && !TooLate(x)
    ensures var (end, error) := Flushed(GUNZIP, e, update, st);
      match GunzipChecked(e, update, x)
      case Err(problem) => error == Some(problem)
      case Ok(out) => error == None && end.pushed == out
    ensures var h := HeaderLength(x);
      h.Ok? && |x| >= h.value + 8 ==>
        var (end, _) := Flushed(GUNZIP, e, update, st);
        end.fed == x[h.value..|x| - 8] && end.framing.window == x[|x| - 8..]
  {
    hide HeaderLength, FramingAfter, Pumped, Pre, TooLate, Crc, ReadU32;
    FinalReleases(x);
    hide Released;
    var (f, r) := Pre(st.framing, [], true);
    if HeaderLength(x).Ok? && |x| >= HeaderLength(x).value + 8 {
      PumpKeeps(GUNZIP, e, update, st.(framing := f), Released(x), [], r.value.value, true);
      var total := e.final(x[HeaderLength(x).value..|x| - 8]);
      assert [] + total == total;
    }
  }

  lemma GunzipStart(e: Engine, update: (nat, byte) -> nat)
    ensures GunzipAfter(e, update, FRESH, []) && !TooLate([])
  {
  }

  /**
   For every chunking without a late boundary the stream checks the framing and the trailer as the one-shot code does;
   a late boundary, at or past 1024 bytes and before the end of the header, is an error.
   */
  lemma StreamGunzips(e: Engine, update: (nat, byte) -> nat, chunks: seq<seq<byte>>)
    requires Streams(e)
    ensures if Late([], chunks) then Streamed(GUNZIP, e, update, chunks).Err?
      else Streamed(GUNZIP, e, update, chunks) == GunzipChecked(e, update, Flatten(chunks))
  {
    GunzipStart(e, update);
    GunzipChunks(e, update, FRESH, [], chunks);
    var x := Flatten(chunks);
    assert [] + x == x;
    hide Late, TooLate, GunzipAfter, Written, Flushed, GunzipChecked;
    var (st, error) := Written(GUNZIP, e, update, FRESH, chunks);
    if !Late([], chunks) { GunzipEnd(e, update, st, x); }
  }

  /** So, no boundary being late, it gives the one-shot result, error included, exactly when the compressed stream ends. */
  lemma StreamAgreesExactly(e: Engine, update: (nat, byte) -> nat, chunks: seq<seq<byte>>)
    requires Streams(e) && !Late([], chunks)
    ensures (Streamed(GUNZIP, e, update, chunks) == GunzipSync(e, update, Flatten(chunks))) <==> Ends(e, Flatten(chunks))
    ensures (Streamed(GUNZIP, e, update, chunks).Ok? == GunzipSync(e, update, Flatten(chunks)).Ok?)
      <==> Ends(e, Flatten(chunks)) || Streamed(GUNZIP, e, update, chunks).Err?
  {
    hide Streams, Late, Streamed, GunzipSync, GunzipChecked, Ends, Flatten;
    StreamGunzips(e, update, chunks);
    DoneMatters(e, update, Flatten(chunks));
  }

  /** The plain header and eight zero bytes. */
  const HOLLOW: seq<byte> := GZIP_HEADER + Zeros(8)

  /** A file without any compressed data: the stream takes it for an empty one, the one-shot code refuses it. */
  lemma HollowFile(e: Engine, update: (nat, byte) -> nat, chunks: seq<seq<byte>>)
    requires Streams(e) && e.final([]) == [] && !e.done([])
    requires Flatten(chunks) == HOLLOW
    ensures Streamed(GUNZIP, e, update, chunks) == Ok([])
    ensures GunzipSync(e, update, HOLLOW) == Err(Incomplete)
  {
    PlainHeader(Zeros(8));
    hide HeaderLength, Flatten, Streamed, GunzipSync, GunzipChecked;
    EmptyFile(e, update, GZIP_HEADER);
    LateMeans(chunks);
    StreamGunzips(e, update, chunks);
  }

  lemma TwoChunks(a: seq<byte>, b: seq<byte>)
    ensures Flatten([a, b]) == a + b && Flatten([a, b][..1]) == a
  {
    FlattenCons(a, [b]);
    FlattenCons(b, []);
    FlattenCons(a, []);
    assert [a, b] == [a] + [b] && [b] == [b] + [] && [a] == [a] + [] && [a, b][..1] == [a];
    assert b + [] == b && a + [] == a;
  }

  /** The header that names its file, and nothing else. */
  function NamedHeader(name: seq<byte>): seq<byte> {
    Encode(Header(8, Zeros(6), [], name, [], Zeros(2)))
  }

  lemma NamedHeaderReads(name: seq<byte>, rest: seq<byte>)
    requires forall i | 0 <= i < |name| :: name[i] != 0
    ensures |NamedHeader(name)| == |name| + 11 && HeaderLength(NamedHeader(name) + rest) == Ok(|name| + 11)
  {
    var h := Header(8, Zeros(6), [], name, [], Zeros(2));
    assert WellFormed(h);
    NamedHeaderLength(h, name);
    hide HeaderLength, Encode;
    ReadsEveryHeader(h, rest);
  }

  lemma NamedHeaderLength(h: Header, name: seq<byte>)
    requires h == Header(8, Zeros(6), [], name, [], Zeros(2))
    ensures |Encode(h)| == |name| + 11
  {
    var front := |FixedPart(h)|;
    assert front == 10;
    assert ExtraField(h) == [] && NameField(h) == name + [0] && CommentField(h) == [] && HcrcField(h) == [];
  }

  /** A file that is all header and zero trailer is an empty one, if an empty body is. */
  lemma EmptyFile(e: Engine, update: (nat, byte) -> nat, header: seq<byte>)
    requires e.final([]) == [] && HeaderLength(header + Zeros(8)) == Ok(|header|)
    ensures GunzipChecked(e, update, header + Zeros(8)) == Ok([])
    ensures GunzipSync(e, update, header + Zeros(8)) == if e.done([]) then Ok([]) else Err(Incomplete)
  {
    hide HeaderLength;
    var file := header + Zeros(8);
    assert file[|header|..|file| - 8] == [] && file[|file| - 8..] == Zeros(8);
  }

  lemma CutIsLate(file: seq<byte>, h: nat)
    requires HeaderLength(file) == Ok(h) && 1024 < h <= |file|
    ensures Flatten([file[..1024], file[1024..]]) == file && Late([], [file[..1024], file[1024..]])
  {
    hide HeaderLength, Flatten, Late;
    var chunks := [file[..1024], file[1024..]];
    TwoChunks(file[..1024], file[1024..]);
    assert file[..1024] + file[1024..] == file;
    assert 1024 <= |Flatten(chunks[..1])| < h;
    LateMeans(chunks);
  }

  /** A header of more than 1024 bytes cut at 1024: the one-shot code reads the file, the stream refuses it. */
  lemma LateRefused(e: Engine, update: (nat, byte) -> nat, name: seq<byte>)
    requires Streams(e) && e.final([]) == [] && e.done([])
    requires |name| >= 1024 && forall i | 0 <= i < |name| :: name[i] != 0
    ensures var file := NamedHeader(name) + Zeros(8);
      && GunzipSync(e, update, file) == Ok([])
      && |file| > 1024 && Streamed(GUNZIP, e, update, [file[..1024], file[1024..]]).Err?
  {
    hide HeaderLength, NamedHeader, GunzipSync, GunzipChecked, Streamed, Late, Flatten, Streams;
    NamedHeaderReads(name, Zeros(8));
    EmptyFile(e, update, NamedHeader(name));
    var file := NamedHeader(name) + Zeros(8);
    CutIsLate(file, |name| + 11);
    StreamGunzips(e, update, [file[..1024], file[1024..]]);
  }

  /** When the header has length `h`, a boundary is late exactly when it lies in `[1024, h)`; never when `h <= 1024`. */
  lemma LateMeans(chunks: seq<seq<byte>>)
    requires HeaderLength(Flatten(chunks)).Ok?
    ensures var h := HeaderLength(Flatten(chunks)).value;
      Late([], chunks) <==> exists k | 0 < k <= |chunks| :: 1024 <= |Flatten(chunks[..k])| < h
  {
    var x, h := Flatten(chunks), HeaderLength(Flatten(chunks)).value;
    hide HeaderLength, Flatten;
    forall k | 0 < k <= |chunks|
      ensures TooLate([] + Flatten(chunks[..k])) <==> LIMIT <= |Flatten(chunks[..k])| < h
    {
      var b := |Flatten(chunks[..k])|;
      assert chunks == chunks[..k] + chunks[k..];
      FlattenConcat(chunks[..k], chunks[k..]);
      assert x[..b] == Flatten(chunks[..k]) == [] + Flatten(chunks[..k]);
      HeaderOfPrefix(x, b);
    }
  }

  /**
   What the engine is fed and what is held back, under every chunking that is not late: the body `input[h..n-8]` and
   the last eight bytes.
   */
  lemma BodyAndTrailer(e: Engine, update: (nat, byte) -> nat, chunks: seq<seq<byte>>)
    returns (st: Stream, end: Stream)
    requires Streams(e) && HeaderLength(Flatten(chunks)).Ok? && !Late([], chunks)
    requires |Flatten(chunks)| >= HeaderLength(Flatten(chunks)).value + 8
    ensures Written(GUNZIP, e, update, FRESH, chunks) == (st, None)
    ensures st.fed + st.framing.window == Flatten(chunks)[HeaderLength(Flatten(chunks)).value..]
    ensures Flushed(GUNZIP, e, update, st).0 == end
    ensures end.fed == Flatten(chunks)[HeaderLength(Flatten(chunks)).value..|Flatten(chunks)| - 8]
    ensures end.framing.window == Flatten(chunks)[|Flatten(chunks)| - 8..]
  {
    hide Streams, Late, TooLate, Written, Flushed, HeaderLength, GunzipAfter, GunzipChecked, Flatten;
    var x := Flatten(chunks);
    GunzipStart(e, update);
    GunzipChunks(e, update, FRESH, [], chunks);
    assert [] + x == x;
    st := Written(GUNZIP, e, update, FRESH, chunks).0;
    end := Flushed(GUNZIP, e, update, st).0;
    GunzipEnd(e, update, st, x);
    NothingLost(e, update, st, x);
  }

  lemma NothingLost(e: Engine, update: (nat, byte) -> nat, st: Stream, x: seq<byte>)
    requires GunzipAfter(e, update, st, x) && HeaderLength(x).Ok?
    ensures HeaderLength(x).value <= |x| && st.fed + st.framing.window == x[HeaderLength(x).value..]
  {
    HeaderFits(x);
    hide HeaderLength, Crc;
    var body := x[HeaderLength(x).value..];
    assert body[..Cut(body)] + body[Cut(body)..] == body;
  }

  // ---- compressing ----

  ghost predicate GzipAfter(e: Engine, update: (nat, byte) -> nat, st: Stream, x: seq<byte>, any: bool) {
    && st.emitted == any
    && InStep(e, st, x, if any then GZIP_HEADER else [])
    && Accounts(update, st, x)
  }

  lemma GzipChunk(e: Engine, update: (nat, byte) -> nat, st: Stream, x: seq<byte>, any: bool, chunk: seq<byte>)
    requires Streams(e) && GzipAfter(e, update, st, x, any) && (!any ==> st.produced == [])
    ensures var (st', error) := Transformed(GZIP, e, update, st, chunk);
      error == None && GzipAfter(e, update, st', x + chunk, true)
  {
    hide Pumped, Crc;
    var mid := Counted(update, WithHeader(st), chunk);
    AccountsMore(update, st.crc, st.size, x, chunk);
    if !any { assert [] + [] + GZIP_HEADER == GZIP_HEADER + []; }
    PumpKeeps(GZIP, e, update, mid, x, GZIP_HEADER, chunk, false);
  }

  lemma {:induction false} GzipChunks(
    e: Engine, update: (nat, byte) -> nat, st: Stream, x: seq<byte>, any: bool, chunks: seq<seq<byte>>)
    requires Streams(e) && GzipAfter(e, update, st, x, any) && (!any ==> st.produced == [])
    ensures var (st', error) := Written(GZIP, e, update, st, chunks);
      && error == None
      && GzipAfter(e, update, st', x + Flatten(chunks), any || chunks != [])
      && (!any && chunks == [] ==> st'.produced == [])
    decreases |chunks|
  {
    hide Transformed, GzipAfter;
    if chunks == [] {
      assert x + [] == x;
    } else {
      GzipChunk(e, update, st, x, any, chunks[0]);
      var (next, _) := Transformed(GZIP, e, update, st, chunks[0]);
      GzipChunks(e, update, next, x + chunks[0], true, chunks[1..]);
      ConcatAssociates(x, chunks[0], Flatten(chunks[1..]));
    }
  }

  lemma WordTwice(n: nat)
    ensures n % TWO_32 % TWO_32 == n % TWO_32
  {
  }

  lemma GzipEnd(e: Engine, update: (nat, byte) -> nat, st: Stream, x: seq<byte>, any: bool)
    requires Streams(e) && GzipAfter(e, update, st, x, any)
    ensures var (end, error) := Flushed(GZIP, e, update, st);
      && error == None
      && end.pushed ==
        (if any then GZIP_HEADER + e.final(x) else e.final(x) + GZIP_HEADER) + Trailer(Crc(update, 0, x), |x|)
  {
    hide Pumped, Crc, U32;
    PumpKeeps(GZIP, e, update, st, x, if any then GZIP_HEADER else [], [], true);
    assert x + [] == x && [] + e.final(x) == e.final(x);
    WordTwice(|x|);
  }

  /**
   A gzip stream that was given at least one chunk, empty ones included, pushes the file around its engine's output;
   one that was given none puts its header behind the compressed data.
   */
  lemma StreamGzips(e: Engine, update: (nat, byte) -> nat, chunks: seq<seq<byte>>)
    requires Streams(e)
    ensures Streamed(GZIP, e, update, chunks) == Ok(
      if chunks != [] then GzipFile(e, update, Flatten(chunks))
      else e.final([]) + GZIP_HEADER + Trailer(Crc(update, 0, []), 0))
    ensures chunks != [] ==>
      ((Streamed(GZIP, e, update, chunks) == GzipSync(e, update, Flatten(chunks))) <==> e.done(Flatten(chunks)))
  {
    assert GzipAfter(e, update, FRESH, [], false);
    GzipChunks(e, update, FRESH, [], false, chunks);
    var x := Flatten(chunks);
    assert [] + x == x;
    hide GzipAfter, Flushed, Written, Crc, Flatten;
    var (st, _) := Written(GZIP, e, update, FRESH, chunks);
    GzipEnd(e, update, st, x, chunks != []);
  }

  /** With the two bytes deflate makes of nothing, a gzip stream ended at once is not a gzip file. */
  lemma EmptyStreamIsNotGzip(e: Engine, update: (nat, byte) -> nat)
    requires Streams(e) && e.final([]) == [3, 0]
    ensures Streamed(GZIP, e, update, []).Ok?
    ensures HeaderLength(Streamed(GZIP, e, update, []).value) == Err(BadMagic)
  {
    StreamGzips(e, update, []);
    hide Streamed, Trailer, Crc;
    var trailer := Trailer(Crc(update, 0, []), 0);
    var pushed := [3, 0] + GZIP_HEADER + trailer;
    assert pushed[0] == 3 && |pushed| >= 10;
  }

  /** Compressing in any chunks and decompressing in any other chunks gives the data back. */
  lemma StreamRoundTrip(
    deflate: Engine, inflate: Engine, update: (nat, byte) -> nat, data: seq<seq<byte>>, file: seq<seq<byte>>)
    requires Streams(deflate) && Streams(inflate) && data != []
    requires inflate.final(deflate.final(Flatten(data))) == Flatten(data)
    requires inflate.done(deflate.final(Flatten(data)))
    requires Streamed(GZIP, deflate, update, data) == Ok(Flatten(file))
    ensures Streamed(GUNZIP, inflate, update, file) == Ok(Flatten(data))
  {
    hide Streamed, GunzipSync, GunzipChecked, GzipFile, HeaderLength, Crc, Trailer, Flatten;
    var input := Flatten(data);
    StreamGzips(deflate, update, data);
    OneShotRoundTrip(deflate, inflate, update, input);
    DoneMatters(inflate, update, Flatten(file));
    DoneFacts(inflate, update, Flatten(file));
    LateMeans(file);
    StreamGunzips(inflate, update, file);
  }

  lemma DoneFacts(e: Engine, update: (nat, byte) -> nat, data: seq<byte>)
    requires GunzipSync(e, update, data).Ok?
    ensures Ends(e, data)
  {
    hide Crc, ReadU32, HeaderLength;
  }

  // ---- streams without gzip framing ----

  lemma {:induction false} PlainChunks(
    k: Kind, e: Engine, update: (nat, byte) -> nat, st: Stream, x: seq<byte>, chunks: seq<seq<byte>>)
    requires Streams(e) && !k.gzip && InStep(e, st, x, [])
    ensures var (st', error) := Written(k, e, update, st, chunks);
      error == None && InStep(e, st', x + Flatten(chunks), [])
    decreases |chunks|
  {
    hide Pumped;
    if chunks == [] {
      assert x + [] == x;
    } else {
      if chunks[0] == [] {
        assert x + [] == x;
      } else {
        PumpKeeps(k, e, update, st, x, [], chunks[0], false);
      }
      var (next, _) := Transformed(k, e, update, st, chunks[0]);
      PlainChunks(k, e, update, next, x + chunks[0], chunks[1..]);
      ConcatAssociates(x, chunks[0], Flatten(chunks[1..]));
    }
  }

  /** Raw and zlib streams push what the engine makes of the whole input, for every chunking. */
  lemma StreamPlain(k: Kind, e: Engine, update: (nat, byte) -> nat, chunks: seq<seq<byte>>)
    requires Streams(e) && !k.gzip
    ensures Streamed(k, e, update, chunks) == Ok(e.final(Flatten(chunks)))
  {
    PlainChunks(k, e, update, FRESH, [], chunks);
    var x := Flatten(chunks);
    hide Pumped, Written;
    var (st, _) := Written(k, e, update, FRESH, chunks);
    PumpKeeps(k, e, update, st, x, [], [], true);
    assert [] + x == x && x + [] == x && [] + e.final(x) == e.final(x);
  }
}
