/**
 gzip files byte by byte (node/node/zlib.js; sections 2.2 and 2.3 of RFC 1952): the fields the flags announce, the
 trailer that is written, and the trailers that are refused, by the one-shot code and by the stream.
 */
module GzipLaws {
  import opened Sequences
  import opened Wrappers
  import opened Bytes
  import opened GzipHeader
  import opened Gzip

  function Bit(b: bool): nat {
    if b then 1 else 0
  }

  lemma FlagBits(text: bool, hcrc: bool, extra: bool, name: bool, comment: bool, high: nat)
    requires high < 8
    ensures var flg: byte := Bit(text) + 2 * Bit(hcrc) + 4 * Bit(extra) + 8 * Bit(name) + 16 * Bit(comment) + 32 * high;
      && Flag(flg, FHCRC) == hcrc && Flag(flg, FEXTRA) == extra
      && Flag(flg, FNAME) == name && Flag(flg, FCOMMENT) == comment
  {
    var flg := Bit(text) + 2 * Bit(hcrc) + 4 * Bit(extra) + 8 * Bit(name) + 16 * Bit(comment) + 32 * high;
    assert flg / 2 == Bit(hcrc) + 2 * (Bit(extra) + 2 * Bit(name) + 4 * Bit(comment) + 8 * high);
    assert flg / 4 == Bit(extra) + 2 * (Bit(name) + 2 * Bit(comment) + 4 * high);
    assert flg / 8 == Bit(name) + 2 * (Bit(comment) + 2 * high);
    assert flg / 16 == Bit(comment) + 2 * high;
  }

  /** A header byte by byte, its length field least significant byte first. */
  function Announced(h: Header, hcrc: bool, extra: bool, name: bool, comment: bool): seq<byte>
    requires WellFormed(h)
  {
    [0x1f, 0x8b, 8, h.flg] + h.mid
    + (if extra then [|h.extra| % 256, |h.extra| / 256] + h.extra else [])
    + (if name then h.name + [0] else [])
    + (if comment then h.comment + [0] else [])
    + (if hcrc then h.hcrc else [])
  }

  /**
   The bytes of a header: the fields that bits 2, 3, 4 and 1 of the fourth byte announce, in this order. Such a header
   is read in whole, whatever follows it.
   */
  lemma HeaderBytes(
    text: bool, hcrc: bool, extra: bool, name: bool, comment: bool, high: nat, h: Header, rest: seq<byte>)
    requires WellFormed(h) && high < 8
    requires h.flg == Bit(text) + 2 * Bit(hcrc) + 4 * Bit(extra) + 8 * Bit(name) + 16 * Bit(comment) + 32 * high
    ensures var bytes := Announced(h, hcrc, extra, name, comment); HeaderLength(bytes + rest) == Ok(|bytes|)
  {
    hide Flag, HeaderLength, U16, Announced;
    FlagBits(text, hcrc, extra, name, comment, high);
    AnnouncedIs(h, hcrc, extra, name, comment);
    ReadsEveryHeader(h, rest);
  }

  lemma AnnouncedIs(h: Header, hcrc: bool, extra: bool, name: bool, comment: bool)
    requires WellFormed(h)
    requires Flag(h.flg, FHCRC) == hcrc && Flag(h.flg, FEXTRA) == extra
    requires Flag(h.flg, FNAME) == name && Flag(h.flg, FCOMMENT) == comment
    ensures Announced(h, hcrc, extra, name, comment) == Encode(h)
  {
    hide Flag;
    assert |h.extra| / 256 % 256 == |h.extra| / 256;
  }

  /** Files that do not begin like this are refused for it. */
  lemma NotGzip(buf: seq<byte>)
    ensures |buf| < 10 ==> HeaderLength(buf) == Err(TruncatedHeader)
    ensures |buf| >= 10 && buf[..2] != [0x1f, 0x8b] ==> HeaderLength(buf) == Err(BadMagic)
    ensures |buf| >= 10 && buf[..2] == [0x1f, 0x8b] && buf[2] != 8 ==> HeaderLength(buf) == Err(BadMethod)
  {
    hide Fields;
    if |buf| >= 10 { assert buf[..2] == [buf[0], buf[1]]; }
  }

  /** The CRC starts from zero and takes the bytes from first to last, each into a word of 32 bits. */
  lemma CrcStep(update: (nat, byte) -> nat, c: nat, s: seq<byte>, b: byte)
    ensures Crc(update, c, []) == c
    ensures Crc(update, c, s + [b]) == update(Crc(update, c, s), b) % 0x1_0000_0000
  {
    CrcConcat(update, c, s, [b]);
    assert [b][1..] == [];
  }

  /** A file is the plain header, what the engine makes of the data, the CRC of the data and its length modulo 2^32. */
  lemma FileBytes(e: Engine, update: (nat, byte) -> nat, data: seq<byte>)
    ensures GzipFile(e, update, data) ==
      [0x1f, 0x8b, 8, 0, 0, 0, 0, 0, 0, 0xff] + e.final(data)
      + (U32(Crc(update, 0, data)) + U32(|data| % 0x1_0000_0000))
  {
    hide Crc, U32;
    CrcIsWord(update, 0, data);
    hide *;
    FileParts(e, update, data);
  }

  lemma FileParts(e: Engine, update: (nat, byte) -> nat, data: seq<byte>)
    requires Crc(update, 0, data) < TWO_32
    ensures GzipFile(e, update, data) ==
      [0x1f, 0x8b, 8, 0, 0, 0, 0, 0, 0, 0xff] + e.final(data)
      + (U32(Crc(update, 0, data)) + U32(|data| % 0x1_0000_0000))
  {
    hide Crc, U32;
    var crc := Crc(update, 0, data);
    assert crc % TWO_32 == crc;
  }

  /** The verdict on an unpacked body: its CRC is compared with the first four bytes behind it, its length with the last. */
  function Verdict(crc: nat, out: seq<byte>, c: nat, n: nat): Result<seq<byte>, Error> {
    if crc != c then Err(CrcMismatch) else if |out| % 0x1_0000_0000 != n then Err(SizeMismatch) else Ok(out)
  }

  lemma FileIsSplit(file: seq<byte>, header: seq<byte>, body: seq<byte>, trailer: seq<byte>)
    requires file == header + body + trailer && |trailer| == 8 && HeaderLength(file) == Ok(|header|)
    ensures BodyOf(file) == Ok(|header|)
    ensures file[|header|..|file| - 8] == body && file[|file| - 8..] == trailer
  {
    hide HeaderLength;
  }

  /** Four bytes as a number, least significant first. */
  function Word(a: nat, b: nat, c: nat, d: nat): nat {
    a + 0x100 * b + 0x1_0000 * c + 0x100_0000 * d
  }

  lemma TrailerWords(t: seq<byte>)
    requires |t| == 8
    ensures ReadU32(t) == Word(t[0], t[1], t[2], t[3]) && ReadU32(t[4..]) == Word(t[4], t[5], t[6], t[7])
  {
  }

  /**
   A file whose trailer has another CRC than its contents is refused for that, and otherwise one that has another length;
   the stream refuses the same files under every chunking that is not late.
   */
  lemma TrailerDecides(
    e: Engine, update: (nat, byte) -> nat, header: seq<byte>, body: seq<byte>, trailer: seq<byte>,
    chunks: seq<seq<byte>>)
    requires |trailer| == 8 && HeaderLength(header + body + trailer) == Ok(|header|)
    ensures var t, out := trailer, e.final(body);
      var verdict := Verdict(Crc(update, 0, out), out, Word(t[0], t[1], t[2], t[3]), Word(t[4], t[5], t[6], t[7]));
      var file := header + body + trailer;
      && GunzipSync(e, update, file) == (if e.done(body) then verdict else Err(Incomplete))
      && (Streams(e) && Flatten(chunks) == file && !Late([], chunks) ==>
          Streamed(GUNZIP, e, update, chunks) == verdict)
  {
    hide HeaderLength, BodyOf, Streams, Late, Streamed, Flatten, Crc, ReadU32, Word;
    var file := header + body + trailer;
    TrailerWords(trailer);
    FileIsSplit(file, header, body, trailer);
    if Streams(e) && Flatten(chunks) == file && !Late([], chunks) { StreamGunzips(e, update, chunks); }
  }

  /** With fewer than eight bytes behind the header there is no trailer to compare. */
  lemma NoTrailer(e: Engine, update: (nat, byte) -> nat, file: seq<byte>, chunks: seq<seq<byte>>)
    requires HeaderLength(file).Ok? && |file| < HeaderLength(file).value + 8
    ensures GunzipSync(e, update, file) == Err(TruncatedTrailer)
    ensures Streams(e) && Flatten(chunks) == file && !Late([], chunks) ==>
      Streamed(GUNZIP, e, update, chunks) == Err(TruncatedTrailer)
  {
    hide HeaderLength, Streams, Late, Streamed, Flatten;
    if Streams(e) && Flatten(chunks) == file && !Late([], chunks) { StreamGunzips(e, update, chunks); }
  }
}
