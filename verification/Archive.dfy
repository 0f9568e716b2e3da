/**
 The archive of support files behind a host binary: its writer (qnc/pack.c) and its reader (qnc/wrapper.c), which
 finds everything from the last 24 bytes. The law: the reader gives back what the writer was given, for any host.
 */
module Archive {
  import opened Sequences
  import opened Wrappers
  import opened Bytes

  /** A file to pack: the name it will have, its modification time in seconds and its bytes. */
  datatype Entry = Entry(name: seq<byte>, mtime: nat, content: seq<byte>)

  /** A file written by the reader; a stored time of zero is not restored. */
  datatype File = File(name: seq<byte>, mtime: Option<nat>, content: seq<byte>)

  /** "QNCPK2", its explicit zero and the zero that ends the C string. */
  const MAGIC: seq<byte> := [81, 78, 67, 80, 75, 50, 0, 0]
  const FOOTER: nat := 24
  const NAME_MAX: nat := 1024
  const CHUNK: nat := 65536

  // ---- the format ----

  /** `name_len` has 16 bits, the size 32. */
  function DirEntry(e: Entry): seq<byte> {
    var n := |e.name| % TWO_16;
    U16(n) + e.name[..n] + U64(e.mtime) + U32(|e.content|)
  }

  function Directory(es: seq<Entry>): seq<byte> {
    if es == [] then [] else DirEntry(es[0]) + Directory(es[1..])
  }

  function Data(es: seq<Entry>): seq<byte> {
    if es == [] then [] else es[0].content + Data(es[1..])
  }

  function Footer(dataStart: nat, count: nat, dirSize: nat): seq<byte> {
    U64(dataStart) + U32(count) + U32(dirSize) + MAGIC
  }

  function Packed(host: seq<byte>, es: seq<Entry>): seq<byte> {
    host + Data(es) + Directory(es) + Footer(|host|, |es|, |Directory(es)|)
  }

  lemma {:induction false} DirectorySnoc(es: seq<Entry>, e: Entry)
    ensures Directory(es + [e]) == Directory(es) + DirEntry(e)
  {
    hide DirEntry;
    if es == [] {
      assert Directory([e]) == DirEntry(e) + [];
    } else {
      assert (es + [e])[1..] == es[1..] + [e];
      DirectorySnoc(es[1..], e);
      ConcatAssociates(DirEntry(es[0]), Directory(es[1..]), DirEntry(e));
    }
  }

  lemma {:induction false} DataSnoc(es: seq<Entry>, e: Entry)
    ensures Data(es + [e]) == Data(es) + e.content
  {
    if es == [] {
      assert Data([e]) == e.content + [];
    } else {
      assert (es + [e])[1..] == es[1..] + [e];
      DataSnoc(es[1..], e);
      ConcatAssociates(es[0].content, Data(es[1..]), e.content);
    }
  }

  /** The writing part of `main` in qnc/pack.c: the data, the directory and the footer are appended to the host. */
  method Pack(host: seq<byte>, es: seq<Entry>) returns (file: seq<byte>)
    ensures file == Packed(host, es)
  {
    hide U64, U32, U16;
    file := host;
    var dataStart := |file|;
    for i := 0 to |es|
      invariant file == host + Data(es[..i])
    {
      assert es[..i + 1] == es[..i] + [es[i]];
      DataSnoc(es[..i], es[i]);
      ConcatAssociates(host, Data(es[..i]), es[i].content);
      file := file + es[i].content;
    }
    assert es[..|es|] == es;
    ghost var front := file;
    var dirStart := |file|;
    for i := 0 to |es|
      invariant file == front + Directory(es[..i])
    {
      var nameLen := |es[i].name| % TWO_16;
      assert es[..i + 1] == es[..i] + [es[i]];
      DirectorySnoc(es[..i], es[i]);
      ConcatAssociates(front, Directory(es[..i]), DirEntry(es[i]));
      file := file + (U16(nameLen) + es[i].name[..nameLen] + U64(es[i].mtime) + U32(|es[i].content|));
    }
    var dirSize := |file| - dirStart;
    file := file + (U64(dataStart) + U32(|es|) + U32(dirSize) + MAGIC);
  }

  // ---- the reader ----

  /** As many bytes as there are, up to `size`. */
  function Slice(file: seq<byte>, offset: nat, size: nat): seq<byte> {
    if offset >= |file| then [] else file[offset..Min(offset + size, |file|)]
  }

  datatype DirRecord = DirRecord(name: seq<byte>, mtime: nat, size: nat, next: nat)

  /** The directory record at `dp`, None where the reader gives up: cut off, or a name that does not fit its buffer. */
  function RecordAt(dir: seq<byte>, dp: nat): (r: Option<DirRecord>)
    ensures r.Some? ==> dp < r.value.next <= |dir|
  {
    if dp + 2 > |dir| then None
    else
      var n := ReadU16(dir[dp..]);
      var at := dp + 2 + n;
      if at + 12 > |dir| || n >= NAME_MAX then None
      else Some(DirRecord(dir[dp + 2..at], ReadU64(dir[at..]), ReadU32(dir[at + 8..]), at + 12))
  }

  function Restored(mtime: nat): Option<nat> {
    if mtime > 0 then Some(mtime) else None
  }

  /** The files written for `count` more records. */
  function FilesFrom(file: seq<byte>, dir: seq<byte>, dp: nat, offset: nat, count: nat): seq<File>
    decreases count
  {
    if count == 0 || RecordAt(dir, dp).None? then []
    else
      var r := RecordAt(dir, dp).value;
      [File(r.name, Restored(r.mtime), Slice(file, offset, r.size))]
        + FilesFrom(file, dir, r.next, offset + r.size, count - 1)
  }

  /** All the reader writes, or None where it returns an error. */
  function Extracted(file: seq<byte>): Option<seq<File>> {
    if |file| < FOOTER then None
    else
      var footer := file[|file| - FOOTER..];
      var dirSize := ReadU32(footer[12..]);
      if footer[16..] != MAGIC || ReadU32(footer[8..]) == 0 || FOOTER + dirSize > |file| then None
      else
        var dir := file[|file| - FOOTER - dirSize..|file| - FOOTER];
        Some(FilesFrom(file, dir, 0, ReadU64(footer), ReadU32(footer[8..])))
  }

  /** The copying loop: 65536 bytes at a time, until enough or the end of the file. */
  method ReadData(file: seq<byte>, offset: nat, size: nat) returns (out: seq<byte>)
    ensures out == Slice(file, offset, size)
  {
    hide Slice;
    out := [];
    var remaining := size;
    SliceNone(file, offset);
    while remaining > 0
      invariant 0 <= remaining <= size && |out| == size - remaining
      invariant out == Slice(file, offset, |out|)
    {
      var chunk := if remaining < CHUNK then remaining else CHUNK;
      var got := Slice(file, offset + |out|, chunk);
      SliceStep(file, offset, |out|, chunk, size);
      if got == [] {
        assert Slice(file, offset, size) == out;
        break;
      }
      out := out + got;
      remaining := remaining - |got|;
    }
  }

  lemma SliceNone(file: seq<byte>, offset: nat)
    ensures Slice(file, offset, 0) == []
  {
  }

  /** One read: what has been read grows by what was got, and getting nothing means there is no more. */
  lemma SliceStep(file: seq<byte>, offset: nat, done: nat, chunk: nat, size: nat)
    requires |Slice(file, offset, done)| == done && 0 < chunk <= size - done
    ensures var got := Slice(file, offset + done, chunk);
      && |got| <= chunk
      && Slice(file, offset, done) + got == Slice(file, offset, done + |got|)
      && (got == [] ==> Slice(file, offset, size) == Slice(file, offset, done))
  {
  }

  /** `extract_archive`, from the footer on. */
  method Extract(file: seq<byte>) returns (r: Option<seq<File>>)
    ensures r == Extracted(file)
  {
    hide ReadU16, ReadU32, ReadU64;
    if |file| < FOOTER { return None; }
    var footer := file[|file| - FOOTER..];
    if footer[16..] != MAGIC { return None; }
    var dataStart := ReadU64(footer);
    var fileCount := ReadU32(footer[8..]);
    var dirSize := ReadU32(footer[12..]);
    if fileCount == 0 { return None; }
    if FOOTER + dirSize > |file| { return None; }
    var dir := file[|file| - FOOTER - dirSize..|file| - FOOTER];
    var files := ExtractFiles(file, dir, dataStart, fileCount);
    return Some(files);
  }

  lemma RecordIs(dir: seq<byte>, dp: nat)
    ensures dp + 2 > |dir| ==> RecordAt(dir, dp).None?
    ensures dp + 2 <= |dir| ==>
      var n := ReadU16(dir[dp..]);
      var at := dp + 2 + n;
      RecordAt(dir, dp) == if at + 12 > |dir| || n >= NAME_MAX then None
        else Some(DirRecord(dir[dp + 2..at], ReadU64(dir[at..]), ReadU32(dir[at + 8..]), at + 12))
  {
    hide ReadU16, ReadU32, ReadU64;
  }

  /** The loop over the directory. */
  method ExtractFiles(file: seq<byte>, dir: seq<byte>, dataStart: nat, fileCount: nat) returns (files: seq<File>)
    ensures files == FilesFrom(file, dir, 0, dataStart, fileCount)
  {
    hide ReadU16, ReadU32, ReadU64, Slice, RecordAt;
    files := [];
    var dp, fileOffset, i := 0, dataStart, 0;
    assert [] + FilesFrom(file, dir, 0, dataStart, fileCount) == FilesFrom(file, dir, 0, dataStart, fileCount);
    while i < fileCount
      invariant i <= fileCount && dp <= |dir|
      invariant files + FilesFrom(file, dir, dp, fileOffset, fileCount - i)
        == FilesFrom(file, dir, 0, dataStart, fileCount)
    {
      ghost var at := dp;
      RecordIs(dir, at);
      if dp + 2 > |dir| { break; }
      var nameLen := ReadU16(dir[dp..]);
      dp := dp + 2;
      if dp + nameLen + 8 + 4 > |dir| { break; }
      if nameLen >= NAME_MAX { break; }
      var name := dir[dp..dp + nameLen];
      dp := dp + nameLen;
      var mtime := ReadU64(dir[dp..]);
      dp := dp + 8;
      var fsize := ReadU32(dir[dp..]);
      dp := dp + 4;
      var content := ReadData(file, fileOffset, fsize);
      var out := File(name, if mtime > 0 then Some(mtime) else None, content);
      assert RecordAt(dir, at) == Some(DirRecord(name, mtime, fsize, dp));
      ConcatAssociates(files, [out], FilesFrom(file, dir, dp, fileOffset + fsize, fileCount - i - 1));
      files := files + [out];
      fileOffset := fileOffset + fsize;
      i := i + 1;
    }
    assert files + [] == files;
  }

  // ---- the reader undoes the writer ----

  lemma RestAt(buf: seq<byte>, i: nat, s: seq<byte>)
    requires StandsAt(buf, i, s)
    ensures buf[i..] == s + buf[i + |s|..]
  {
    assert buf[i..] == buf[i..i + |s|] + buf[i + |s|..];
  }

  /** What the format can hold: sizes and counts in their fields, names as C strings in 16 bits. */
  ghost predicate Holds(e: Entry) {
    |e.name| < TWO_16 && e.mtime < TWO_64 && |e.content| < TWO_32
  }

  lemma RecordReads(dir: seq<byte>, dp: nat, e: Entry)
    requires Holds(e) && StandsAt(dir, dp, DirEntry(e))
    ensures RecordAt(dir, dp) == if |e.name| < 1024
      then Some(DirRecord(e.name, e.mtime, |e.content|, dp + |DirEntry(e)|)) else None
  {
    hide U16, U32, U64, ReadU16, ReadU32, ReadU64;
    var n := |e.name|;
    var head, mtime, size := U16(n), U64(e.mtime), U32(|e.content|);
    DirEntryIs(e);
    hide DirEntry;
    SplitStand(dir, dp, head + e.name + mtime, size);
    SplitStand(dir, dp, head + e.name, mtime);
    SplitStand(dir, dp, head, e.name);
    RestAt(dir, dp, head);
    RestAt(dir, dp + 2 + n, mtime);
    RestAt(dir, dp + 2 + n + 8, size);
    hide StandsAt;
    NumbersRead(e, dir[dp + 2..], dir[dp + 2 + n + 8..], dir[dp + 2 + n + 12..]);
  }

  lemma DirEntryIs(e: Entry)
    requires Holds(e)
    ensures DirEntry(e) == U16(|e.name|) + e.name + U64(e.mtime) + U32(|e.content|)
  {
    hide U16, U32, U64;
    assert e.name[..|e.name|] == e.name;
  }

  lemma NumbersRead(e: Entry, afterName: seq<byte>, afterTime: seq<byte>, afterSize: seq<byte>)
    requires Holds(e)
    ensures ReadU16(U16(|e.name|) + afterName) == |e.name|
    ensures ReadU64(U64(e.mtime) + afterTime) == e.mtime
    ensures ReadU32(U32(|e.content|) + afterSize) == |e.content|
  {
    hide U16, U32, U64, ReadU16, ReadU32, ReadU64;
    ReadWriteU16(|e.name|, afterName);
    ReadWriteU64(e.mtime, afterTime);
    ReadWriteU32(|e.content|, afterSize);
  }

  /** The files that come out: all, up to the first whose name is too long for the reader. */
  function FilesOf(es: seq<Entry>): seq<File> {
    if es == [] || |es[0].name| >= NAME_MAX then []
    else [File(es[0].name, Restored(es[0].mtime), es[0].content)] + FilesOf(es[1..])
  }

  lemma {:induction false} FilesOfAll(es: seq<Entry>)
    ensures |FilesOf(es)| == |es| <==> forall i | 0 <= i < |es| :: |es[i].name| < 1024
    ensures |FilesOf(es)| <= |es|
    ensures |FilesOf(es)| < |es| ==> |es[|FilesOf(es)|].name| >= 1024
    ensures forall i | 0 <= i < |FilesOf(es)| ::
      FilesOf(es)[i] == File(es[i].name, if es[i].mtime > 0 then Some(es[i].mtime) else None, es[i].content)
  {
    if es != [] {
      FilesOfAll(es[1..]);
      assert forall i | 0 < i < |es| :: es[i] == es[1..][i - 1];
    }
  }

  lemma SliceStands(file: seq<byte>, offset: nat, s: seq<byte>)
    requires StandsAt(file, offset, s)
    ensures Slice(file, offset, |s|) == s
  {
  }

  lemma {:induction false} FilesRead(file: seq<byte>, dir: seq<byte>, dp: nat, offset: nat, es: seq<Entry>)
    requires forall i | 0 <= i < |es| :: Holds(es[i])
    requires StandsAt(dir, dp, Directory(es)) && StandsAt(file, offset, Data(es))
    ensures FilesFrom(file, dir, dp, offset, |es|) == FilesOf(es)
    decreases |es|
  {
    hide RecordAt, Slice, DirEntry, StandsAt, Holds;
    if es != [] {
      var e := es[0];
      assert Holds(e);
      SplitStand(dir, dp, DirEntry(e), Directory(es[1..]));
      SplitStand(file, offset, e.content, Data(es[1..]));
      RecordReads(dir, dp, e);
      SliceStands(file, offset, e.content);
      forall i | 0 <= i < |es[1..]| ensures Holds(es[1..][i]) { assert es[1..][i] == es[i + 1]; }
      FilesRead(file, dir, dp + |DirEntry(e)|, offset + |e.content|, es[1..]);
    }
  }

  lemma FooterReads(dataStart: nat, count: nat, dirSize: nat)
    requires dataStart < TWO_64 && count < TWO_32 && dirSize < TWO_32
    ensures var f := Footer(dataStart, count, dirSize);
      && |f| == FOOTER
      && ReadU64(f) == dataStart && ReadU32(f[8..]) == count && ReadU32(f[12..]) == dirSize && f[16..] == MAGIC
  {
    hide U32, U64, ReadU32, ReadU64;
    var a, b, c := U64(dataStart), U32(count), U32(dirSize);
    ReadWriteU64(dataStart, b + c + MAGIC);
    ReadWriteU32(count, c + MAGIC);
    ReadWriteU32(dirSize, MAGIC);
    FooterParts(a, b, c);
  }

  lemma FooterParts(a: seq<byte>, b: seq<byte>, c: seq<byte>)
    requires |a| == 8 && |b| == 4 && |c| == 4
    ensures var f := a + b + c + MAGIC;
      && f == a + (b + c + MAGIC) && f[8..] == b + (c + MAGIC) && f[12..] == c + MAGIC && f[16..] == MAGIC
  {
  }

  /**
   Extracting a packed file gives back names, contents and times in order, with only the footer to start from, for
   every host; all of them exactly when every name is shorter than 1024 bytes, and else those before the first longer.
   A time of zero is not restored.
   */
  lemma ExtractUndoesPack(host: seq<byte>, es: seq<Entry>)
    requires 0 < |es| < TWO_32 && |host| < TWO_64 && |Directory(es)| < TWO_32
    requires forall i | 0 <= i < |es| :: Holds(es[i])
    ensures Extracted(Packed(host, es)) == Some(FilesOf(es))
    ensures |FilesOf(es)| <= |es|
    ensures forall i | 0 <= i < |FilesOf(es)| ::
      FilesOf(es)[i] == File(es[i].name, if es[i].mtime > 0 then Some(es[i].mtime) else None, es[i].content)
    ensures |FilesOf(es)| == |es| <==> forall i | 0 <= i < |es| :: |es[i].name| < 1024
    ensures |FilesOf(es)| < |es| ==> |es[|FilesOf(es)|].name| >= 1024
  {
    hide Data, Directory, Footer, ReadU32, ReadU64, Holds, FilesOf, FilesFrom, StandsAt;
    FilesOfAll(es);
    var data, dir := Data(es), Directory(es);
    FooterReads(|host|, |es|, |dir|);
    Anatomy(host, data, dir, Footer(|host|, |es|, |dir|));
    FilesRead(Packed(host, es), dir, 0, |host|, es);
  }

  lemma Anatomy(host: seq<byte>, data: seq<byte>, dir: seq<byte>, footer: seq<byte>)
    requires |footer| == FOOTER
    ensures var file := host + data + dir + footer;
      && FOOTER + |dir| <= |file|
      && file[|file| - FOOTER..] == footer
      && file[|file| - FOOTER - |dir|..|file| - FOOTER] == dir
      && StandsAt(file, |host|, data) && StandsAt(dir, 0, dir)
  {
  }

  /** A packed file can serve as the host of another: only the last archive is seen. */
  lemma RepackingReplaces(host: seq<byte>, first: seq<Entry>, second: seq<Entry>)
    requires 0 < |second| < TWO_32 && |Packed(host, first)| < TWO_64 && |Directory(second)| < TWO_32
    requires forall i | 0 <= i < |second| :: Holds(second[i])
    ensures Extracted(Packed(Packed(host, first), second)) == Extracted(Packed([], second))
  {
    ExtractUndoesPack(Packed(host, first), second);
    ExtractUndoesPack([], second);
  }
}
