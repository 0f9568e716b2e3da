/**
 The archive behind a host binary byte by byte (qnc/pack.c, qnc/wrapper.c): where its parts lie, which files are no
 archives, and that a directory which is cut off ends the extraction.
 */
module ArchiveLaws {
  import opened Sequences
  import opened Wrappers
  import opened Bytes
  import opened Archive

  /**
   A packed file begins with the host and ends with 24 bytes: where the data begins in eight, the number of files and
   the length of the directory in four each, and the magic.
   */
  lemma FileLayout(host: seq<byte>, es: seq<Entry>)
    ensures var file, n := Packed(host, es), |Packed(host, es)|;
      && n >= |host| + 24 && file[..|host|] == host
      && file[n - 24..n - 16] == U64(|host|)
      && file[n - 16..n - 12] == U32(|es|)
      && file[n - 12..n - 8] == U32(n - 24 - |host| - |Data(es)|)
      && file[n - 8..] == [81, 78, 67, 80, 75, 50, 0, 0]
      && file[|host|..|host| + |Data(es)|] == Data(es)
  {
    hide Data, Directory, U32, U64;
    var data, dir := Data(es), Directory(es);
    Parts(host, data, dir, U64(|host|), U32(|es|), U32(|dir|), MAGIC);
    assert Packed(host, es) == host + data + dir + (U64(|host|) + U32(|es|) + U32(|dir|) + MAGIC);
  }

  lemma Parts(
    host: seq<byte>, data: seq<byte>, dir: seq<byte>, a: seq<byte>, b: seq<byte>, c: seq<byte>, d: seq<byte>)
    requires |a| == 8 && |b| == 4 && |c| == 4 && |d| == 8
    ensures var file := host + data + dir + (a + b + c + d); var n := |file|;
      && n == |host| + |data| + |dir| + 24
      && file[..|host|] == host && file[|host|..|host| + |data|] == data
      && file[n - 24..n - 16] == a && file[n - 16..n - 12] == b && file[n - 12..n - 8] == c && file[n - 8..] == d
  {
    var file := host + data + dir + (a + b + c + d);
    var n := |file|;
    var footer := a + b + c + d;
    assert file[n - 24..] == footer;
    Quarter(file, footer, 0, 8);
    Quarter(file, footer, 8, 12);
    Quarter(file, footer, 12, 16);
    Quarter(file, footer, 16, 24);
  }

  lemma Quarter(file: seq<byte>, footer: seq<byte>, i: nat, j: nat)
    requires |footer| == 24 <= |file| && file[|file| - 24..] == footer && i <= j <= 24
    ensures file[|file| - 24 + i..|file| - 24 + j] == footer[i..j]
  {
  }

  /** A record of the directory: the length of the name in two bytes, the name, the time in eight, the size in four. */
  lemma RecordLayout()
    ensures DirEntry(Entry([97, 98, 99], 0x201, [7, 8])) == [3, 0, 97, 98, 99, 1, 2, 0, 0, 0, 0, 0, 0, 2, 0, 0, 0]
  {
    var name: seq<byte> := [97, 98, 99];
    assert name[..3] == name;
    assert U64(0x201) == [1, 2, 0, 0, 0, 0, 0, 0];
    hide U64;
    assert U16(3) == [3, 0] && U32(2) == [2, 0, 0, 0];
  }

  /** Nothing is extracted exactly from files that are too short, have no magic, no files, or no room for the directory. */
  lemma RefusedExactly(file: seq<byte>)
    ensures Extracted(file).None? <==>
      var n := |file|;
      || n < 24
      || file[n - 8..] != [81, 78, 67, 80, 75, 50, 0, 0]
      || file[n - 16..n - 12] == [0, 0, 0, 0]
      || ReadU32(file[n - 12..n - 8]) + 24 > n
  {
    var n := |file|;
    if n >= 24 {
      var footer := file[n - 24..];
      assert footer[16..] == file[n - 8..];
      assert footer[8..][..4] == file[n - 16..n - 12];
      assert footer[12..][..4] == file[n - 12..n - 8];
      ReadFour(footer[8..]);
      ReadFour(footer[12..]);
      FourZeros(footer[8..][..4]);
    }
    hide ReadU32, ReadU64, FilesFrom;
  }

  lemma ReadFour(s: seq<byte>)
    requires |s| >= 4
    ensures ReadU32(s) == ReadU32(s[..4])
  {
  }

  lemma FourZeros(s: seq<byte>)
    requires |s| == 4
    ensures ReadU32(s) == 0 <==> s == [0, 0, 0, 0]
  {
  }

  /** A record that is cut off is not read, so the files before it are all that come out. */
  lemma CutRecord(dir: seq<byte>, dp: nat, e: Entry, file: seq<byte>, offset: nat, count: nat)
    requires Holds(e) && dp <= |dir| < dp + |DirEntry(e)| && dir[dp..] == DirEntry(e)[..|dir| - dp]
    ensures RecordAt(dir, dp) == None && FilesFrom(file, dir, dp, offset, count) == []
  {
    hide U16, U32, U64, ReadU16, ReadU32, ReadU64;
    DirEntryIs(e);
    if dp + 2 <= |dir| {
      var whole := DirEntry(e);
      assert whole == U16(|e.name|) + (e.name + U64(e.mtime) + U32(|e.content|));
      var seen := whole[..|dir| - dp];
      assert seen == U16(|e.name|) + seen[2..];
      ReadWriteU16(|e.name|, seen[2..]);
    }
  }
}
