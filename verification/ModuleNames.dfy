/**
 The two normalisers of relative import names, in C (module_resolution/module-resolution.h) and in JavaScript
 (qnc/qnc.js), and the stripping of the working directory from compiled module names.

 The laws: the C buffer is never too small; the two agree exactly when the C code can take every leading "../"; and
 for bases inside the working directory normalising commutes with stripping it, so that a relative import resolves
 at run time to the name it was given at compile time.
 */
module ModuleNames {
  import opened Text

  const NUL: char := '\0'

  // ---- names ----

  /** `strrchr(s, '/')` and `lastIndexOf("/")`: the position of the last slash, or -1. */
  function LastSlash(s: string): (k: int)
    ensures -1 <= k < |s|
    ensures k >= 0 ==> s[k] == '/'
    ensures forall i | k < i < |s| :: s[i] != '/'
  {
    if s == "" then -1 else if s[|s| - 1] == '/' then |s| - 1 else LastSlash(s[..|s| - 1])
  }

  /** All before the last slash, or nothing. */
  function DirOf(s: string): string {
    if LastSlash(s) >= 0 then s[..LastSlash(s)] else ""
  }

  /** All behind the last slash. */
  function LastPart(s: string): string {
    s[LastSlash(s) + 1..]
  }

  function Appended(dir: string, rest: string): string {
    if dir != "" then dir + "/" + rest else rest
  }

  predicate Here(rest: string) {
    "./" <= rest
  }

  predicate Up(rest: string) {
    "../" <= rest
  }

  predicate Relative(name: string) {
    name != "" && name[0] == '.'
  }

  // ---- the JavaScript normaliser ----

  function JsSteps(dir: string, rest: string): (string, string)
    decreases |rest|
  {
    if Here(rest) then JsSteps(dir, rest[2..])
    else if Up(rest) then JsSteps(DirOf(dir), rest[3..])
    else (dir, rest)
  }

  function JsName(baseName: string, name: string): string {
    if !Relative(name) then name
    else var (dir, rest) := JsSteps(DirOf(baseName), name); Appended(dir, rest)
  }

  /** `normalizeModuleName`. */
  method NormalizeJs(baseName: string, name: string) returns (result: string)
    ensures result == JsName(baseName, name)
  {
    if name == "" || name[0] != '.' { return name; }
    var slash := LastSlash(baseName);
    var dir := if slash >= 0 then baseName[..slash] else "";
    var rest := name;
    while Here(rest) || Up(rest)
      invariant JsSteps(dir, rest) == JsSteps(DirOf(baseName), name)
      decreases |rest|
    {
      if Here(rest) {
        rest := rest[2..];
      } else {
        rest := rest[3..];
        var ds := LastSlash(dir);
        if ds >= 0 { dir := dir[..ds]; } else { dir := ""; }
      }
    }
    return if dir != "" then dir + "/" + rest else rest;
  }

  // ---- the C normaliser ----

  predicate IsDots(part: string) {
    part == "." || part == ".."
  }

  /** The C code stops at a "../" it cannot take: nothing left to go up from, or a dot segment at the end. */
  predicate CanPop(dir: string) {
    dir != "" && !IsDots(LastPart(dir))
  }

  function CSteps(dir: string, rest: string): (string, string)
    decreases |rest|
  {
    if Here(rest) then CSteps(dir, rest[2..])
    else if Up(rest) && CanPop(dir) then CSteps(DirOf(dir), rest[3..])
    else (dir, rest)
  }

  function CName(baseName: string, name: string): string {
    if !Relative(name) then name
    else var (dir, rest) := CSteps(DirOf(baseName), name); Appended(dir, rest)
  }

  /** A C string: no zero inside. */
  predicate NoNul(s: string) {
    NUL !in s
  }

  /** The buffer holds the string and the zero that ends it. */
  ghost predicate Holds(buf: array<char>, s: string)
    reads buf
  {
    |s| < buf.Length && buf[..|s|] == s && buf[|s|] == NUL && NoNul(s)
  }

  /** `strlen`. */
  method StrLen(buf: array<char>, ghost s: string) returns (n: nat)
    requires Holds(buf, s)
    ensures n == |s|
  {
    assert forall i | 0 <= i < |s| :: buf[..|s|][i] == buf[i];
    n := 0;
    while buf[n] != NUL
      invariant n <= |s|
      decreases |s| - n
    {
      n := n + 1;
    }
  }

  /** `pstrcat`: appends as much as the buffer can take. */
  method PStrCat(buf: array<char>, size: nat, s: string, ghost before: string)
    requires Holds(buf, before) && size == buf.Length && NoNul(s)
    modifies buf
    ensures |before| + |s| < size ==> Holds(buf, before + s)
  {
    var at := StrLen(buf, before);
    var i := 0;
    while i < |s| && at + i + 1 < size
      invariant 0 <= i <= |s| && at + i < size
      invariant buf[..at + i] == before + s[..i]
    {
      buf[at + i] := s[i];
      assert buf[..at + i + 1] == buf[..at + i] + [s[i]];
      i := i + 1;
    }
    buf[at + i] := NUL;
    assert s[..|s|] == s;
    assert buf[..at + i] == before + s[..i];
  }

  /** The character at `i` of a C string, the zero at its end included. */
  function At(s: string, i: nat): char
    requires i <= |s|
  {
    if i == |s| then NUL else s[i]
  }

  /** `r[0] == '.' && r[1] == '/'` and so on are the prefix tests, and read no further than the zero. */
  lemma PrefixTests(name: string, r: nat)
    requires NoNul(name) && r <= |name|
    ensures Here(name[r..]) <==> At(name, r) == '.' && At(name, r + 1) == '/'
    ensures Up(name[r..]) <==> At(name, r) == '.' && At(name, r + 1) == '.' && At(name, r + 2) == '/'
  {
  }

  lemma StepHere(dir: string, name: string, r: nat)
    requires r <= |name| && Here(name[r..])
    ensures r + 2 <= |name| && CSteps(dir, name[r..]) == CSteps(dir, name[r + 2..])
  {
    assert name[r..][2..] == name[r + 2..];
  }

  lemma StepUp(dir: string, name: string, r: nat)
    requires r <= |name| && Up(name[r..]) && CanPop(dir)
    ensures r + 3 <= |name| && CSteps(dir, name[r..]) == CSteps(DirOf(dir), name[r + 3..])
  {
    hide CanPop, DirOf;
    assert name[r..][3..] == name[r + 3..];
    assert name[r..][1] == '.';
  }

  lemma StepStops(dir: string, rest: string)
    requires !Here(rest) && (!Up(rest) || !CanPop(dir))
    ensures CSteps(dir, rest) == (dir, rest)
  {
    hide CanPop;
  }

  /** `normalize_module_name`. */
  method NormalizeC(baseName: string, name: string) returns (result: string)
    requires NoNul(baseName) && NoNul(name)
    ensures result == CName(baseName, name)
  {
    hide LastSlash, Holds, Here, Up, CSteps, CanPop;
    if At(name, 0) != '.' { return name; }
    var p := LastSlash(baseName);
    var len := if p >= 0 then p else 0;
    var cap := len + |name| + 1 + 1;
    var filename := new char[cap](_ => NUL);
    ghost var dir := DirOf(baseName);
    assert baseName[..len] == dir;
    PStrCopy(filename, baseName[..len]);
    hide DirOf;
    var r := 0;
    assert name[0..] == name;
    while true
      invariant Holds(filename, dir) && 0 <= r <= |name| && |dir| <= len
      invariant CSteps(dir, name[r..]) == CSteps(DirOf(baseName), name)
      decreases |name| - r
    {
      PrefixTests(name, r);
      DirShorter(dir);
      if At(name, r) == '.' && At(name, r + 1) == '/' {
        StepHere(dir, name, r);
        r := r + 2;
      } else if At(name, r) == '.' && At(name, r + 1) == '.' && At(name, r + 2) == '/' {
        var popped := PopDirectory(filename, dir);
        if !popped {
          StepStops(dir, name[r..]);
          break;
        }
        StepUp(dir, name, r);
        dir := DirOf(dir);
        r := r + 3;
      } else {
        StepStops(dir, name[r..]);
        break;
      }
    }
    result := Append(filename, cap, name[r..], dir);
  }

  lemma PrefixLengths(rest: string)
    ensures Here(rest) ==> |rest| >= 2
    ensures Up(rest) ==> |rest| >= 3 && !Here(rest)
  {
    assert Up(rest) ==> rest[1] == '.';
    assert Here(rest) ==> rest[1] == '/';
  }

  /** The "../" step: cuts the buffer at its last slash, unless there is nothing to cut or a dot segment. */
  method PopDirectory(filename: array<char>, ghost dir: string) returns (popped: bool)
    requires Holds(filename, dir)
    modifies filename
    ensures popped <==> CanPop(dir)
    ensures Holds(filename, if popped then DirOf(dir) else dir)
  {
    hide LastSlash;
    if filename[0] == NUL {
      EmptyBuffer(filename, dir);
      return false;
    }
    var n := StrLen(filename, dir);
    assert filename[..n] == dir;
    var p := LastSlash(filename[..n]) + 1;
    assert filename[p..n] == LastPart(dir);
    if IsDots(filename[p..n]) { return false; }
    if p > 0 { p := p - 1; }
    filename[p] := NUL;
    assert DirOf(dir) == dir[..p];
    assert filename[..p] == dir[..p];
    return true;
  }

  /** The end of `normalize_module_name`: a slash if there is a directory, and what is left of the name. */
  method Append(filename: array<char>, cap: nat, rest: string, ghost dir: string) returns (result: string)
    requires Holds(filename, dir) && cap == filename.Length && NoNul(rest) && |dir| + 1 + |rest| < cap
    modifies filename
    ensures result == Appended(dir, rest)
  {
    hide Holds;
    ghost var before := dir;
    if filename[0] != NUL {
      NonEmptyBuffer(filename, dir);
      PStrCat(filename, cap, "/", dir);
      before := dir + "/";
    } else {
      EmptyBuffer(filename, dir);
    }
    PStrCat(filename, cap, rest, before);
    var n := StrLen(filename, before + rest);
    result := Contents(filename, n, before + rest);
  }

  /** The bytes of a buffer up to its zero. */
  method Contents(buf: array<char>, n: nat, ghost s: string) returns (result: string)
    requires Holds(buf, s) && n == |s|
    ensures result == s
  {
    return buf[..n];
  }

  lemma NonEmptyBuffer(buf: array<char>, s: string)
    requires Holds(buf, s) && buf.Length > 0 && buf[0] != NUL
    ensures s != ""
  {
  }

  lemma EmptyBuffer(buf: array<char>, s: string)
    requires Holds(buf, s) && buf.Length > 0 && buf[0] == NUL
    ensures s == ""
  {
    FirstChar(buf, s);
  }

  lemma FirstChar(buf: array<char>, s: string)
    requires Holds(buf, s)
    ensures s != "" ==> buf[0] != NUL
  {
    if s != "" { assert buf[..|s|][0] == s[0]; }
  }

  /** `memcpy` and the zero behind it. */
  method PStrCopy(buf: array<char>, s: string)
    requires |s| < buf.Length && NoNul(s)
    modifies buf
    ensures Holds(buf, s)
  {
    for i := 0 to |s|
      invariant buf[..i] == s[..i]
    {
      buf[i] := s[i];
      assert buf[..i + 1] == buf[..i] + [s[i]];
    }
    buf[|s|] := NUL;
    assert s[..|s|] == s;
  }

  // ---- when the two agree ----

  /** How many "../" a name starts with, "./" in between not counted. */
  function Climbs(rest: string): nat
    decreases |rest|
  {
    if Here(rest) then Climbs(rest[2..]) else if Up(rest) then 1 + Climbs(rest[3..]) else 0
  }

  /** What is left of a name behind its leading dots. */
  function Tail(rest: string): string
    decreases |rest|
  {
    if Here(rest) then Tail(rest[2..]) else if Up(rest) then Tail(rest[3..]) else rest
  }

  function Ancestor(dir: string, k: nat): string
    decreases k
  {
    if k == 0 then dir else Ancestor(DirOf(dir), k - 1)
  }

  /** `k` times there is a directory to leave, and it is not a dot segment. */
  predicate AllPoppable(dir: string, k: nat)
    decreases k
  {
    k == 0 || (CanPop(dir) && AllPoppable(DirOf(dir), k - 1))
  }

  lemma {:induction false} JsGoesUp(dir: string, rest: string)
    ensures JsSteps(dir, rest) == (Ancestor(dir, Climbs(rest)), Tail(rest))
    decreases |rest|
  {
    hide DirOf;
    PrefixLengths(rest);
    if Here(rest) { JsGoesUp(dir, rest[2..]); } else if Up(rest) { JsGoesUp(DirOf(dir), rest[3..]); }
  }

  lemma {:induction false} CGoesUp(dir: string, rest: string)
    requires AllPoppable(dir, Climbs(rest))
    ensures CSteps(dir, rest) == (Ancestor(dir, Climbs(rest)), Tail(rest))
    decreases |rest|
  {
    hide DirOf, CanPop;
    PrefixLengths(rest);
    if Here(rest) { CGoesUp(dir, rest[2..]); } else if Up(rest) { CGoesUp(DirOf(dir), rest[3..]); }
  }

  lemma DirShorter(dir: string)
    ensures |DirOf(dir)| <= |dir| && (DirOf(dir) != "" ==> dir != "")
  {
  }

  lemma {:induction false} JsNotLonger(dir: string, rest: string)
    ensures var (d, r) := JsSteps(dir, rest); |Appended(d, r)| <= |Appended(dir, rest)|
    decreases |rest|
  {
    hide DirOf;
    PrefixLengths(rest);
    DirShorter(dir);
    if Here(rest) { JsNotLonger(dir, rest[2..]); } else if Up(rest) { JsNotLonger(DirOf(dir), rest[3..]); }
  }

  /** Where the C code stops early its result is the longer one. */
  lemma {:induction false} CStopsLonger(dir: string, rest: string)
    requires !AllPoppable(dir, Climbs(rest))
    ensures var (d, r) := CSteps(dir, rest); var (e, t) := JsSteps(dir, rest); |Appended(e, t)| < |Appended(d, r)|
    decreases |rest|
  {
    hide DirOf, CanPop;
    PrefixLengths(rest);
    DirShorter(dir);
    if Here(rest) {
      CStopsLonger(dir, rest[2..]);
    } else if Up(rest) {
      if CanPop(dir) { CStopsLonger(DirOf(dir), rest[3..]); } else { JsNotLonger(DirOf(dir), rest[3..]); }
    }
  }

  /** The two normalisers agree exactly when the C code can take every leading "../" of a relative name. */
  lemma AgreeExactly(baseName: string, name: string)
    ensures CName(baseName, name) == JsName(baseName, name)
      <==> (Relative(name) ==> AllPoppable(DirOf(baseName), Climbs(name)))
  {
    if Relative(name) {
      if AllPoppable(DirOf(baseName), Climbs(name)) {
        CGoesUp(DirOf(baseName), name);
        JsGoesUp(DirOf(baseName), name);
      } else {
        CStopsLonger(DirOf(baseName), name);
      }
    }
  }

  // ---- stripping the working directory ----

  predicate Inside(cwd: string, path: string) {
    cwd + "/" <= path
  }

  /** `resolve_compile_realpath` and `resolveCompileRealpath` on a real path, the working directory being absolute. */
  function Stripped(cwd: string, path: string): string {
    if Inside(cwd, path) then path[|cwd| + 1..] else path
  }

  /** A directory below the working directory. */
  function Below(cwd: string, dir: string): string {
    if dir == "" then cwd else cwd + "/" + dir
  }

  predicate Rootless(s: string) {
    s == "" || s[0] != '/'
  }

  lemma LastSlashIs(s: string, k: int)
    requires -1 <= k < |s| && (k >= 0 ==> s[k] == '/') && forall i | k < i < |s| :: s[i] != '/'
    ensures LastSlash(s) == k
  {
  }

  lemma SlashBelow(cwd: string, dir: string)
    requires dir != ""
    ensures var full := cwd + "/" + dir;
      LastSlash(full) == if LastSlash(dir) >= 0 then |cwd| + 1 + LastSlash(dir) else |cwd|
  {
    var full := cwd + "/" + dir;
    forall i | |cwd| < i < |full| ensures full[i] == dir[i - |cwd| - 1] {}
    LastSlashIs(full, if LastSlash(dir) >= 0 then |cwd| + 1 + LastSlash(dir) else |cwd|);
  }

  /** Going up one directory keeps it below the working directory, with the same last part. */
  lemma DirBelow(cwd: string, dir: string)
    requires dir != "" && Rootless(dir)
    ensures DirOf(cwd + "/" + dir) == Below(cwd, DirOf(dir)) && LastPart(cwd + "/" + dir) == LastPart(dir)
    ensures Rootless(DirOf(dir))
  {
    var k := LastSlash(dir);
    SlashBelow(cwd, dir);
    hide LastSlash;
    assert k != 0;
    BackBelow(cwd, dir, k + 1);
    if k > 0 { FrontBelow(cwd, dir, k); } else { CwdBelow(cwd, dir); }
  }

  lemma FrontBelow(cwd: string, dir: string, k: nat)
    requires k <= |dir|
    ensures (cwd + "/" + dir)[..|cwd| + 1 + k] == cwd + "/" + dir[..k]
  {
    var front := cwd + "/";
    assert (front + dir)[..|front| + k] == front + dir[..k];
  }

  lemma BackBelow(cwd: string, dir: string, k: nat)
    requires k <= |dir|
    ensures (cwd + "/" + dir)[|cwd| + 1 + k..] == dir[k..]
  {
    var front := cwd + "/";
    assert (front + dir)[|front| + k..] == dir[k..];
  }

  lemma CwdBelow(cwd: string, dir: string)
    ensures (cwd + "/" + dir)[..|cwd|] == cwd
  {
    assert cwd + "/" + dir == cwd + ("/" + dir);
  }

  lemma {:induction false} AncestorBelow(cwd: string, dir: string, k: nat)
    requires Rootless(dir) && AllPoppable(dir, k)
    ensures AllPoppable(Below(cwd, dir), k) && Ancestor(Below(cwd, dir), k) == Below(cwd, Ancestor(dir, k))
    decreases k
  {
    hide DirOf, LastPart;
    if k > 0 {
      DirBelow(cwd, dir);
      AncestorBelow(cwd, DirOf(dir), k - 1);
    }
  }

  /**
   For a base given relative to the working directory and a relative name that stays within it: all four results
   agree, and normalising against the absolute base and stripping is normalising against the relative one.
   */
  lemma StrippingCommutes(cwd: string, base: string, name: string)
    requires cwd != "" && base != "" && Rootless(base) && Relative(name)
    requires AllPoppable(DirOf(base), Climbs(name))
    ensures var full := cwd + "/" + base;
      && CName(base, name) == JsName(base, name)
      && CName(full, name) == JsName(full, name) == cwd + "/" + CName(base, name)
      && Stripped(cwd, CName(full, name)) == CName(base, name)
  {
    var full, d, k := cwd + "/" + base, DirOf(base), Climbs(name);
    DirBelow(cwd, base);
    AncestorBelow(cwd, d, k);
    hide DirOf, AllPoppable, Climbs, Ancestor, Tail;
    CGoesUp(d, name);
    JsGoesUp(d, name);
    CGoesUp(Below(cwd, d), name);
    JsGoesUp(Below(cwd, d), name);
    AppendBelow(cwd, Ancestor(d, k), Tail(name));
  }

  lemma AppendBelow(cwd: string, dir: string, rest: string)
    requires cwd != ""
    ensures Appended(Below(cwd, dir), rest) == cwd + "/" + Appended(dir, rest)
    ensures Stripped(cwd, cwd + "/" + Appended(dir, rest)) == Appended(dir, rest)
  {
    var inner := Appended(dir, rest);
    assert (cwd + "/") <= cwd + "/" + inner;
    assert (cwd + "/" + inner)[|cwd| + 1..] == inner;
    if dir != "" { assert cwd + "/" + dir + "/" + rest == cwd + "/" + (dir + "/" + rest); }
  }

  // ---- in terms of segments ----

  /** No empty and no dot segment. */
  ghost predicate Plain(s: string) {
    forall part <- Split(s, '/') :: part != "" && !IsDots(part)
  }

  /** How many directories a path names. */
  function Depth(dir: string): nat {
    if dir == "" then 0 else |Split(dir, '/')|
  }

  lemma SplitLast(s: string)
    ensures LastSlash(s) >= 0 ==> Split(s, '/') == Split(DirOf(s), '/') + [LastPart(s)]
    ensures LastSlash(s) < 0 ==> Split(s, '/') == [LastPart(s)]
  {
    var k := LastSlash(s);
    SplitFree(LastPart(s), '/');
    if k >= 0 {
      assert s == s[..k] + ['/'] + s[k + 1..];
      SplitConcat(s[..k], s[k + 1..], '/');
    }
  }

  lemma DepthOfNothing()
    ensures Depth("") == 0
  {
  }

  lemma PlainParent(dir: string)
    requires dir != "" && Plain(dir)
    ensures CanPop(dir) && Depth(DirOf(dir)) == Depth(dir) - 1
    ensures DirOf(dir) == "" || Plain(DirOf(dir))
  {
    SplitLast(dir);
    var parts, front := Split(dir, '/'), Split(DirOf(dir), '/');
    NoSlashNoDir(dir);
    EmptySplits();
    hide Split, LastSlash, DirOf, LastPart, IsDots;
    if LastSlash(dir) >= 0 {
      PlainParts(front, LastPart(dir));
      assert front[0] in front;
    } else {
      assert parts == [] + [LastPart(dir)];
      PlainParts([], LastPart(dir));
    }
  }

  lemma NoSlashNoDir(dir: string)
    ensures LastSlash(dir) < 0 ==> DirOf(dir) == ""
  {
  }

  lemma EmptySplits()
    ensures Split("", '/') == [""]
  {
  }

  lemma PlainParts(front: seq<string>, last: string)
    requires forall part <- front + [last] :: part != "" && !IsDots(part)
    ensures (forall part <- front :: part != "" && !IsDots(part)) && last != "" && !IsDots(last)
  {
    hide IsDots;
    assert forall part <- front :: part in front + [last];
    assert last in front + [last];
  }

  /** A plain directory can be left as often as it has segments. */
  lemma {:induction false} PlainPoppable(dir: string, k: nat)
    requires (dir == "" || Plain(dir)) && k <= Depth(dir)
    ensures AllPoppable(dir, k)
    ensures Ancestor(dir, k) == "" || Plain(Ancestor(dir, k))
    decreases k
  {
    hide Split, LastSlash, IsDots, Plain, CanPop, DirOf, Depth;
    DepthOfNothing();
    if k > 0 {
      PlainParent(dir);
      PlainPoppable(DirOf(dir), k - 1);
    }
  }

  /**
   The result of a relative import, for a base in plain directories and a name whose dots are all in front and no
   more than the base is deep, is plain again: with the working directory in front it is a path in its own normal form.
   */
  lemma ResultIsPlain(base: string, name: string)
    requires Relative(name) && (DirOf(base) == "" || Plain(DirOf(base))) && Climbs(name) <= Depth(DirOf(base))
    requires Plain(Tail(name))
    ensures AllPoppable(DirOf(base), Climbs(name))
    ensures CName(base, name) == JsName(base, name) && Plain(CName(base, name))
  {
    var d, k := DirOf(base), Climbs(name);
    PlainPoppable(d, k);
    AgreeExactly(base, name);
    CGoesUp(d, name);
    hide DirOf, AllPoppable, Climbs, Ancestor, Tail, Split;
    var dir, rest := Ancestor(d, k), Tail(name);
    if dir != "" {
      assert dir + "/" + rest == dir + ['/'] + rest;
      SplitConcat(dir, rest, '/');
    }
  }

  // ---- exactly when stripping commutes ----

  lemma DepthOfDir(dir: string)
    requires dir != "" && Rootless(dir)
    ensures Depth(dir) == Depth(DirOf(dir)) + 1
  {
    SplitLast(dir);
    NoSlashNoDir(dir);
    RootlessDir(dir);
    hide Split, DirOf, LastPart, LastSlash;
  }

  lemma RootlessDir(dir: string)
    requires dir != "" && Rootless(dir)
    ensures LastSlash(dir) >= 0 ==> DirOf(dir) != ""
  {
  }

  /** As long as the base is not deep enough the JavaScript code leaves it, and goes on in the working directory. */
  lemma {:induction false} JsAncestorBelow(cwd: string, dir: string, k: nat)
    requires Rootless(dir)
    ensures var n := Depth(dir);
      && (k <= n ==> Ancestor(Below(cwd, dir), k) == Below(cwd, Ancestor(dir, k)))
      && (k > n ==> Ancestor(Below(cwd, dir), k) == Ancestor(cwd, k - n) && Ancestor(dir, k) == "")
    decreases k
  {
    hide DirOf, LastPart, Split, Depth;
    DepthOfNothing();
    if k > 0 {
      if dir == "" {
        AncestorOfNothing(k);
      } else {
        DirBelow(cwd, dir);
        DepthOfDir(dir);
        JsAncestorBelow(cwd, DirOf(dir), k - 1);
      }
    }
  }

  lemma {:induction false} AncestorOfNothing(k: nat)
    ensures Ancestor("", k) == ""
  {
    if k > 0 { AncestorOfNothing(k - 1); }
  }

  lemma DirIsPrefix(dir: string)
    ensures DirOf(dir) <= dir && (dir != "" ==> |DirOf(dir)| < |dir|)
  {
  }

  lemma {:induction false} AncestorShorter(dir: string, k: nat)
    ensures Ancestor(dir, k) <= dir && (dir != "" && k > 0 ==> |Ancestor(dir, k)| < |dir|)
    decreases k
  {
    hide DirOf;
    if k > 0 {
      DirIsPrefix(dir);
      AncestorShorter(DirOf(dir), k - 1);
    }
  }

  /** What is left of a path outside the working directory, or inside it from a shorter front, is never the rest itself. */
  lemma OutsideDiffers(cwd: string, above: string, rest: string)
    requires |above| < |cwd|
    ensures Stripped(cwd, Appended(above, rest)) == rest <==> above == "" && !Inside(cwd, rest)
  {
    var path := Appended(above, rest);
    if cwd + "/" <= path {
      assert |Stripped(cwd, path)| == |path| - |cwd| - 1;
    }
  }

  /** The name climbs no higher than the base is deep, or past the root with a rest that does not name the directory. */
  predicate StaysOrPasses(cwd: string, dir: string, name: string) {
    if Climbs(name) <= Depth(dir) then true else Passes(cwd, Climbs(name) - Depth(dir), Tail(name))
  }

  predicate Passes(cwd: string, up: nat, rest: string) {
    Ancestor(cwd, up) == "" && !Inside(cwd, rest)
  }

  lemma JsEndsInside(cwd: string, dir: string, k: nat, rest: string)
    requires cwd != "" && Rootless(dir) && k <= Depth(dir)
    ensures Stripped(cwd, Appended(Ancestor(Below(cwd, dir), k), rest)) == Appended(Ancestor(dir, k), rest)
  {
    JsAncestorBelow(cwd, dir, k);
    InsideStrips(cwd, Ancestor(dir, k), rest);
  }

  lemma JsEndsOutside(cwd: string, dir: string, k: nat, rest: string)
    requires cwd != "" && Rootless(dir) && k > Depth(dir)
    ensures (Stripped(cwd, Appended(Ancestor(Below(cwd, dir), k), rest)) == Appended(Ancestor(dir, k), rest))
      <==> Passes(cwd, k - Depth(dir), rest)
  {
    hide Rootless, Depth, Ancestor, Stripped, Appended, Below, Inside;
    var up := k - Depth(dir);
    JsAncestorBelow(cwd, dir, k);
    AncestorShorter(cwd, up);
    OutsideStrips(cwd, Ancestor(cwd, up), rest);
  }

  lemma InsideStrips(cwd: string, dir: string, rest: string)
    requires cwd != ""
    ensures Stripped(cwd, Appended(Below(cwd, dir), rest)) == Appended(dir, rest)
  {
    hide Stripped, Appended, Below;
    AppendBelow(cwd, dir, rest);
  }

  lemma OutsideStrips(cwd: string, above: string, rest: string)
    requires |above| < |cwd|
    ensures (Stripped(cwd, Appended(above, rest)) == Appended("", rest)) <==> above == "" && !Inside(cwd, rest)
  {
    hide Stripped, Appended, Inside;
    OutsideDiffers(cwd, above, rest);
    NothingAppended(rest);
  }

  /**
   Stripping commutes with the JavaScript normaliser if and only if the name climbs no higher than the base is deep,
   or climbs all the way past the root with a rest that does not name the working directory again.
   */
  lemma JsStripsExactly(cwd: string, base: string, name: string)
    requires cwd != "" && base != "" && Rootless(base) && Relative(name)
    ensures (Stripped(cwd, JsName(cwd + "/" + base, name)) == JsName(base, name))
      <==> StaysOrPasses(cwd, DirOf(base), name)
  {
    var full := cwd + "/" + base;
    DirBelow(cwd, base);
    JsNameIs(full, name);
    JsNameIs(base, name);
    var dir, k, rest := DirOf(base), Climbs(name), Tail(name);
    hide JsName, DirOf, Climbs, Tail, Depth, Ancestor, Stripped, Appended, Below, Inside, Rootless, LastSlash, Passes;
    if k <= Depth(dir) { JsEndsInside(cwd, dir, k, rest); } else { JsEndsOutside(cwd, dir, k, rest); }
  }

  lemma JsNameIs(base: string, name: string)
    requires Relative(name)
    ensures JsName(base, name) == Appended(Ancestor(DirOf(base), Climbs(name)), Tail(name))
  {
    JsGoesUp(DirOf(base), name);
  }

  lemma NothingAppended(rest: string)
    ensures Appended("", rest) == rest
  {
  }

  /** Whether the C code takes every directory of the base and finds one more "../". */
  predicate LeavesBase(dir: string, rest: string) {
    Depth(dir) < Climbs(rest) && AllPoppable(dir, Depth(dir))
  }

  /** The C code below the working directory: as on the base alone until it leaves the base, then on from the directory. */
  lemma {:induction false} CStepsBelow(cwd: string, dir: string, rest: string)
    requires Rootless(dir)
    ensures var (d, r) := CSteps(dir, rest);
      if LeavesBase(dir, rest) then d == "" && Up(r) && CSteps(Below(cwd, dir), rest) == CSteps(cwd, r)
      else CSteps(Below(cwd, dir), rest) == (Below(cwd, d), r)
    decreases |rest|
  {
    hide DirOf, LastPart, Split, Depth;
    PrefixLengths(rest);
    DepthOfNothing();
    if Here(rest) {
      CStepsBelow(cwd, dir, rest[2..]);
    } else if Up(rest) && dir != "" {
      DirBelow(cwd, dir);
      DepthOfDir(dir);
      if CanPop(dir) { CStepsBelow(cwd, DirOf(dir), rest[3..]); }
    }
  }

  lemma {:induction false} CShrinks(dir: string, rest: string)
    ensures var (d, r) := CSteps(dir, rest); d <= dir && |r| <= |rest|
    decreases |rest|
  {
    hide DirOf, CanPop;
    PrefixLengths(rest);
    DirIsPrefix(dir);
    if Here(rest) {
      CShrinks(dir, rest[2..]);
    } else if Up(rest) && CanPop(dir) {
      CShrinks(DirOf(dir), rest[3..]);
    }
  }

  /** From the working directory on, one more "../" taken leaves a name that no stripping turns back. */
  lemma CLeavesCwd(cwd: string, r: string)
    requires cwd != "" && cwd[0] == '/' && Up(r) && CanPop(cwd)
    ensures var (d, t) := CSteps(cwd, r); Stripped(cwd, Appended(d, t)) != r
  {
    PrefixLengths(r);
    DirIsPrefix(cwd);
    CShrinks(DirOf(cwd), r[3..]);
    var (d, t) := CSteps(cwd, r);
    assert CSteps(cwd, r) == CSteps(DirOf(cwd), r[3..]);
    hide CSteps, DirOf, CanPop;
    assert r[0] == '.';
    if d != "" { assert d[0] == DirOf(cwd)[0] == cwd[0] == '/'; }
    var path := Appended(d, t);
    assert d != "" ==> path[0] == '/';
    assert cwd + "/" <= path ==> |Stripped(cwd, path)| == |path| - |cwd| - 1;
  }

  /**
   Stripping commutes with the C normaliser if and only if it does not leave the base, or cannot leave the working
   directory.
   */
  lemma CStripsExactly(cwd: string, base: string, name: string)
    requires cwd != "" && cwd[0] == '/' && base != "" && Rootless(base) && Relative(name)
    ensures (Stripped(cwd, CName(cwd + "/" + base, name)) == CName(base, name))
      <==> !LeavesBase(DirOf(base), name) || !CanPop(cwd)
  {
    var dir := DirOf(base);
    DirBelow(cwd, base);
    CStepsBelow(cwd, dir, name);
    var (d, r) := CSteps(dir, name);
    if LeavesBase(dir, name) {
      if CanPop(cwd) {
        CLeavesCwd(cwd, r);
        NothingAppended(r);
      } else {
        assert CSteps(cwd, r) == (cwd, r) by { PrefixLengths(r); }
        AppendBelow(cwd, "", r);
      }
    } else {
      hide CSteps, DirOf, CanPop, LeavesBase;
      AppendBelow(cwd, d, r);
    }
  }

  /** Above its base directory a relative import does not come out the same: here the absolute result leaves the directory. */
  lemma ClimbingOut()
    ensures Stripped("/h/u", JsName("/h/u/a.js", "../x")) == "/h/x" && JsName("a.js", "../x") == "x"
  {
    LastSlashIs("/h/u/a.js", 4);
    assert DirOf("/h/u/a.js") == "/h/u";
    LastSlashIs("/h/u", 2);
    assert DirOf("/h/u") == "/h";
    LastSlashIs("a.js", -1);
    LastSlashIs("", -1);
    assert "../x"[1] == '.' && "../x"[3..] == ['x'] == "x";
    assert Up("../x") && !Here("../x");
    assert !Here("x") && !Up("x");
    assert "/h" + "/" + "x" == "/h/x";
    assert !("/h/u" + "/" <= "/h/x");
  }

  /** And a climb past the root does: both sides lose the working directory altogether. */
  lemma ClimbingPastRoot()
    ensures Stripped("/u", JsName("/u/a.js", "../x")) == "x" == JsName("a.js", "../x")
    ensures !AllPoppable(DirOf("a.js"), Climbs("../x"))
  {
    LastSlashIs("/u/a.js", 2);
    assert DirOf("/u/a.js") == "/u";
    LastSlashIs("/u", 0);
    LastSlashIs("a.js", -1);
    LastSlashIs("", -1);
    assert "../x"[1] == '.' && "../x"[3..] == ['x'] == "x";
    assert Up("../x") && !Here("../x");
    assert !Here("x") && !Up("x");
    assert !("/u" + "/" <= "x");
  }
}
