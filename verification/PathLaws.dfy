/**
 What the segments "", "." and ".." mean in node/node/path.js, as equations between texts: which pieces of a path can
 be left out, which texts are left alone, and how one argument of `resolve` acts on the directory before it.
 */
module PathLaws {
  import opened Sequences
  import opened Text
  import opened Path

  /** The segments of two texts around a piece without slashes. */
  lemma SplitAround(x: string, piece: string, y: string)
    requires '/' !in piece
    ensures Split(x + "/" + piece + "/" + y, '/') == Split(x, '/') + [piece] + Split(y, '/')
  {
    hide Split;
    SplitFree(piece, '/');
    SplitConcat(x, piece, '/');
    SplitConcat(x + "/" + piece, y, '/');
    assert x + "/" + piece == x + ['/'] + piece;
    assert x + "/" + piece + "/" + y == x + "/" + piece + ['/'] + y;
  }

  lemma SplitBetween(x: string, y: string)
    ensures Split(x + "/" + y, '/') == Split(x, '/') + Split(y, '/')
  {
    hide Split;
    SplitConcat(x, y, '/');
    assert x + "/" + y == x + ['/'] + y;
  }

  /** A piece of a walk that leaves every list of segments as it was can be left out. */
  lemma RunSkips(start: seq<string>, a: seq<string>, piece: seq<string>, b: seq<string>, absolute: bool)
    requires Run(Run(start, a, absolute), piece, absolute) == Run(start, a, absolute)
    ensures Run(start, a + piece + b, absolute) == Run(start, a + b, absolute)
  {
    hide Run;
    RunConcat(start, a + piece, b, absolute);
    RunConcat(start, a, piece, absolute);
    RunConcat(start, a, b, absolute);
  }

  lemma IdleSegment(result: seq<string>, piece: string, absolute: bool)
    requires piece == "" || piece == "."
    ensures Run(result, [piece], absolute) == result
  {
  }

  lemma NameThenUp(result: seq<string>, name: string, absolute: bool)
    requires Plain(name)
    ensures Run(result, [name, ".."], absolute) == result
  {
    assert [name, ".."][1..] == [".."];
    assert Step(result, name, absolute) == result + [name];
    assert (result + [name])[..|result|] == result;
    assert Run(result + [name], [".."], absolute) == result;
  }

  /** A path is normalised through its walk, its first and its last character alone. */
  lemma SameWalk(p: string, q: string)
    requires p != "" && q != "" && p[0] == q[0] && p[|p| - 1] == q[|q| - 1]
    requires Run([], Split(p, '/'), IsAbsolute(p)) == Run([], Split(q, '/'), IsAbsolute(q))
    ensures Normalized(p) == Normalized(q)
  {
    hide Run, Split, Render;
  }

  /** A segment "" or "." anywhere between two texts changes nothing, in absolute and relative paths. */
  lemma DotVanishes(x: string, piece: string, y: string)
    requires x != "" && y != "" && (piece == "" || piece == ".")
    ensures Normalized(x + "/" + piece + "/" + y) == Normalized(x + "/" + y)
  {
    hide Split, Run, Normalized;
    SplitAround(x, piece, y);
    SplitBetween(x, y);
    var absolute := IsAbsolute(x);
    IdleSegment(Run([], Split(x, '/'), absolute), piece, absolute);
    RunSkips([], Split(x, '/'), [piece], Split(y, '/'), absolute);
    SameWalk(x + "/" + piece + "/" + y, x + "/" + y);
  }

  /** A name with ".." behind it can be left out. */
  lemma NameVanishes(x: string, name: string, y: string)
    requires x != "" && y != "" && Plain(name)
    ensures Normalized(x + "/" + name + "/../" + y) == Normalized(x + "/" + y)
  {
    hide Split, Run, Normalized, Plain;
    var full := x + "/" + name + "/../" + y;
    NameSplits(x, name, y);
    SplitBetween(x, y);
    var absolute := IsAbsolute(x);
    NameThenUp(Run([], Split(x, '/'), absolute), name, absolute);
    RunSkips([], Split(x, '/'), [name, ".."], Split(y, '/'), absolute);
    SameWalk(full, x + "/" + y);
  }

  lemma NameSplits(x: string, name: string, y: string)
    requires Plain(name)
    ensures Split(x + "/" + name + "/../" + y, '/') == Split(x, '/') + [name, ".."] + Split(y, '/')
  {
    hide Split;
    var front := x + "/" + name;
    assert x + "/" + name + "/../" + y == front + "/" + ".." + "/" + y;
    SplitAround(front, "..", y);
    SplitFree(name, '/');
    SplitBetween(x, name);
    assert Split(x, '/') + [name] + [".."] == Split(x, '/') + [name, ".."];
  }

  /** The same at the front of a relative path. */
  lemma FrontVanishes(name: string, y: string)
    requires y != "" && y[0] != '/' && Plain(name)
    ensures Normalized("./" + y) == Normalized(y) && Normalized(name + "/../" + y) == Normalized(y)
  {
    hide Split, Run, Render;
    var dot, up := "./" + y, name + "/../" + y;
    SplitFree(".", '/');
    SplitBetween(".", y);
    assert dot == "." + "/" + y;
    IdleSegment([], ".", false);
    RunConcat([], ["."], Split(y, '/'), false);
    UpSplits(name, y);
    NameThenUp([], name, false);
    RunConcat([], [name, ".."], Split(y, '/'), false);
    assert dot[|dot| - 1] == y[|y| - 1] && up[|up| - 1] == y[|y| - 1] && up[0] == name[0] != '/';
  }

  lemma UpSplits(name: string, y: string)
    requires Plain(name)
    ensures Split(name + "/../" + y, '/') == [name, ".."] + Split(y, '/')
  {
    hide Split;
    assert name + "/../" + y == name + "/" + ".." + "/" + y;
    SplitAround(name, "..", y);
    SplitFree(name, '/');
    assert [name] + [".."] == [name, ".."];
  }

  /** The same at the end of a path, which then has no trailing slash. */
  lemma EndVanishes(x: string, name: string)
    requires x != "" && x[|x| - 1] != '/' && Plain(name)
    ensures Normalized(x + "/.") == Normalized(x) && Normalized(x + "/" + name + "/..") == Normalized(x)
  {
    hide Split, Run, Render;
    var absolute := IsAbsolute(x);
    var here := Run([], Split(x, '/'), absolute);
    SplitBetween(x, ".");
    SplitFree(".", '/');
    assert x + "/." == x + "/" + ".";
    RunConcat([], Split(x, '/'), ["."], absolute);
    IdleSegment(here, ".", absolute);
    EndSplits(x, name);
    RunConcat([], Split(x, '/'), [name, ".."], absolute);
    NameThenUp(here, name, absolute);
  }

  lemma EndSplits(x: string, name: string)
    requires Plain(name)
    ensures Split(x + "/" + name + "/..", '/') == Split(x, '/') + [name, ".."]
  {
    hide Split;
    assert x + "/" + name + "/.." == x + "/" + name + "/" + "..";
    SplitAround(x, name, "..");
    SplitFree("..", '/');
    assert Split(x, '/') + [name] + [".."] == Split(x, '/') + [name, ".."];
  }

  /** At the root "" and "." do nothing, and there is nothing above it. */
  lemma RootHasNoParent(piece: string, y: string)
    requires piece == "" || piece == "." || piece == ".."
    ensures Normalized("/" + piece + "/" + y) == Normalized("/" + y)
  {
    var full, plain := "/" + piece + "/" + y, "/" + y;
    assert full == "" + "/" + piece + "/" + y && plain == "" + "/" + y;
    SplitAround("", piece, y);
    SplitBetween("", y);
    SplitFree("", '/');
    assert Run([], [""], true) == [] && Run([], [piece], true) == [];
    hide Split, Run, Render;
    RunSkips([], [""], [piece], Split(y, '/'), true);
    assert y != "" ==> full[|full| - 1] == y[|y| - 1] == plain[|plain| - 1];
    SameWalk(full, plain);
  }

  /** The text of a path: what stands in front, its segments, what stands behind. */
  function Written(body: seq<string>, absolute: bool, trailing: bool): string {
    (if absolute then "/" else "") + Join(body, '/') + (if trailing then "/" else "")
  }

  /** Names, behind ".." segments if the path is relative, are left alone, with their leading and trailing slash. */
  lemma CanonicalStays(body: seq<string>, climbs: nat, absolute: bool, trailing: bool)
    requires body != [] && climbs <= |body| && (absolute ==> climbs == 0)
    requires forall i | 0 <= i < climbs :: body[i] == ".."
    requires forall i | climbs <= i < |body| ::
      body[i] != "" && body[i] != "." && body[i] != ".." && '/' !in body[i]
    ensures var text := Written(body, absolute, trailing);
      && Normalized(text) == text
      && NormalizedNoTrailing(text) == Written(body, absolute, false)
  {
    hide Run, Split, Join;
    CanonicalWritten(body, climbs, absolute);
    WrittenIsRender(body, absolute, trailing);
    RenderRun(body, absolute, trailing);
    var text := Written(body, absolute, trailing);
    assert Written(body, absolute, false) == text[..|text| - if trailing then 1 else 0];
  }

  lemma CanonicalWritten(body: seq<string>, climbs: nat, absolute: bool)
    requires body != [] && climbs <= |body| && (absolute ==> climbs == 0)
    requires forall i | 0 <= i < climbs :: body[i] == ".."
    requires forall i | climbs <= i < |body| ::
      body[i] != "" && body[i] != "." && body[i] != ".." && '/' !in body[i]
    ensures Canonical(body, absolute) && Solid(body)
  {
    assert ClimbsThenNames(body, climbs);
    CanonicalParts(body, absolute);
  }

  lemma WrittenIsRender(body: seq<string>, absolute: bool, trailing: bool)
    requires body != [] && Solid(body)
    ensures Written(body, absolute, trailing) == Render(body, absolute, trailing)
    ensures var text := Written(body, absolute, false); text != "" && text[|text| - 1] != '/'
    ensures |Written(body, absolute, true)| > 1
  {
    hide Join, Solid;
    JoinEnds(body);
    var joined := Join(body, '/');
    var front := if absolute then "/" + joined else joined;
    assert Written(body, absolute, trailing) == front + if trailing then "/" else "" by {
      assert "" + joined == joined;
    }
    assert Written(body, absolute, false) == front + "" == front;
    assert front[|front| - 1] == joined[|joined| - 1];
    assert front != "/" && front != "";
  }

  lemma IdleWalk(piece: string, absolute: bool)
    requires piece == "" || piece == "."
    ensures Run([], [piece, ""], absolute) == [] && Run([], [piece], absolute) == []
  {
    assert [piece, ""] == [piece] + [""];
    RunConcat([], [piece], [""], absolute);
    IdleSegment([], piece, absolute);
    IdleSegment([], "", absolute);
  }

  /** The paths without any segment. */
  lemma NothingLeft()
    ensures Normalized("") == "." && Normalized(".") == "." && Normalized("./") == "."
    ensures Normalized("/") == "/" && NormalizedNoTrailing("/") == "/" && NormalizedNoTrailing("") == "."
  {
    SplitFree(".", '/');
    SplitFree("", '/');
    SplitBetween(".", "");
    SplitBetween("", "");
    assert "." + "/" + "" == "./" && "" + "/" + "" == "/";
    assert Split("./", '/') == [".", ""] && Split("/", '/') == ["", ""];
    IdleWalk(".", false);
    IdleWalk("", true);
    hide Split, Run;
  }

  // ---- resolve, one argument at a time ----

  /** An absolute last argument stands alone, an empty one does nothing, a relative one is put behind the directory. */
  lemma LastArgument(cwd: string, paths: seq<string>, path: string)
    requires IsAbsolute(cwd)
    ensures IsAbsolute(path) ==> Resolved(cwd, paths + [path]) == NormalizedNoTrailing(path)
    ensures path == "" ==> Resolved(cwd, paths + [path]) == Resolved(cwd, paths)
    ensures path != "" && !IsAbsolute(path) ==>
      Resolved(cwd, paths + [path]) == NormalizedNoTrailing(Resolved(cwd, paths) + "/" + path)
  {
    var all := paths + [path];
    assert all != [] && all[..|all| - 1] == paths && all[|all| - 1] == path;
    if IsAbsolute(path) {
      AbsoluteArgument(cwd, all);
    } else if path == "" {
      EmptyArgument(cwd, all);
    } else {
      RelativeArgument(cwd, all);
    }
  }

  lemma AbsoluteArgument(cwd: string, all: seq<string>)
    requires all != [] && IsAbsolute(all[|all| - 1])
    ensures Resolved(cwd, all) == NormalizedNoTrailing(all[|all| - 1])
  {
    hide Run, Split, Join, NormalizedNoTrailing;
    NoTrailingNotEmpty(all[|all| - 1]);
    assert Gather(cwd, all, "") == (all[|all| - 1], true);
  }

  lemma EmptyArgument(cwd: string, all: seq<string>)
    requires all != [] && all[|all| - 1] == ""
    ensures Resolved(cwd, all) == Resolved(cwd, all[..|all| - 1])
  {
    hide Run, Split, Join, NormalizedNoTrailing;
    assert Gather(cwd, all, "") == Gather(cwd, all[..|all| - 1], "");
  }

  lemma RelativeArgument(cwd: string, all: seq<string>)
    requires IsAbsolute(cwd) && all != [] && all[|all| - 1] != "" && !IsAbsolute(all[|all| - 1])
    ensures Resolved(cwd, all) == NormalizedNoTrailing(Resolved(cwd, all[..|all| - 1]) + "/" + all[|all| - 1])
  {
    hide Run, Split, Join, Resolved, NormalizedNoTrailing, Canonical;
    var front, path := all[..|all| - 1], all[|all| - 1];
    ResolveVisits(cwd, all);
    ResolveVisits(cwd, front);
    var here := Visit(cwd, front);
    assert Visit(cwd, all) == Run(here, Split(path, '/'), true);
    var full := Resolved(cwd, front) + "/" + path;
    assert full == ['/'] + Join(here, '/') + "/" + path;
    BehindDirectory(here, path);
    AbsoluteText(full);
  }

  /** An absolute path is written as a slash and the segments of its walk. */
  lemma AbsoluteText(full: string)
    requires IsAbsolute(full)
    ensures NormalizedNoTrailing(full) == ['/'] + Join(Run([], Split(full, '/'), true), '/')
  {
    hide Run, Split, Join, Canonical;
    WalkCanonical(full, true);
    NoTrailingRender(Run([], Split(full, '/'), true), full[|full| - 1] == '/');
  }

  lemma NoTrailingNotEmpty(path: string)
    ensures NormalizedNoTrailing(path) != ""
  {
    hide Run, Split, Join;
  }

  lemma BehindDirectory(here: seq<string>, path: string)
    requires Canonical(here, true)
    ensures Run([], Split(['/'] + Join(here, '/') + "/" + path, '/'), true) == Run(here, Split(path, '/'), true)
  {
    var text := ['/'] + Join(here, '/');
    SplitBetween(text, path);
    RenderRun(here, true, false);
    assert here != [] ==> Join(here, '/') != "" by {
      CanonicalParts(here, true);
      if here != [] { JoinEnds(here); }
    }
    assert text == Render(here, true, false);
    hide Run, Split, Join, Render;
    RunConcat([], Split(text, '/'), Split(path, '/'), true);
  }

  /** A leading "./" makes no difference to what is resolved. */
  lemma ResolveDot(cwd: string, y: string)
    requires IsAbsolute(cwd) && !IsAbsolute(y)
    ensures Resolved(cwd, ["./" + y]) == Resolved(cwd, [y])
  {
    var dot := "./" + y;
    ResolveVisits(cwd, [dot]);
    ResolveVisits(cwd, [y]);
    assert [dot][..0] == [] && [y][..0] == [];
    var here := Visit(cwd, []);
    assert dot == "." + "/" + y;
    SplitBetween(".", y);
    SplitFree(".", '/');
    SplitFree("", '/');
    IdleSegment(here, ".", true);
    IdleSegment(here, "", true);
    assert Visit(cwd, [dot]) == Run(here, Split(dot, '/'), true);
    assert Visit(cwd, [y]) == Run(here, Split(y, '/'), true);
    hide Run, Split, Visit, Resolved;
    RunConcat(here, ["."], Split(y, '/'), true);
  }
}
