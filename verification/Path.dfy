/**
 POSIX path operations of node/node/path.js.

 Every operation is a method over characters and in-place lists, as in the source, proved equal to a
 function over path segments. The laws at the end are about those functions: resolving a list of paths is
 a sequence of directory changes, `relative` climbs out of what `from` and `to` do not share and then
 descends, and resolving the relative path from `from` arrives at `to`.
 */
module Path {
  import opened Sequences
  import opened Text

  const SEP: char := '/'

  predicate IsAbsolute(path: string) {
    path != "" && path[0] == SEP
  }

  // ---- normalize ----

  function Step(result: seq<string>, segment: string, absolute: bool): seq<string> {
    if segment == "" || segment == "." then result
    else if segment == ".." then
      if |result| > 0 && result[|result| - 1] != ".." then result[..|result| - 1]
      else if !absolute then result + [".."]
      else result
    else result + [segment]
  }

  function Run(result: seq<string>, segments: seq<string>, absolute: bool): seq<string>
    decreases |segments|
  {
    if segments == [] then result
    else Run(Step(result, segments[0], absolute), segments[1..], absolute)
  }

  function Render(body: seq<string>, absolute: bool, trailing: bool): string {
    var joined := if absolute then [SEP] + Join(body, SEP) else Join(body, SEP);
    var slashed := if trailing && joined != "" && joined != [SEP] then joined + [SEP] else joined;
    if slashed == "" then "." else slashed
  }

  function Normalized(path: string): string {
    if path == "" then "."
    else Render(Run([], Split(path, SEP), IsAbsolute(path)), IsAbsolute(path), path[|path| - 1] == SEP)
  }

  method Normalize(path: string) returns (r: string)
    ensures r == Normalized(path)
  {
    if |path| == 0 { return "."; }
    var isAbsolutePath := path[0] == SEP;
    var trailingSlash := path[|path| - 1] == SEP;
    var segments := Split(path, SEP);
    var result: seq<string> := [];
    for i := 0 to |segments|
      invariant Run(result, segments[i..], isAbsolutePath) == Run([], segments, isAbsolutePath)
    {
      var segment := segments[i];
      assert segments[i..][1..] == segments[i + 1..];
      if segment == "" || segment == "." {
        continue;
      }
      if segment == ".." {
        if |result| > 0 && result[|result| - 1] != ".." {
          result := result[..|result| - 1];
        } else if !isAbsolutePath {
          result := result + [".."];
        }
      } else {
        result := result + [segment];
      }
    }
    var normalized := Join(result, SEP);
    if isAbsolutePath {
      normalized := [SEP] + normalized;
    }
    if trailingSlash && |normalized| > 0 && normalized != [SEP] {
      normalized := normalized + [SEP];
    }
    r := if normalized == "" then "." else normalized;
  }

  function NormalizedNoTrailing(path: string): string {
    var normalized := Normalized(path);
    if |normalized| > 1 && normalized[|normalized| - 1] == SEP then normalized[..|normalized| - 1]
    else normalized
  }

  method NormalizeNoTrailing(path: string) returns (r: string)
    ensures r == NormalizedNoTrailing(path)
  {
    var normalized := Normalize(path);
    if |normalized| > 1 && normalized[|normalized| - 1] == SEP {
      return normalized[..|normalized| - 1];
    }
    return normalized;
  }

  // ---- resolve ----

  function Prepend(path: string, resolved: string): string {
    if |resolved| > 0 then path + [SEP] + resolved else path
  }

  /** What the right-to-left scan of `resolve` has collected, and whether it met an absolute path. */
  function Gather(cwd: string, paths: seq<string>, resolved: string): (string, bool) {
    if paths == [] then
      if cwd == "" then (resolved, false) else (Prepend(cwd, resolved), cwd[0] == SEP)
    else
      var path := paths[|paths| - 1];
      var front := paths[..|paths| - 1];
      if path == "" then Gather(cwd, front, resolved)
      else if path[0] == SEP then (Prepend(path, resolved), true)
      else Gather(cwd, front, Prepend(path, resolved))
  }

  function Resolved(cwd: string, paths: seq<string>): string {
    var normalized := NormalizedNoTrailing(Gather(cwd, paths, "").0);
    if |normalized| > 0 then normalized else if Gather(cwd, paths, "").1 then [SEP] else "."
  }

  method Resolve(cwd: string, paths: seq<string>) returns (r: string)
    ensures r == Resolved(cwd, paths)
  {
    var resolvedPath := "";
    var resolvedAbsolute := false;
    var i := |paths| - 1;
    assert paths[..|paths|] == paths;
    while i >= -1 && !resolvedAbsolute
      invariant -2 <= i < |paths|
      invariant i == -2 || resolvedAbsolute ==> Gather(cwd, paths, "") == (resolvedPath, resolvedAbsolute)
      invariant i >= -1 && !resolvedAbsolute ==> Gather(cwd, paths, "") == Gather(cwd, paths[..i + 1], resolvedPath)
      decreases i + 2
    {
      var path := if i >= 0 then paths[i] else cwd;
      assert i >= 0 ==> paths[..i + 1][..i] == paths[..i];
      i := i - 1;
      if |path| == 0 { continue; }
      if |resolvedPath| > 0 {
        resolvedPath := path + [SEP] + resolvedPath;
      } else {
        resolvedPath := path;
      }
      resolvedAbsolute := path[0] == SEP;
    }
    resolvedPath := NormalizeNoTrailing(resolvedPath);
    if resolvedAbsolute {
      return if |resolvedPath| > 0 then resolvedPath else [SEP];
    }
    return if |resolvedPath| > 0 then resolvedPath else ".";
  }

  // ---- what normalized segment lists look like ----

  ghost predicate Plain(segment: string) {
    segment != "" && segment != "." && segment != ".." && SEP !in segment
  }

  /** Segments no walk can shorten: for a relative path, climbs first and then names. */
  ghost predicate Canonical(body: seq<string>, absolute: bool) {
    exists climbs: nat :: ClimbsThenNames(body, climbs) && (absolute ==> climbs == 0)
  }

  ghost predicate ClimbsThenNames(body: seq<string>, climbs: nat) {
    && climbs <= |body|
    && (forall i | 0 <= i < climbs :: body[i] == "..")
    && (forall i | climbs <= i < |body| :: Plain(body[i]))
  }

  ghost predicate Names(body: seq<string>) {
    forall i | 0 <= i < |body| :: Plain(body[i])
  }

  ghost predicate Solid(body: seq<string>) {
    forall i | 0 <= i < |body| :: body[i] != "" && body[i] != "." && SEP !in body[i]
  }

  lemma {:induction false} RunConcat(result: seq<string>, a: seq<string>, b: seq<string>, absolute: bool)
    ensures Run(result, a + b, absolute) == Run(Run(result, a, absolute), b, absolute)
    decreases |a|
  {
    if a == [] {
      assert a + b == b;
    } else {
      assert (a + b)[1..] == a[1..] + b;
      RunConcat(Step(result, a[0], absolute), a[1..], b, absolute);
    }
  }

  lemma {:induction false} RunCanonical(result: seq<string>, segments: seq<string>, absolute: bool)
    requires Canonical(result, absolute) && Free(segments, SEP)
    ensures Canonical(Run(result, segments, absolute), absolute)
    decreases |segments|
  {
    if segments != [] {
      var climbs: nat :| ClimbsThenNames(result, climbs) && (absolute ==> climbs == 0);
      var next := Step(result, segments[0], absolute);
      var climbs' := if segments[0] == ".." && |next| > |result| then climbs + 1 else climbs;
      assert ClimbsThenNames(next, climbs');
      RunCanonical(next, segments[1..], absolute);
    }
  }

  /** A walk along canonical segments appends them. */
  lemma {:induction false} RunAppends(result: seq<string>, more: seq<string>, absolute: bool)
    requires Canonical(result + more, absolute)
    ensures Run(result, more, absolute) == result + more
    decreases |more|
  {
    if more != [] {
      assert (result + more)[|result|] == more[0];
      if |result| > 0 { assert (result + more)[|result| - 1] == result[|result| - 1]; }
      assert result + [more[0]] + more[1..] == result + more;
      RunAppends(result + [more[0]], more[1..], absolute);
    } else {
      assert result + more == result;
    }
  }

  lemma {:induction false} JoinEnds(body: seq<string>)
    requires body != [] && Solid(body)
    ensures var j := Join(body, SEP); j != "" && j[0] != SEP && j[|j| - 1] != SEP
  {
    if |body| > 1 { JoinEnds(body[1..]); }
  }

  lemma CanonicalParts(body: seq<string>, absolute: bool)
    requires Canonical(body, absolute)
    ensures Solid(body) && Free(body, SEP)
    ensures absolute ==> Names(body)
  {
    var climbs: nat :| ClimbsThenNames(body, climbs) && (absolute ==> climbs == 0);
  }

  lemma CanonicalNames(body: seq<string>, absolute: bool)
    requires Names(body)
    ensures Canonical(body, absolute)
  {
    assert ClimbsThenNames(body, 0);
  }

  lemma {:induction false} WalkCanonical(path: string, absolute: bool)
    ensures Canonical(Run([], Split(path, SEP), absolute), absolute)
  {
    JoinSplit(path, SEP);
    CanonicalNames([], absolute);
    RunCanonical([], Split(path, SEP), absolute);
  }

  function Surrounded(body: seq<string>, absolute: bool, trailing: bool): seq<string> {
    (if absolute then [""] else []) + body + (if trailing then [""] else [])
  }

  lemma RenderSplit(body: seq<string>, absolute: bool, trailing: bool)
    requires body != [] && Solid(body) && Free(body, SEP)
    ensures Split(Render(body, absolute, trailing), SEP) == Surrounded(body, absolute, trailing)
    ensures IsAbsolute(Render(body, absolute, trailing)) == absolute
    ensures var r := Render(body, absolute, trailing); (r[|r| - 1] == SEP) == trailing
  {
    var text := Join(body, SEP);
    JoinEnds(body);
    SplitJoin(body, SEP);
    SplitConcat("", text, SEP);
    assert "" + [SEP] + text == [SEP] + text;
    var front := if absolute then [SEP] + text else text;
    SplitConcat(front, "", SEP);
    assert front + [SEP] + "" == front + [SEP];
  }

  lemma SurroundedRun(body: seq<string>, absolute: bool, trailing: bool)
    requires Canonical(body, absolute)
    ensures Run([], Surrounded(body, absolute, trailing), absolute) == body
  {
    var lead: seq<string> := if absolute then [""] else [];
    var tail: seq<string> := if trailing then [""] else [];
    RunConcat([], lead + body, tail, absolute);
    RunConcat([], lead, body, absolute);
    assert [] + body == body;
    RunAppends([], body, absolute);
  }

  /** Rendering canonical segments and walking the text again gives the same segments. */
  lemma RenderRun(body: seq<string>, absolute: bool, trailing: bool)
    requires Canonical(body, absolute)
    ensures Run([], Split(Render(body, absolute, trailing), SEP), absolute) == body
    ensures IsAbsolute(Render(body, absolute, trailing)) == absolute
    ensures body != [] ==> var r := Render(body, absolute, trailing); (r[|r| - 1] == SEP) == trailing
  {
    CanonicalParts(body, absolute);
    if body == [] {
      assert Split("/", SEP) == ["", ""];
      SplitFree(".", SEP);
    } else {
      RenderSplit(body, absolute, trailing);
      SurroundedRun(body, absolute, trailing);
    }
  }

  /** Normalizing twice is normalizing once. */
  lemma NormalizeIdempotent(path: string)
    ensures Normalized(Normalized(path)) == Normalized(path)
  {
    if path == "" {
      SplitFree(".", SEP);
      assert Run([], ["."], false) == [];
    } else {
      var absolute := IsAbsolute(path);
      var trailing := path[|path| - 1] == SEP;
      var body := Run([], Split(path, SEP), absolute);
      WalkCanonical(path, absolute);
      RenderRun(body, absolute, trailing);
      assert body == [] ==> Render(body, absolute, true) == Render(body, absolute, false);
    }
  }

  // ---- resolve is a sequence of directory changes ----

  /** The directory reached from `cwd` by visiting `paths` one after the other. */
  function Visit(cwd: string, paths: seq<string>): seq<string> {
    if paths == [] then Run([], Split(cwd, SEP), true)
    else
      var path := paths[|paths| - 1];
      var here := Visit(cwd, paths[..|paths| - 1]);
      if path == "" then here
      else if IsAbsolute(path) then Run([], Split(path, SEP), true)
      else Run(here, Split(path, SEP), true)
  }

  lemma {:induction false} GatherVisits(cwd: string, paths: seq<string>, resolved: string)
    requires IsAbsolute(cwd)
    ensures var (text, absolute) := Gather(cwd, paths, resolved);
      && absolute && IsAbsolute(text)
      && Run([], Split(text, SEP), true)
         == if resolved == "" then Visit(cwd, paths) else Run(Visit(cwd, paths), Split(resolved, SEP), true)
    decreases |paths|
  {
    var path := if paths == [] then cwd else paths[|paths| - 1];
    if path != "" {
      SplitConcat(path, resolved, SEP);
      RunConcat([], Split(path, SEP), Split(resolved, SEP), true);
    }
    if paths != [] {
      var front := paths[..|paths| - 1];
      GatherVisits(cwd, front, resolved);
      GatherVisits(cwd, front, Prepend(path, resolved));
      if path != "" {
        RunConcat(Visit(cwd, front), Split(path, SEP), Split(resolved, SEP), true);
      }
    }
  }

  /** `resolve` renders the directory reached by visiting its arguments from left to right. */
  lemma ResolveVisits(cwd: string, paths: seq<string>)
    requires IsAbsolute(cwd)
    ensures Resolved(cwd, paths) == [SEP] + Join(Visit(cwd, paths), SEP)
    ensures Canonical(Visit(cwd, paths), true)
  {
    GatherVisits(cwd, paths, "");
    var text := Gather(cwd, paths, "").0;
    WalkCanonical(text, true);
    NoTrailingRender(Visit(cwd, paths), text[|text| - 1] == SEP);
  }

  lemma NoTrailingRender(body: seq<string>, trailing: bool)
    requires Canonical(body, true)
    ensures var text := Render(body, true, trailing);
      (if |text| > 1 && text[|text| - 1] == SEP then text[..|text| - 1] else text) == [SEP] + Join(body, SEP)
  {
    CanonicalParts(body, true);
    if body != [] { JoinEnds(body); }
  }

  // ---- relative ----

  function Shared(a: seq<string>, b: seq<string>): (k: nat)
    ensures k <= |a| && k <= |b| && a[..k] == b[..k]
    ensures k < |a| && k < |b| ==> a[k] != b[k]
  {
    if a == [] || b == [] || a[0] != b[0] then 0
    else
      var k := Shared(a[1..], b[1..]);
      assert a[..k + 1] == [a[0]] + a[1..][..k] && b[..k + 1] == [b[0]] + b[1..][..k];
      k + 1
  }

  function Climbs(n: nat): (dots: seq<string>)
    ensures |dots| == n && forall i | 0 <= i < n :: dots[i] == ".."
  {
    if n == 0 then [] else Climbs(n - 1) + [".."]
  }

  /** One `..` for each segment of `a` outside the shared prefix, then the rest of `b`. */
  function Route(a: seq<string>, b: seq<string>): seq<string> {
    Climbs(|a| - Shared(a, b)) + b[Shared(a, b)..]
  }

  lemma SharedIs(a: seq<string>, b: seq<string>, k: nat)
    requires k <= |a| && k <= |b| && a[..k] == b[..k]
    requires k < |a| && k < |b| ==> a[k] != b[k]
    ensures Shared(a, b) == k
  {
    var m := Shared(a, b);
    assert forall i | 0 <= i < k :: a[i] == a[..k][i] == b[..k][i] == b[i];
    assert forall i | 0 <= i < m :: a[i] == a[..m][i] == b[..m][i] == b[i];
  }

  /** The first segment of a text is what precedes its first separator. */
  lemma {:induction false} HeadSegment(x: string, m: nat)
    requires m <= |x| && SEP !in x[..m] && (m < |x| ==> x[m] == SEP)
    ensures Split(x, SEP)[0] == x[..m]
  {
    SplitFree(x[..m], SEP);
    if m < |x| {
      assert x == x[..m] + [SEP] + x[m + 1..];
      SplitConcat(x[..m], x[m + 1..], SEP);
    } else {
      assert x == x[..m];
    }
  }

  lemma {:induction false} HeadExtent(x: string) returns (m: nat)
    ensures m <= |x| && SEP !in x[..m] && (m < |x| ==> x[m] == SEP) && Split(x, SEP)[0] == x[..m]
  {
    m := 0;
    while m < |x| && x[m] != SEP
      invariant m <= |x| && SEP !in x[..m]
    {
      m := m + 1;
    }
    HeadSegment(x, m);
  }

  /** Texts that agree up to `m`, without a separator there, and part at `m` differ in their first segment. */
  lemma HeadsDiffer(x: string, y: string, m: nat)
    requires m <= |x| && m <= |y| && x[..m] == y[..m] && SEP !in x[..m]
    requires m < |x| || m < |y|
    requires m < |x| && m < |y| ==> x[m] != y[m]
    requires m == |x| ==> y[m] != SEP
    requires m == |y| ==> x[m] != SEP
    ensures Split(x, SEP)[0] != Split(y, SEP)[0]
  {
    var p := HeadExtent(x);
    var q := HeadExtent(y);
    assert forall i | 0 <= i < m :: x[i] == x[..m][i];
    assert forall i | 0 <= i < m :: y[i] == y[..m][i];
    assert forall i | 0 <= i < p :: x[..p][i] == x[i];
    assert forall i | 0 <= i < q :: y[..q][i] == y[i];
    assert m <= p && m <= q;
  }

  /** Texts that share everything up to and including a separator share those segments. */
  lemma SharedText(f: string, t: string, at: nat)
    requires at < |f| && at < |t| && f[..at] == t[..at] && f[at] == t[at] == SEP
    ensures var head := Split(f[..at], SEP);
      && Split(f, SEP) == head + Split(f[at + 1..], SEP)
      && Split(t, SEP) == head + Split(t[at + 1..], SEP)
  {
    hide Split;
    assert f == f[..at] + [SEP] + f[at + 1..];
    assert t == f[..at] + [SEP] + t[at + 1..];
    SplitConcat(f[..at], f[at + 1..], SEP);
    SplitConcat(f[..at], t[at + 1..], SEP);
  }

  function ClimbText(n: nat): string {
    if n == 0 then "" else if n == 1 then ".." else ClimbText(n - 1) + "/.."
  }

  lemma {:induction false} JoinClimbs(n: nat)
    ensures Join(Climbs(n), SEP) == ClimbText(n)
  {
    if n == 1 {
      assert Climbs(1) == [".."];
    } else if n > 1 {
      JoinClimbs(n - 1);
      JoinConcat(Climbs(n - 1), [".."], SEP);
    }
  }

  /** The text both paths share before the point where they part, seen as segments. */
  lemma PartingRoute(a: seq<string>, b: seq<string>, f: string, t: string, last: int)
    requires -1 <= last < |f| && last < |t|
    requires Split(f, SEP) == a && Split(t, SEP) == b
    requires last >= 0 ==> f[..last] == t[..last] && f[last] == t[last] == SEP
    requires Split(f[last + 1..], SEP)[0] != Split(t[last + 1..], SEP)[0]
    ensures Join(Route(a, b), SEP)
         == Join(Climbs(|Split(f[last + 1..], SEP)|), SEP) + [SEP] + t[last + 1..]
  {
    hide Split, Join, Route, Climbs, Shared;
    var head := PartingHead(f, t, last);
    PartingTexts(a, b, head, f[last + 1..], t[last + 1..]);
  }

  lemma PartingTexts(a: seq<string>, b: seq<string>, head: seq<string>, fr: string, tr: string)
    requires a == head + Split(fr, SEP) && b == head + Split(tr, SEP) && Split(fr, SEP)[0] != Split(tr, SEP)[0]
    ensures Join(Route(a, b), SEP) == Join(Climbs(|Split(fr, SEP)|), SEP) + [SEP] + tr
  {
    hide Split, Join, Route, Climbs, Shared;
    PartingSegments(head, Split(fr, SEP), Split(tr, SEP));
    JoinSplit(tr, SEP);
  }

  lemma PartingHead(f: string, t: string, last: int) returns (head: seq<string>)
    requires -1 <= last < |f| && last < |t|
    requires last >= 0 ==> f[..last] == t[..last] && f[last] == t[last] == SEP
    ensures Split(f, SEP) == head + Split(f[last + 1..], SEP)
    ensures Split(t, SEP) == head + Split(t[last + 1..], SEP)
  {
    hide Split;
    if last >= 0 {
      SharedText(f, t, last);
      head := Split(f[..last], SEP);
    } else {
      WholeText(f);
      WholeText(t);
      head := [];
    }
  }

  lemma WholeText(x: string)
    ensures Split(x, SEP) == [] + Split(x[0..], SEP)
  {
    hide Split;
    assert x[0..] == x;
  }

  /** Lists that part right behind a shared front: the route climbs all of the one and descends all of the other. */
  lemma PartingSegments(head: seq<string>, x: seq<string>, y: seq<string>)
    requires x != [] && y != [] && x[0] != y[0]
    ensures Join(Route(head + x, head + y), SEP) == Join(Climbs(|x|), SEP) + [SEP] + Join(y, SEP)
  {
    hide Join, Route, Climbs, Shared;
    FrontShared(head, x, y);
    SharedIs(head + x, head + y, |head|);
    RouteFrom(head, x, y);
    JoinConcat(Climbs(|x|), y, SEP);
  }

  lemma FrontShared(head: seq<string>, x: seq<string>, y: seq<string>)
    requires x != [] && y != [] && x[0] != y[0]
    ensures var a, b := head + x, head + y;
      |head| < |a| && |head| < |b| && a[..|head|] == b[..|head|] && a[|head|] != b[|head|]
  {
  }

  lemma RouteFrom(head: seq<string>, x: seq<string>, y: seq<string>)
    requires Shared(head + x, head + y) == |head|
    ensures Route(head + x, head + y) == Climbs(|x|) + y
  {
    hide Shared, Climbs;
    assert (head + y)[|head|..] == y;
  }

  /** When one list extends the other, the route only climbs or only descends. */
  lemma NestedRoute(a: seq<string>, b: seq<string>)
    requires a <= b || b <= a
    ensures a <= b ==> Route(a, b) == b[|a|..]
    ensures b <= a ==> Route(a, b) == Climbs(|a| - |b|)
  {
    SharedIs(a, b, if a <= b then |a| else |b|);
    assert b <= a ==> b[|b|..] == [];
  }

  ghost predicate Spelled(a: seq<string>, text: string) {
    Names(a) && text == Join(a, SEP)
  }

  lemma SpelledSplit(a: seq<string>, text: string)
    requires Spelled(a, text)
    ensures text == "" <==> a == []
    ensures a != [] ==> Split(text, SEP) == a && text[0] != SEP
  {
    if a != [] { JoinEnds(a); SplitJoin(a, SEP); }
  }

  lemma ExtendedText(a: seq<string>, b: seq<string>, f: string, t: string)
    requires Spelled(a, f) && Spelled(b, t) && |f| < |t| && f == t[..|f|] && t[|f|] == SEP
    ensures a != [] && b == a + Split(t[|f| + 1..], SEP)
  {
    SpelledSplit(a, f);
    SpelledSplit(b, t);
    assert t == f + [SEP] + t[|f| + 1..];
    SplitConcat(f, t[|f| + 1..], SEP);
  }

  /** `from` lies above `to`: the route is the rest of `to`. */
  lemma DescendingRoute(a: seq<string>, b: seq<string>, f: string, t: string)
    requires Spelled(a, f) && Spelled(b, t) && |f| < |t| && f == t[..|f|]
    requires t[|f|] == SEP || f == ""
    ensures Join(Route(a, b), SEP) == if t[|f|] == SEP then t[|f| + 1..] else t
  {
    SpelledSplit(a, f);
    SpelledSplit(b, t);
    if t[|f|] == SEP {
      ExtendedText(a, b, f, t);
      JoinSplit(t[|f| + 1..], SEP);
      assert b[|a|..] == Split(t[|f| + 1..], SEP);
    } else {
      assert b[0..] == b;
    }
    NestedRoute(a, b);
  }

  /** `to` lies above `from`: the route is one climb for each segment of the rest of `from`. */
  lemma ClimbingRoute(a: seq<string>, b: seq<string>, f: string, t: string)
    requires Spelled(a, f) && Spelled(b, t) && |t| < |f| && t == f[..|t|]
    requires f[|t|] == SEP || t == ""
    ensures Join(Route(a, b), SEP) == Join(Climbs(|Split(f[|t| + 1..], SEP)|), SEP)
  {
    SpelledSplit(a, f);
    SpelledSplit(b, t);
    if f[|t|] == SEP { ExtendedText(b, a, t, f); }
    NestedRoute(a, b);
  }

  /** What the first loop of `relative` knows of two absolute paths after `i` steps past the root. */
  ghost predicate Scanned(f: string, t: string, i: nat, last: int) {
    && i < |f| && i < |t| && -1 <= last < i
    && (forall k | 1 <= k <= i :: f[k] == t[k])
    && (last >= 0 ==> f[last + 1] == SEP)
    && (forall k | last + 2 <= k <= i :: f[k] != SEP)
  }

  ghost predicate Parted(f: string, t: string, i: nat, last: int) {
    && Scanned(f, t, i, last)
    && (i + 1 < |f| || i + 1 < |t|)
    && (i + 1 < |f| && i + 1 < |t| ==> f[i + 1] != t[i + 1])
    && (i + 1 == |f| ==> t[i + 1] != SEP)
    && (i + 1 == |t| ==> f[i + 1] != SEP)
  }

  lemma PartedHeads(f: string, t: string, i: nat, last: int)
    requires Parted(f, t, i, last)
    ensures Split(f[last + 2..], SEP)[0] != Split(t[last + 2..], SEP)[0]
  {
    var fr, tr := f[last + 2..], t[last + 2..];
    var m := i - (last + 1);
    assert fr[..m] == tr[..m];
    HeadsDiffer(fr, tr, m);
  }

  /** The two paths part after `i` steps, and their last shared separator is the one at `last`. */
  lemma PartedRoute(a: seq<string>, b: seq<string>, f: string, t: string, i: nat, last: int)
    requires |f| > 1 && |t| > 1 && Spelled(a, f[1..]) && Spelled(b, t[1..]) && Parted(f, t, i, last)
    ensures Join(Route(a, b), SEP) == Join(Climbs(|Split(f[last + 2..], SEP)|), SEP) + [SEP] + t[last + 2..]
  {
    var fs, ts := f[1..], t[1..];
    SpelledSplit(a, fs);
    SpelledSplit(b, ts);
    PartedHeads(f, t, i, last);
    assert f[last + 2..] == fs[last + 1..] && t[last + 2..] == ts[last + 1..];
    if last >= 0 { assert fs[..last] == ts[..last]; }
    PartingRoute(a, b, fs, ts, last);
  }

  /** What `relative` returns when its last common separator is `last`. */
  ghost function Returned(f: string, t: string, last: int): string
    requires -1 <= last && last + 2 <= |f| && last + 1 <= |t|
  {
    ClimbText(Count(f, SEP, last + 2, |f|) + 1) + t[last + 1..]
  }

  lemma PartedText(a: seq<string>, b: seq<string>, f: string, t: string, i: nat, last: int)
    requires |f| > 1 && |t| > 1 && Spelled(a, f[1..]) && Spelled(b, t[1..]) && Parted(f, t, i, last) && t[0] == SEP
    ensures Join(Route(a, b), SEP) == Returned(f, t, last)
  {
    PartedRoute(a, b, f, t, i, last);
    ReturnedText(f, t, last);
  }

  lemma ReturnedText(f: string, t: string, last: int)
    requires -1 <= last && last + 2 <= |f| && last + 2 <= |t| && t[last + 1] == SEP
    ensures Returned(f, t, last) == Join(Climbs(|Split(f[last + 2..], SEP)|), SEP) + [SEP] + t[last + 2..]
  {
    SplitLength(f, SEP, last + 2, |f|);
    assert f[last + 2..] == f[last + 2..|f|];
    var n := Count(f, SEP, last + 2, |f|) + 1;
    JoinClimbs(n);
    assert t[last + 1..] == [SEP] + t[last + 2..];
    ConcatAssociates(ClimbText(n), [SEP], t[last + 2..]);
  }

  lemma DescendingText(a: seq<string>, b: seq<string>, f: string, t: string, last: int)
    requires 1 <= |f| < |t| && Spelled(a, f[1..]) && Spelled(b, t[1..]) && Scanned(f, t, |f| - 1, last)
    requires t[|f|] == SEP || |f| == 1
    ensures Join(Route(a, b), SEP) == if t[|f|] == SEP then t[|f| + 1..] else t[1..]
  {
    assert f[1..] == t[1..|f|];
    DescendingRoute(a, b, f[1..], t[1..]);
    assert t[1..][|f|..] == t[|f| + 1..];
  }

  lemma ScannedAll(f: string, t: string, last: int)
    requires 1 <= |t| < |f| && Scanned(f, t, |t| - 1, last)
    ensures t[1..] == f[1..|t|]
  {
  }

  lemma ClimbingText(a: seq<string>, b: seq<string>, f: string, t: string, last: int)
    requires 1 <= |t| < |f| && Spelled(a, f[1..]) && Spelled(b, t[1..]) && Scanned(f, t, |t| - 1, last)
    requires f[|t|] == SEP || |t| == 1
    ensures Join(Route(a, b), SEP) == Returned(f, t, |t| - 1)
  {
    hide Split, Join, Route, Climbs, Spelled;
    ScannedAll(f, t, last);
    assert t[1..] == f[1..|t|];
    assert f[1..][..|t| - 1] == f[1..|t|];
    ClimbingRoute(a, b, f[1..], t[1..]);
    assert f[1..][|t|..] == f[|t| + 1..];
    SplitLength(f, SEP, |t| + 1, |f|);
    JoinClimbs(|Split(f[|t| + 1..], SEP)|);
    assert f[|t| + 1..] == f[|t| + 1..|f|];
    assert t[|t|..] == "";
  }

  /** The branches of `relative` over two resolved paths, after the first loop stopped at `i`. */
  ghost function Chosen(f: string, t: string, i: nat, last: int): string
    requires Scanned(f, t, i, last)
  {
    if i + 1 == |f| < |t| && (t[i + 1] == SEP || i == 0) then
      if t[i + 1] == SEP then t[i + 2..] else t[i + 1..]
    else if i + 1 == |t| < |f| && (f[i + 1] == SEP || i == 0) then Returned(f, t, i)
    else Returned(f, t, last)
  }

  lemma ChosenRoute(a: seq<string>, b: seq<string>, f: string, t: string, i: nat, last: int)
    requires f != t && IsAbsolute(f) && IsAbsolute(t) && Scanned(f, t, i, last)
    requires Spelled(a, f[1..]) && Spelled(b, t[1..])
    requires i + 1 < |f| && i + 1 < |t| ==> f[i + 1] != t[i + 1]
    ensures Chosen(f, t, i, last) == Join(Route(a, b), SEP)
  {
    if i + 1 == |f| < |t| && (t[i + 1] == SEP || i == 0) {
      DescendingText(a, b, f, t, last);
    } else if i + 1 == |t| < |f| && (f[i + 1] == SEP || i == 0) {
      ClimbingText(a, b, f, t, last);
    } else {
      assert i + 1 == |f| == |t| ==> f == t;
      PartedText(a, b, f, t, i, last);
    }
  }

  /** The first loop of `relative`: how far both paths agree after the root, and the last separator they share. */
  method ScanShared(f: string, t: string, length: nat) returns (i: nat, lastCommonSep: int)
    requires length < |f| && length < |t|
    ensures i <= length && Scanned(f, t, i, lastCommonSep)
    ensures i < length ==> f[1 + i] != t[1 + i]
  {
    lastCommonSep := -1;
    i := 0;
    while i < length
      invariant i <= length && Scanned(f, t, i, lastCommonSep)
    {
      var fromCode := f[1 + i];
      if fromCode != t[1 + i] {
        break;
      } else if fromCode == SEP {
        lastCommonSep := i;
      }
      i := i + 1;
    }
  }

  /** The second loop of `relative`: a climb at every later separator of `from` and one at its end, then `to`. */
  method ClimbThenDescend(from: string, to: string, last: int) returns (r: string)
    requires -1 <= last && last + 2 <= |from| && last + 1 <= |to|
    ensures r == Returned(from, to, last)
  {
    var start := last + 2;
    var out := "";
    for i := start to |from| + 1
      invariant i <= |from| ==> out == ClimbText(Count(from, SEP, start, i))
      invariant i == |from| + 1 ==> out == ClimbText(Count(from, SEP, start, |from|) + 1)
    {
      if i == |from| || from[i] == SEP {
        out := out + if |out| == 0 then ".." else "/..";
      }
    }
    return out + to[last + 1..];
  }

  method RelativeResolved(f: string, t: string) returns (r: string, ghost i: nat, ghost last: int)
    requires f != "" && t != ""
    ensures Scanned(f, t, i, last) && r == Chosen(f, t, i, last)
    ensures i + 1 < |f| && i + 1 < |t| ==> f[i + 1] != t[i + 1]
  {
    var fromLen := |f| - 1;
    var toLen := |t| - 1;
    var length := if fromLen < toLen then fromLen else toLen;
    var k, lastCommonSep := ScanShared(f, t, length);
    i, last := k, lastCommonSep;
    if k == length {
      if toLen > length {
        if t[k + 1] == SEP {
          r := t[k + 2..];
          return;
        }
        if k == 0 {
          r := t[k + 1..];
          return;
        }
      } else if fromLen > length {
        if f[k + 1] == SEP {
          lastCommonSep := k;
        } else if k == 0 {
          lastCommonSep := 0;
        }
      }
    }
    r := ClimbThenDescend(f, t, lastCommonSep);
  }

  lemma VisitSpelled(cwd: string, path: string)
    requires IsAbsolute(cwd)
    ensures Spelled(Visit(cwd, [path]), Join(Visit(cwd, [path]), SEP))
    ensures Resolved(cwd, [path]) == [SEP] + Join(Visit(cwd, [path]), SEP)
  {
    ResolveVisits(cwd, [path]);
    CanonicalParts(Visit(cwd, [path]), true);
  }

  method Relative(cwd: string, from: string, to: string) returns (r: string)
    requires IsAbsolute(cwd)
    ensures r == Join(Route(Visit(cwd, [from]), Visit(cwd, [to])), SEP)
  {
    ghost var a, b := Visit(cwd, [from]), Visit(cwd, [to]);
    VisitSpelled(cwd, from);
    VisitSpelled(cwd, to);
    if from == to {
      NestedRoute(a, b);
      return "";
    }
    var f := Resolve(cwd, [from]);
    var t := Resolve(cwd, [to]);
    assert Join(a, SEP) == f[1..] && Join(b, SEP) == t[1..];
    if f == t {
      SpelledSplit(a, f[1..]);
      SpelledSplit(b, t[1..]);
      NestedRoute(a, b);
      return "";
    }
    ghost var i, last;
    r, i, last := RelativeResolved(f, t);
    ChosenRoute(a, b, f, t, i, last);
  }

  /** Following the route from `a` arrives at `b`. */
  lemma {:induction false} RouteArrives(a: seq<string>, b: seq<string>)
    requires Names(a) && Names(b)
    ensures Run(a, Route(a, b), true) == b
  {
    hide Run, Climbs, Shared, Names;
    var k := Shared(a, b);
    RunConcat(a, Climbs(|a| - k), b[k..], true);
    ClimbRun(a, |a| - k);
    assert a[..k] + b[k..] == b;
    CanonicalNames(b, true);
    RunAppends(a[..k], b[k..], true);
  }

  lemma {:induction false} ClimbRun(a: seq<string>, n: nat)
    requires n <= |a| && Names(a)
    ensures Run(a, Climbs(n), true) == a[..|a| - n]
  {
    if n == 0 {
      assert a[..|a|] == a;
    } else {
      RunConcat(a, Climbs(n - 1), [".."], true);
      ClimbRun(a, n - 1);
      assert a[..|a| - (n - 1)][..|a| - n] == a[..|a| - n];
    }
  }

  /**
   `relative` inverts `resolve`: for every two paths and every absolute working directory, resolving the
   path that `relative` returns against `from` gives the resolution of `to`.
   */
  lemma RelativeInverts(cwd: string, from: string, to: string)
    requires IsAbsolute(cwd)
    ensures var relative := Join(Route(Visit(cwd, [from]), Visit(cwd, [to])), SEP);
      Resolved(cwd, [from, relative]) == Resolved(cwd, [to])
  {
    var a, b := Visit(cwd, [from]), Visit(cwd, [to]);
    VisitSpelled(cwd, from);
    VisitSpelled(cwd, to);
    var route := Route(a, b);
    var relative := Join(route, SEP);
    ResolveVisits(cwd, [from, relative]);
    RouteArrives(a, b);
    assert [from, relative][..1] == [from];
    if route != [] { RouteText(a, b); }
  }

  lemma RouteText(a: seq<string>, b: seq<string>)
    requires Names(a) && Names(b) && Route(a, b) != []
    ensures Split(Join(Route(a, b), SEP), SEP) == Route(a, b)
    ensures var text := Join(Route(a, b), SEP); text != "" && text[0] != SEP
  {
    var route := Route(a, b);
    RouteSolid(a, b);
    JoinEnds(route);
    SplitJoin(route, SEP);
  }

  lemma RouteSolid(a: seq<string>, b: seq<string>)
    requires Names(a) && Names(b)
    ensures Solid(Route(a, b)) && Free(Route(a, b), SEP)
  {
    var n := |a| - Shared(a, b);
    var route := Route(a, b);
    assert forall i | 0 <= i < |route| :: route[i] == (if i < n then ".." else b[Shared(a, b) + i - n]);
  }
}
