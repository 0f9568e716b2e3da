/**
 Inherited path settings of a TypeScript configuration (node/qn/tsconfig-paths.js): the memoised walk over `extends`
 and the choice of a `paths` pattern.

 The law: on every acyclic graph, with whatever cache earlier calls left, loading a configuration gives the base URL
 and the paths each of its last definer in the order of inheritance, the configuration itself last. The walk ends on
 every finite graph.
 */
module TsconfigPaths {
  import opened Sequences
  import opened Wrappers

  type Path = string
  type Targets = map<string, seq<string>>

  /** A parsed configuration: its `extends` list and its own two options. */
  datatype Raw = Raw(extended: seq<string>, baseUrl: Option<string>, paths: Option<Targets>)

  /**
   The files there are, None for one that does not parse; what `resolveExtends` finds for a name in a directory; and
   `dirname`.
   */
  datatype Env = Env(files: map<Path, Option<Raw>>, resolve: (string, Path) -> Option<Path>, dirname: Path -> Path)

  /** `resolveExtends` returns existing files only. */
  ghost predicate Finds(env: Env) {
    forall name, dir :: env.resolve(name, dir).Some? ==> env.resolve(name, dir).value in env.files
  }

  /** Each field with the directory of the configuration that defined it. */
  datatype Merged = Merged(baseUrl: Option<(string, Path)>, paths: Option<(Targets, Path)>)

  const NOTHING: Merged := Merged(None, None)

  // ---- the uncached meaning ----

  function RawOf(env: Env, path: Path): Raw {
    if path in env.files && env.files[path].Some? then env.files[path].value else Raw([], None, None)
  }

  /** What a configuration defines itself. */
  function Own(env: Env, path: Path): Merged {
    var raw := RawOf(env, path);
    Merged(
      if raw.baseUrl.Some? then Some((raw.baseUrl.value, env.dirname(path))) else None,
      if raw.paths.Some? then Some((raw.paths.value, env.dirname(path))) else None)
  }

  /** The later definition of each field, independently. */
  function Over(first: Merged, later: Merged): Merged {
    Merged(
      if later.baseUrl.Some? then later.baseUrl else first.baseUrl,
      if later.paths.Some? then later.paths else first.paths)
  }

  /** No cycle: what a configuration extends has a lower rank. */
  ghost predicate Ranked(env: Env, rank: Path -> nat) {
    forall path, name ::
      var p := env.resolve(name, env.dirname(path));
      p.Some? && name in RawOf(env, path).extended ==> rank(p.value) < rank(path)
  }

  /** All configurations that bear on one, in the order in which they take effect: the inherited first, itself last. */
  ghost function Line(env: Env, rank: Path -> nat, path: Path): seq<Path>
    requires Ranked(env, rank)
    decreases rank(path), 1, 0
  {
    Lines(env, rank, path, RawOf(env, path).extended) + [path]
  }

  ghost function Lines(env: Env, rank: Path -> nat, path: Path, names: seq<string>): seq<Path>
    requires Ranked(env, rank) && forall n <- names :: n in RawOf(env, path).extended
    decreases rank(path), 0, |names|
  {
    if names == [] then []
    else
      (match env.resolve(names[0], env.dirname(path)) case None => [] case Some(p) => Line(env, rank, p))
        + Lines(env, rank, path, names[1..])
  }

  /** The last definer of each field along a line. */
  function LastDefined(env: Env, line: seq<Path>): Merged {
    if line == [] then NOTHING
    else Over(LastDefined(env, line[..|line| - 1]), Own(env, line[|line| - 1]))
  }

  function ResultOf(m: Merged): Option<Merged> {
    if m.paths.Some? || m.baseUrl.Some? then Some(m) else None
  }

  ghost function Meaning(env: Env, rank: Path -> nat, path: Path): Option<Merged>
    requires Ranked(env, rank)
  {
    ResultOf(LastDefined(env, Line(env, rank, path)))
  }

  lemma OverAssociates(a: Merged, b: Merged, c: Merged)
    ensures Over(Over(a, b), c) == Over(a, Over(b, c)) && Over(a, NOTHING) == a && Over(NOTHING, a) == a
  {
  }

  lemma {:induction false} LastDefinedConcat(env: Env, a: seq<Path>, b: seq<Path>)
    ensures LastDefined(env, a + b) == Over(LastDefined(env, a), LastDefined(env, b))
    decreases |b|
  {
    hide Own, Over;
    if b == [] {
      assert a + b == a;
      OverAssociates(LastDefined(env, a), NOTHING, NOTHING);
    } else {
      var front, last := b[..|b| - 1], b[|b| - 1];
      assert (a + b)[..|a + b| - 1] == a + front;
      LastDefinedConcat(env, a, front);
      OverAssociates(LastDefined(env, a), LastDefined(env, front), Own(env, last));
    }
  }

  lemma {:induction false} LinesSnoc(env: Env, rank: Path -> nat, path: Path, names: seq<string>, name: string)
    requires Ranked(env, rank) && forall n <- names + [name] :: n in RawOf(env, path).extended
    ensures forall n <- names :: n in names + [name]
    ensures name in names + [name]
    ensures Lines(env, rank, path, names + [name]) == Lines(env, rank, path, names) + LineOf(env, rank, path, name)
    decreases |names|
  {
    hide Ranked, RawOf, Line;
    var all := names + [name];
    assert forall n <- names :: n in all;
    assert name in all;
    if names == [] {
      assert all[1..] == [] && all[0] == name;
      assert LineOf(env, rank, path, name) + [] == [] + LineOf(env, rank, path, name);
    } else {
      assert all[1..] == names[1..] + [name] && all[0] == names[0];
      LinesSnoc(env, rank, path, names[1..], name);
    }
  }

  /** The line of what one name resolves to. */
  ghost function LineOf(env: Env, rank: Path -> nat, path: Path, name: string): seq<Path>
    requires Ranked(env, rank)
  {
    match env.resolve(name, env.dirname(path)) case None => [] case Some(p) => Line(env, rank, p)
  }

  lemma {:induction false} LastOwnBaseUrl(env: Env, line: seq<Path>, k: nat)
    requires k < |line| && Own(env, line[k]).baseUrl.Some?
    requires forall j | k < j < |line| :: Own(env, line[j]).baseUrl.None?
    ensures LastDefined(env, line).baseUrl == Own(env, line[k]).baseUrl
    decreases |line|
  {
    hide Own;
    if k < |line| - 1 { LastOwnBaseUrl(env, line[..|line| - 1], k); }
  }

  lemma {:induction false} LastOwnPaths(env: Env, line: seq<Path>, k: nat)
    requires k < |line| && Own(env, line[k]).paths.Some?
    requires forall j | k < j < |line| :: Own(env, line[j]).paths.None?
    ensures LastDefined(env, line).paths == Own(env, line[k]).paths
    decreases |line|
  {
    hide Own;
    if k < |line| - 1 { LastOwnPaths(env, line[..|line| - 1], k); }
  }

  /** The file at `path` parses and sets a base URL. */
  predicate SetsBaseUrl(env: Env, path: Path) {
    path in env.files && env.files[path].Some? && env.files[path].value.baseUrl.Some?
  }

  predicate SetsPaths(env: Env, path: Path) {
    path in env.files && env.files[path].Some? && env.files[path].value.paths.Some?
  }

  /** The base URL comes from the last file of the line that sets one, with the directory of that file. */
  lemma LastBaseUrl(env: Env, line: seq<Path>, k: nat)
    requires k < |line| && SetsBaseUrl(env, line[k])
    requires forall j | k < j < |line| :: !SetsBaseUrl(env, line[j])
    ensures LastDefined(env, line).baseUrl
         == Some((env.files[line[k]].value.baseUrl.value, env.dirname(line[k])))
  {
    LastOwnBaseUrl(env, line, k);
  }

  /** And the paths from the last one that sets those, whichever sets the base URL. */
  lemma LastPaths(env: Env, line: seq<Path>, k: nat)
    requires k < |line| && SetsPaths(env, line[k])
    requires forall j | k < j < |line| :: !SetsPaths(env, line[j])
    ensures LastDefined(env, line).paths
         == Some((env.files[line[k]].value.paths.value, env.dirname(line[k])))
  {
    LastOwnPaths(env, line, k);
  }

  /** A field no configuration of the line sets stays unset. */
  lemma {:induction false} NeverDefined(env: Env, line: seq<Path>)
    ensures (forall j | 0 <= j < |line| :: Own(env, line[j]).baseUrl.None?) ==> LastDefined(env, line).baseUrl.None?
    ensures (forall j | 0 <= j < |line| :: Own(env, line[j]).paths.None?) ==> LastDefined(env, line).paths.None?
    decreases |line|
  {
    hide Own;
    if line != [] {
      var front := line[..|line| - 1];
      assert forall j | 0 <= j < |front| :: front[j] == line[j];
      NeverDefined(env, front);
    }
  }

  lemma {:induction false} LinesAre(
    env: Env, rank: Path -> nat, path: Path, names: seq<string>, lines: seq<seq<Path>>)
    requires Ranked(env, rank) && (forall n <- names :: n in RawOf(env, path).extended) && |lines| == |names|
    requires forall i | 0 <= i < |names| ::
      lines[i] == match env.resolve(names[i], env.dirname(path)) case None => [] case Some(p) => Line(env, rank, p)
    ensures Lines(env, rank, path, names) == Flatten(lines)
    decreases |names|
  {
    hide Ranked, RawOf, Line;
    if names != [] { LinesAre(env, rank, path, names[1..], lines[1..]); }
  }

  /**
   The line of a file: the lines of what the names of its `extends` list resolve to from its own directory, in the order
   of the list, a name that resolves to nothing left out, and then the file itself.
   */
  lemma LineIs(env: Env, rank: Path -> nat, path: Path, lines: seq<seq<Path>>)
    requires Ranked(env, rank) && path in env.files && env.files[path].Some?
    requires var names := env.files[path].value.extended;
      && |lines| == |names|
      && forall i | 0 <= i < |names| ::
           lines[i] == match env.resolve(names[i], env.dirname(path)) case None => [] case Some(p) => Line(env, rank, p)
    ensures Line(env, rank, path) == Flatten(lines) + [path]
  {
    hide Ranked;
    LinesAre(env, rank, path, env.files[path].value.extended, lines);
  }

  /** A file that does not parse stands alone. */
  lemma LineAlone(env: Env, rank: Path -> nat, path: Path)
    requires Ranked(env, rank) && (path !in env.files || env.files[path].None?)
    ensures Line(env, rank, path) == [path]
  {
    hide Ranked;
  }

  /** The ranks only witness that there is no cycle: they do not matter to the order. */
  lemma {:induction false} RanksAgree(env: Env, rank1: Path -> nat, rank2: Path -> nat, path: Path)
    requires Ranked(env, rank1) && Ranked(env, rank2)
    ensures Line(env, rank1, path) == Line(env, rank2, path)
    decreases rank1(path), 1, 0
  {
    hide Ranked, RawOf;
    RanksAgreeOn(env, rank1, rank2, path, RawOf(env, path).extended);
  }

  lemma {:induction false} RanksAgreeOn(
    env: Env, rank1: Path -> nat, rank2: Path -> nat, path: Path, names: seq<string>)
    requires Ranked(env, rank1) && Ranked(env, rank2) && forall n <- names :: n in RawOf(env, path).extended
    ensures Lines(env, rank1, path, names) == Lines(env, rank2, path, names)
    decreases rank1(path), 0, |names|
  {
    if names != [] {
      var p := env.resolve(names[0], env.dirname(path));
      if p.Some? {
        assert names[0] in names;
        RanksAgree(env, rank1, rank2, p.value);
      }
      hide Ranked, RawOf, Line;
      RanksAgreeOn(env, rank1, rank2, path, names[1..]);
    }
  }

  // ---- the memoised walk ----

  /** What is merged from a cached or freshly loaded parent. */
  function Field(r: Option<Merged>): Merged {
    match r case None => NOTHING case Some(m) => m
  }

  lemma FieldOfResult(m: Merged)
    ensures Field(ResultOf(m)) == m
  {
  }

  class Loader {
    const env: Env
    /** `configCache`, which lives as long as the resolver. */
    var cache: map<Path, Option<Merged>>
    /** The `stack` set of one outermost call: nothing is ever taken out of it. */
    var stack: set<Path>

    constructor (env: Env)
      ensures this.env == env && cache == map[] && stack == {}
    {
      this.env := env;
      cache := map[];
      stack := {};
    }

    /** Every cached result is the meaning of its configuration. */
    ghost predicate Sound(rank: Path -> nat)
      reads this
      requires Ranked(env, rank)
    {
      forall p <- cache :: cache[p] == Meaning(env, rank, p)
    }

    /** What is on the stack is finished, or is being loaded and ranks at least as high as `level`. */
    ghost predicate Above(rank: Path -> nat, level: nat)
      reads this
    {
      forall p <- stack :: p in cache || rank(p) >= level
    }

    /** An outermost call of `loadConfig`. */
    method Load(configPath: Path, ghost rank: Path -> nat) returns (r: Option<Merged>)
      requires configPath in env.files && Finds(env)
      modifies this
      ensures Ranked(env, rank) && old(Sound(rank)) ==> Sound(rank) && r == Meaning(env, rank, configPath)
    {
      stack := {};
      r := LoadConfig(configPath, rank);
    }

    method LoadConfig(configPath: Path, ghost rank: Path -> nat) returns (r: Option<Merged>)
      requires configPath in env.files && Finds(env)
      modifies this
      ensures old(stack) <= stack
      ensures Ranked(env, rank) && old(Sound(rank)) && old(Above(rank, rank(configPath) + 1)) ==>
        && Sound(rank)
        && r == Meaning(env, rank, configPath)
        && (forall p <- stack :: p in old(stack) || p in cache)
        && old(cache).Keys <= cache.Keys
      decreases env.files.Keys - stack, 0
    {
      hide Ranked, Finds, Meaning, Own, Over, RawOf;
      if configPath in cache { return cache[configPath]; }
      if configPath in stack { return None; }
      ghost var good := Ranked(env, rank) && Sound(rank) && Above(rank, rank(configPath) + 1);
      stack := stack + {configPath};
      assert good ==> Sound(rank) && Above(rank, rank(configPath));
      var raw := RawOf(env, configPath);
      assert forall n <- raw.extended :: n in raw.extended;
      var merged := ApplyExtends(configPath, raw.extended, rank);
      if good { MeaningIs(env, rank, configPath, merged); }
      merged := Over(merged, Own(env, configPath));
      r := ResultOf(merged);
      cache := cache[configPath := r];
    }

    /** The loop over `extends`. */
    method ApplyExtends(configPath: Path, names: seq<string>, ghost rank: Path -> nat) returns (merged: Merged)
      requires configPath in env.files && Finds(env)
      requires forall n <- names :: n in RawOf(env, configPath).extended
      modifies this
      ensures old(stack) <= stack
      ensures Ranked(env, rank) && old(Sound(rank)) && old(Above(rank, rank(configPath))) ==>
        && Sound(rank)
        && merged == LastDefined(env, Lines(env, rank, configPath, names))
        && (forall p <- stack :: p in old(stack) || p in cache)
        && old(cache).Keys <= cache.Keys
      decreases env.files.Keys - stack, 1
    {
      hide Ranked, Finds, Lines, LastDefined, Meaning, Over, RawOf, Line;
      merged := NOTHING;
      ghost var good := Ranked(env, rank) && Sound(rank) && Above(rank, rank(configPath));
      if good { NoLines(env, rank, configPath, names); }
      for i := 0 to |names|
        invariant old(stack) <= stack
        invariant good ==> (forall n <- names[..i] :: n in RawOf(env, configPath).extended)
        invariant good ==> Sound(rank) && Above(rank, rank(configPath))
        invariant good ==> merged == LastDefined(env, Lines(env, rank, configPath, names[..i]))
        invariant good ==> (forall p <- stack :: p in old(stack) || p in cache) && old(cache).Keys <= cache.Keys
      {
        assert names[..i + 1] == names[..i] + [names[i]];
        if good { NextLine(env, rank, configPath, names[..i], names[i], merged); }
        var parent := env.resolve(names[i], env.dirname(configPath));
        if parent.Some? {
          Found(env, names[i], env.dirname(configPath));
          assert env.files.Keys - stack <= env.files.Keys - old(stack);
          assert good ==> Above(rank, rank(parent.value) + 1);
          var parentCfg := LoadConfig(parent.value, rank);
          merged := Over(merged, Field(parentCfg));
        }
      }
      assert names[..|names|] == names;
    }
  }

  lemma Found(env: Env, name: string, dir: Path)
    requires Finds(env) && env.resolve(name, dir).Some?
    ensures env.resolve(name, dir).value in env.files
  {
  }

  lemma NoLines(env: Env, rank: Path -> nat, path: Path, names: seq<string>)
    requires Ranked(env, rank) && forall n <- names :: n in RawOf(env, path).extended
    ensures LastDefined(env, Lines(env, rank, path, names[..0])) == NOTHING
  {
    hide Ranked;
  }

  /** One more name of the list: nothing if it resolves to nothing, else the meaning of what it resolves to. */
  lemma NextLine(env: Env, rank: Path -> nat, path: Path, names: seq<string>, name: string, merged: Merged)
    requires Ranked(env, rank) && (forall n <- names :: n in RawOf(env, path).extended)
    requires name in RawOf(env, path).extended && merged == LastDefined(env, Lines(env, rank, path, names))
    ensures forall n <- names + [name] :: n in RawOf(env, path).extended
    ensures var p := env.resolve(name, env.dirname(path));
      && (p.Some? ==> rank(p.value) < rank(path))
      && LastDefined(env, Lines(env, rank, path, names + [name]))
         == if p.Some? then Over(merged, Field(Meaning(env, rank, p.value))) else merged
  {
    var p := env.resolve(name, env.dirname(path));
    if p.Some? { assert rank(p.value) < rank(path); }
    hide Ranked, RawOf, Lines, Line;
    assert forall n <- names + [name] :: n in RawOf(env, path).extended;
    LinesSnoc(env, rank, path, names, name);
    LastDefinedConcat(env, Lines(env, rank, path, names), LineOf(env, rank, path, name));
    hide Over;
    OverAssociates(merged, NOTHING, NOTHING);
    if p.Some? { FieldOfResult(LastDefined(env, Line(env, rank, p.value))); }
  }

  lemma MeaningIs(env: Env, rank: Path -> nat, path: Path, merged: Merged)
    requires Ranked(env, rank)
    requires merged == LastDefined(env, Lines(env, rank, path, RawOf(env, path).extended))
    ensures Meaning(env, rank, path) == ResultOf(Over(merged, Own(env, path)))
  {
    hide Ranked, RawOf, Lines, Over, Own;
    var before := Lines(env, rank, path, RawOf(env, path).extended);
    var line := before + [path];
    assert line[..|line| - 1] == before;
  }

  // ---- choosing a pattern ----

  /** The position of the first star, or the length. */
  function StarAt(key: string): (k: nat)
    ensures k <= |key|
    ensures k < |key| ==> key[k] == '*'
    ensures forall i | 0 <= i < k :: key[i] != '*'
  {
    if key == [] || key[0] == '*' then 0 else 1 + StarAt(key[1..])
  }

  predicate Wild(key: string) {
    StarAt(key) < |key|
  }

  function PrefixOf(key: string): string {
    key[..StarAt(key)]
  }

  function SuffixOf(key: string): string
    requires Wild(key)
  {
    key[StarAt(key) + 1..]
  }

  predicate EndsWith(s: string, end: string) {
    |end| <= |s| && s[|s| - |end|..] == end
  }

  /** `matchPattern`: what the star stands for, or nothing. */
  function MatchPattern(key: string, spec: string): Option<string> {
    if !Wild(key) then (if key == spec then Some("") else None)
    else
      var prefix, suffix := PrefixOf(key), SuffixOf(key);
      if |spec| < |prefix| + |suffix| then None
      else if !(prefix <= spec) || !EndsWith(spec, suffix) then None
      else Some(spec[|prefix|..|spec| - |suffix|])
  }

  /** A key matches with a capture exactly when the capture put in place of its first star gives the specifier. */
  lemma MatchFills(key: string, spec: string, captured: string)
    ensures MatchPattern(key, spec) == Some(captured) <==>
      if Wild(key) then spec == PrefixOf(key) + captured + SuffixOf(key) else spec == key && captured == ""
  {
    if Wild(key) {
      var prefix, suffix := PrefixOf(key), SuffixOf(key);
      hide StarAt, PrefixOf, SuffixOf;
      if spec == prefix + captured + suffix {
        assert spec[|spec| - |suffix|..] == suffix && spec[|prefix|..|spec| - |suffix|] == captured;
        assert prefix <= spec;
      }
      if MatchPattern(key, spec) == Some(captured) {
        assert spec == spec[..|prefix|] + spec[|prefix|..|spec| - |suffix|] + spec[|spec| - |suffix|..];
        assert spec[..|prefix|] == prefix;
      }
    }
  }

  /** Only the first star of a key is a wildcard: what stands before it has none. */
  lemma KeyParts(key: string)
    ensures Wild(key) <==> '*' in key
    ensures Wild(key) ==> key == PrefixOf(key) + "*" + SuffixOf(key) && '*' !in PrefixOf(key)
  {
  }

  /** The same for a key given by its parts. */
  lemma KeyMatches(prefix: string, suffix: string, spec: string, captured: string)
    requires '*' !in prefix
    ensures MatchPattern(prefix + "*" + suffix, spec) == Some(captured) <==> spec == prefix + captured + suffix
    ensures MatchPattern(prefix, spec) == Some(captured) <==> spec == prefix && captured == ""
  {
    var key := prefix + "*" + suffix;
    assert key[|prefix|] == '*' && key[..|prefix|] == prefix && key[|prefix| + 1..] == suffix;
    StarIs(key, |prefix|);
    StarIs(prefix, |prefix|);
    hide StarAt;
    MatchFills(key, spec, captured);
    MatchFills(prefix, spec, captured);
  }

  lemma StarIs(key: string, k: nat)
    requires k <= |key| && '*' !in key[..k] && (k < |key| ==> key[k] == '*')
    ensures StarAt(key) == k
  {
    assert forall i | 0 <= i < k :: key[i] == key[..k][i];
  }

  /** The comparator of `sortedPatternKeys`. */
  function Compare(a: string, b: string): int {
    if Wild(a) != Wild(b) then (if Wild(a) then 1 else -1)
    else if !Wild(a) then |b| - |a|
    else StarAt(b) - StarAt(a)
  }

  /** The comparator is an order a sort can rely on. */
  lemma CompareIsOrder(a: string, b: string, c: string)
    ensures Compare(a, a) == 0
    ensures Compare(a, b) < 0 <==> Compare(b, a) > 0
    ensures Compare(a, b) <= 0 && Compare(b, c) <= 0 ==> Compare(a, c) <= 0
  {
  }

  ghost predicate Sorted(keys: seq<string>) {
    forall i, j | 0 <= i < j < |keys| :: Compare(keys[i], keys[j]) <= 0
  }

  /** The loop of `resolve` over the sorted keys: the first that matches. */
  method FirstMatch(keys: seq<string>, spec: string) returns (best: Option<string>)
    ensures best.None? ==> forall k <- keys :: MatchPattern(k, spec) == None
    ensures best.Some? ==> best.value in keys && MatchPattern(best.value, spec).Some?
    ensures Sorted(keys) && best.Some? ==>
      forall k <- keys :: MatchPattern(k, spec).Some? ==> Compare(best.value, k) <= 0
  {
    hide Compare, MatchPattern;
    for i := 0 to |keys|
      invariant forall j | 0 <= j < i :: MatchPattern(keys[j], spec) == None
    {
      var captured := MatchPattern(keys[i], spec);
      if captured.Some? {
        CompareIsOrder(keys[i], keys[i], keys[i]);
        return Some(keys[i]);
      }
    }
    return None;
  }

  /** A best match is the specifier itself if that is a key, and otherwise has the longest prefix of all that match. */
  lemma BestIsMostSpecific(keys: seq<string>, spec: string, best: string)
    requires best in keys && MatchPattern(best, spec).Some?
    requires forall k <- keys :: MatchPattern(k, spec).Some? ==> Compare(best, k) <= 0
    ensures spec in keys && !Wild(spec) ==> best == spec
    ensures !(spec in keys && !Wild(spec)) ==>
      Wild(best) && forall k <- keys :: MatchPattern(k, spec).Some? ==> |PrefixOf(k)| <= |PrefixOf(best)|
  {
    if spec in keys && !Wild(spec) {
      assert MatchPattern(spec, spec) == Some("");
      assert !Wild(best);
    } else {
      assert Wild(best);
      forall k | k in keys && MatchPattern(k, spec).Some? ensures |PrefixOf(k)| <= |PrefixOf(best)| {
        assert Compare(best, k) <= 0;
        assert Wild(k);
      }
    }
  }
}
