/**
 The bundler's import graph (node/qn/bundle.js) in the words of its inputs: which files an import leads to, which
 files cannot be bundled, what is written for each import, and what replacing one import does to the text.
 */
module BundleLaws {
  import opened Wrappers
  import opened Bundle

  /** An import of a parsed file, or the runtime import that its transform adds. */
  ghost predicate Imported(s: Source, spec: string) {
    s.Parsed? && (spec in s.imports || s.runtime == Some(spec))
  }

  predicate NamesBuiltin(spec: string) {
    |spec| >= 5 && spec[..5] == "node:"
  }

  /** An import that is no declared external and no builtin is that of the file it resolves to. */
  predicate LeadsTo(env: Env, spec: string, from: Path, q: Path) {
    spec !in env.external && !NamesBuiltin(spec) && env.resolve(spec, from) == Some(q)
  }

  /** An import of a builtin that the browser does not have. */
  predicate Refused(env: Env, spec: string) {
    env.browser && spec !in env.external && NamesBuiltin(spec)
  }

  lemma TargetMeans(env: Env, spec: string, from: Path)
    ensures TargetOf(env, spec, from) == Forbidden <==> Refused(env, spec)
    ensures forall q :: TargetOf(env, spec, from) == File(q) <==> LeadsTo(env, spec, from, q)
  {
    assert NODE_SCHEME <= spec <==> NamesBuiltin(spec);
  }

  lemma SpecAt(s: Source, spec: string)
    ensures spec in SpecsOf(s) <==> Imported(s, spec)
  {
  }

  lemma TargetAt(env: Env, from: Path, specs: seq<string>, t: Target)
    ensures t in TargetsOf(env, from, specs) <==> exists spec <- specs :: TargetOf(env, spec, from) == t
  {
    hide TargetOf;
    var targets := TargetsOf(env, from, specs);
    assert forall i | 0 <= i < |specs| :: targets[i] == TargetOf(env, specs[i], from);
  }

  /** There is an edge from a file exactly to the files that its imports and its runtime import lead to. */
  lemma EdgeMeans(env: Env, p: Path, q: Path)
    ensures Edge(env, p, q) <==>
      p in env.files && exists spec :: Imported(env.files[p], spec) && LeadsTo(env, spec, p, q)
  {
    hide TargetOf, TargetsOf, SpecsOf, LeadsTo, Imported;
    if p in env.files {
      TargetAt(env, p, SpecsOf(env.files[p]), File(q));
      forall spec ensures spec in SpecsOf(env.files[p]) <==> Imported(env.files[p], spec) {
        SpecAt(env.files[p], spec);
      }
      forall spec ensures TargetOf(env, spec, p) == File(q) <==> LeadsTo(env, spec, p, q) {
        TargetMeans(env, spec, p);
      }
    }
  }

  /**
   A file cannot be bundled exactly when it cannot be parsed, when its transformed text is not plain, or when it imports
   a builtin for the browser without declaring it external.
   */
  lemma FaultMeans(env: Env, p: Path)
    requires p in env.files
    ensures AtFault(env, p) <==>
      || env.files[p].Unparsable?
      || !env.files[p].plain
      || exists spec :: Imported(env.files[p], spec) && Refused(env, spec)
  {
    hide TargetOf, TargetsOf, SpecsOf, Refused, Imported;
    TargetAt(env, p, SpecsOf(env.files[p]), Forbidden);
    forall spec ensures spec in SpecsOf(env.files[p]) <==> Imported(env.files[p], spec) {
      SpecAt(env.files[p], spec);
    }
    forall spec ensures TargetOf(env, spec, p) == Forbidden <==> Refused(env, spec) {
      TargetMeans(env, spec, p);
    }
  }

  /** What is written for one import: the id of the module of the file it leads to, or nothing. */
  ghost predicate Written(env: Env, modules: map<nat, Module>, from: Path, spec: string, dep: Option<nat>) {
    && (dep.None? ==> forall q :: !LeadsTo(env, spec, from, q))
    && (dep.Some? ==> dep.value in modules && LeadsTo(env, spec, from, modules[dep.value].filePath))
  }

  /** In a finished bundle every import, in its place, and behind them the runtime import, has what is written for it. */
  lemma DepsMean(env: Env, modules: map<nat, Module>, m: Module)
    requires NotDangling(env, modules, m) && env.files[m.filePath].Parsed?
    ensures var s := env.files[m.filePath];
      && |m.deps| == |s.imports| + (if s.runtime.Some? then 1 else 0)
      && (forall i | 0 <= i < |s.imports| :: Written(env, modules, m.filePath, s.imports[i], m.deps[i]))
      && (s.runtime.Some? ==> Written(env, modules, m.filePath, s.runtime.value, m.deps[|s.imports|]))
  {
    hide TargetOf, LeadsTo;
    var s := env.files[m.filePath];
    var specs := SpecsOf(s);
    forall i | 0 <= i < |specs| ensures Written(env, modules, m.filePath, specs[i], m.deps[i]) {
      TargetMeans(env, specs[i], m.filePath);
    }
  }

  // ---- one rewritten import ----

  lemma {:induction false} OthersUntouched(code: string, imports: seq<Import>, k: nat, text: string, i: nat)
    requires InOrder(code, imports) && k < i <= |imports|
    ensures EndOf(imports, i) <= |code| && Spliced(code, imports, map[k := text], i) == code[EndOf(imports, i)..]
    decreases |imports| - i
  {
    if i < |imports| {
      var from, m, rest := EndOf(imports, i), imports[i], Spliced(code, imports, map[k := text], i + 1);
      assert Spliced(code, imports, map[k := text], i) == code[from..m.start] + code[m.start..m.end] + rest;
      hide Spliced;
      OthersUntouched(code, imports, k, text, i + 1);
      JoinThree(code, from, m.start, m.end);
    }
  }

  /** Rewriting one import replaces its range, and nothing else. */
  lemma {:induction false} OneRewritten(code: string, imports: seq<Import>, k: nat, text: string, i: nat)
    requires InOrder(code, imports) && i <= k < |imports|
    ensures EndOf(imports, i) <= imports[k].start <= imports[k].end <= |code|
    ensures Spliced(code, imports, map[k := text], i)
         == code[EndOf(imports, i)..imports[k].start] + text + code[imports[k].end..]
    decreases |imports| - i
  {
    hide Spliced;
    SpliceHere(code, imports, k, text, i);
    if i == k {
      OthersUntouched(code, imports, k, text, i + 1);
    } else {
      OneRewritten(code, imports, k, text, i + 1);
      var from, m, end := EndOf(imports, i), imports[i], imports[k].start;
      JoinRanges(code, from, m.start, m.end, end, text, code[imports[k].end..]);
    }
  }

  lemma SpliceHere(code: string, imports: seq<Import>, k: nat, text: string, i: nat)
    requires InOrder(code, imports) && i <= k < |imports|
    ensures EndOf(imports, i) <= imports[i].start <= imports[i].end == EndOf(imports, i + 1)
    ensures Spliced(code, imports, map[k := text], i)
      == code[EndOf(imports, i)..imports[i].start]
         + (if i == k then text else code[imports[i].start..imports[i].end])
         + Spliced(code, imports, map[k := text], i + 1)
  {
  }

  lemma JoinRanges(code: string, a: nat, b: nat, c: nat, d: nat, text: string, tail: string)
    requires a <= b <= c <= d <= |code|
    ensures code[a..b] + code[b..c] + (code[c..d] + text + tail) == code[a..d] + text + tail
  {
    JoinSlices(code, a, b, c);
    JoinSlices(code, a, c, d);
    Regroup(code[a..c], code[c..d], text, tail);
  }

  lemma Regroup(a: string, b: string, c: string, d: string)
    ensures a + (b + c + d) == (a + b) + c + d
  {
  }
}
