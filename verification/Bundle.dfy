/**
 The bundler's worklist (node/qn/bundle.js): files are loaded from the entry on, each gets an id, and every import
 is rewritten to the id of the file it resolves to.

 The laws: the loop ends on every finite graph; it succeeds exactly when no file it can reach is at fault; and then
 the modules are exactly the files reachable from the entry, with ids of their own, and no import is left dangling.
 */
module Bundle {
  import opened Wrappers

  type Path = string

  /**
   What loading and transforming a file shows: the specifiers it imports in order, the runtime import the transform
   adds, and whether the result is free of top-level `await`.
   */
  datatype Source = Unparsable | Parsed(imports: seq<string>, runtime: Option<string>, plain: bool)

  /** The finite set of files, `resolveSpecifier`, the declared externals, and whether the target is the browser. */
  datatype Env = Env(
    files: map<Path, Source>,
    resolve: (string, Path) -> Option<Path>,
    external: set<string>,
    browser: bool)

  ghost predicate Finds(env: Env) {
    forall spec, from :: env.resolve(spec, from).Some? ==> env.resolve(spec, from).value in env.files
  }

  // ---- the import graph ----

  /** Where an import leads: outside the bundle, to a builtin that cannot be bundled, or to a file. */
  datatype Target = Outside | Forbidden | File(path: Path)

  const NODE_SCHEME: string := "node:"

  function TargetOf(env: Env, spec: string, from: Path): Target {
    if spec in env.external then Outside
    else if NODE_SCHEME <= spec then (if env.browser then Forbidden else Outside)
    else match env.resolve(spec, from) case None => Outside case Some(p) => File(p)
  }

  /** Everything a file imports, the runtime import last. */
  function SpecsOf(s: Source): seq<string> {
    match s
    case Unparsable => []
    case Parsed(imports, runtime, _) => imports + (if runtime.Some? then [runtime.value] else [])
  }

  function TargetsOf(env: Env, from: Path, specs: seq<string>): seq<Target> {
    seq(|specs|, i requires 0 <= i < |specs| => TargetOf(env, specs[i], from))
  }

  ghost predicate Edge(env: Env, p: Path, q: Path) {
    p in env.files && File(q) in TargetsOf(env, p, SpecsOf(env.files[p]))
  }

  ghost predicate Walk(env: Env, walk: seq<Path>) {
    walk != [] && forall i | 0 <= i < |walk| - 1 :: Edge(env, walk[i], walk[i + 1])
  }

  ghost predicate Reachable(env: Env, entry: Path, p: Path) {
    exists walk :: Walk(env, walk) && walk[0] == entry && walk[|walk| - 1] == p
  }

  lemma ReachEntry(env: Env, entry: Path)
    ensures Reachable(env, entry, entry)
  {
    assert Walk(env, [entry]);
  }

  lemma ReachStep(env: Env, entry: Path, p: Path, q: Path)
    requires Reachable(env, entry, p) && Edge(env, p, q)
    ensures Reachable(env, entry, q)
  {
    hide Edge;
    var walk :| Walk(env, walk) && walk[0] == entry && walk[|walk| - 1] == p;
    var longer := walk + [q];
    forall i | 0 <= i < |longer| - 1 ensures Edge(env, longer[i], longer[i + 1]) {
      if i < |walk| - 1 { assert Edge(env, walk[i], walk[i + 1]); }
    }
    assert Walk(env, longer);
  }

  /** A set that holds the entry and is closed under imports holds everything reachable. */
  lemma {:induction false} ClosedHolds(env: Env, held: set<Path>, walk: seq<Path>, i: nat)
    requires Walk(env, walk) && i < |walk| && walk[0] in held
    requires forall p <- held, q :: Edge(env, p, q) ==> q in held
    ensures walk[i] in held
  {
    hide Edge;
    if i > 0 {
      ClosedHolds(env, held, walk, i - 1);
      assert Edge(env, walk[i - 1], walk[i - 1 + 1]);
    }
  }

  /** A file that makes bundling fail. */
  predicate AtFault(env: Env, p: Path)
    requires p in env.files
  {
    match env.files[p]
    case Unparsable => true
    case Parsed(_, _, plain) => !plain || Forbidden in TargetsOf(env, p, SpecsOf(env.files[p]))
  }

  // ---- the worklist ----

  /** A bundled file with the id written for each of its imports, None where the specifier is left alone. */
  datatype Module = Module(filePath: Path, deps: seq<Option<nat>>)

  datatype Error = EntryNotFound | NotBundlable(path: Path)

  /** The id of a file as written into an import. */
  function IdFor(ids: map<Path, nat>, t: Target): Option<nat> {
    match t
    case File(q) => if q in ids then Some(ids[q]) else None
    case _ => None
  }

  predicate Known(ids: map<Path, nat>, t: Target) {
    t.File? ==> t.path in ids
  }

  /** Ids are numbers below the counter, each given once, to existing files the entry reaches. */
  ghost predicate IdsOk(env: Env, entry: Path, ids: map<Path, nat>, counter: nat) {
    && (forall p <- ids :: p in env.files && ids[p] < counter && Reachable(env, entry, p))
    && (forall p <- ids, q <- ids :: ids[p] == ids[q] ==> p == q)
  }

  predicate Loaded(ids: map<Path, nat>, modules: map<nat, Module>, p: Path) {
    p in ids && ids[p] in modules
  }

  /** A module is that of the file with its id, not at fault, and its imports carry the ids of their files. */
  ghost predicate ModuleOk(env: Env, ids: map<Path, nat>, id: nat, m: Module) {
    && m.filePath in ids && ids[m.filePath] == id && m.filePath in env.files
    && !AtFault(env, m.filePath)
    && var targets := TargetsOf(env, m.filePath, SpecsOf(env.files[m.filePath]));
      && (forall t <- targets :: Known(ids, t))
      && |m.deps| == |targets|
      && forall i | 0 <= i < |targets| :: m.deps[i] == IdFor(ids, targets[i])
  }

  ghost predicate ModulesOk(env: Env, ids: map<Path, nat>, modules: map<nat, Module>) {
    forall id <- modules :: ModuleOk(env, ids, id, modules[id])
  }

  /** Every file with an id is loaded or waiting, the one being loaded apart. */
  ghost predicate Waiting(ids: map<Path, nat>, modules: map<nat, Module>, stack: seq<Path>, current: Option<Path>) {
    && (forall p <- ids :: Loaded(ids, modules, p) || p in stack || current == Some(p))
    && (forall p <- stack :: p in ids)
  }

  /** The map only grows: files keep their ids. */
  predicate Grown(old_ids: map<Path, nat>, ids: map<Path, nat>) {
    forall p <- old_ids :: p in ids && ids[p] == old_ids[p]
  }

  lemma ModulesStay(env: Env, ids: map<Path, nat>, more: map<Path, nat>, modules: map<nat, Module>)
    requires ModulesOk(env, ids, modules) && Grown(ids, more)
    ensures ModulesOk(env, more, modules)
  {
    hide ModuleOk;
    forall id | id in modules ensures ModuleOk(env, more, id, modules[id]) {
      ModuleStays(env, ids, more, id, modules[id]);
    }
  }

  lemma ModuleStays(env: Env, ids: map<Path, nat>, more: map<Path, nat>, id: nat, m: Module)
    requires ModuleOk(env, ids, id, m) && Grown(ids, more)
    ensures ModuleOk(env, more, id, m)
  {
    hide AtFault, TargetsOf, SpecsOf;
    var targets := TargetsOf(env, m.filePath, SpecsOf(env.files[m.filePath]));
    forall i | 0 <= i < |targets| ensures m.deps[i] == IdFor(more, targets[i]) {
      assert targets[i] in targets;
    }
  }

  class Bundler {
    const env: Env
    var ids: map<Path, nat>
    var modules: map<nat, Module>
    var stack: seq<Path>
    var counter: nat

    constructor (env: Env)
      ensures this.env == env && ids == map[] && modules == map[] && stack == [] && counter == 0
    {
      this.env := env;
      ids, modules, stack, counter := map[], map[], [], 0;
    }

    /** `assignId`. */
    method AssignId(p: Path, ghost entry: Path) returns (id: nat)
      requires IdsOk(env, entry, ids, counter) && p in env.files && Reachable(env, entry, p)
      modifies this`ids, this`counter
      ensures IdsOk(env, entry, ids, counter) && Grown(old(ids), ids)
      ensures p in ids && ids[p] == id && ids.Keys == old(ids).Keys + {p}
    {
      hide Reachable;
      if p in ids { return ids[p]; }
      id := counter;
      counter := counter + 1;
      ids := ids[p := id];
    }

    /** `resolveDep`: the id of the file an import leads to; an error for a builtin the browser does not have. */
    method ResolveDep(spec: string, filePath: Path, ghost entry: Path) returns (r: Result<Option<nat>, Error>)
      requires IdsOk(env, entry, ids, counter) && ModulesOk(env, ids, modules) && Finds(env)
      requires Waiting(ids, modules, stack, Some(filePath))
      requires TargetOf(env, spec, filePath).File? ==>
        Reachable(env, entry, TargetOf(env, spec, filePath).path)
      modifies this`ids, this`counter, this`stack
      ensures IdsOk(env, entry, ids, counter) && ModulesOk(env, ids, modules) && Grown(old(ids), ids)
      ensures Waiting(ids, modules, stack, Some(filePath))
      ensures var t := TargetOf(env, spec, filePath);
        && (r.Err? <==> t == Forbidden)
        && (r.Err? ==> r.error == NotBundlable(filePath))
        && (r.Ok? ==> Known(ids, t) && r.value == IdFor(ids, t))
    {
      hide Reachable, ModuleOk, AtFault, Finds;
      if spec in env.external { return Ok(None); }
      if NODE_SCHEME <= spec {
        if !env.browser { return Ok(None); }
        return Err(NotBundlable(filePath));
      }
      var resolved := env.resolve(spec, filePath);
      if resolved.None? { return Ok(None); }
      Found(env, spec, filePath);
      var depId := AssignId(resolved.value, entry);
      ModulesStay(env, old(ids), ids, modules);
      if depId !in modules { stack := stack + [resolved.value]; }
      return Ok(Some(depId));
    }

    /** Everything done for one file of the worklist: its module, or the fault that ends the bundling. */
    method LoadModule(filePath: Path, ghost entry: Path) returns (r: Result<Module, Error>)
      requires IdsOk(env, entry, ids, counter) && ModulesOk(env, ids, modules) && Finds(env)
      requires Waiting(ids, modules, stack, Some(filePath)) && filePath in ids
      modifies this`ids, this`counter, this`stack
      ensures IdsOk(env, entry, ids, counter) && ModulesOk(env, ids, modules) && Grown(old(ids), ids)
      ensures Waiting(ids, modules, stack, Some(filePath))
      ensures r.Ok? ==> ModuleOk(env, ids, ids[filePath], r.value) && r.value.filePath == filePath
      ensures r.Err? ==> filePath in env.files && AtFault(env, filePath) && r.error == NotBundlable(filePath)
    {
      hide Reachable, ModulesOk, Waiting, Finds;
      KnownFile(env, entry, ids, counter, filePath);
      var source := env.files[filePath];
      if source.Unparsable? { return Err(NotBundlable(filePath)); }
      var specs := SpecsOf(source);
      var deps: seq<Option<nat>> := [];
      for i := 0 to |specs|
        invariant IdsOk(env, entry, ids, counter) && ModulesOk(env, ids, modules) && Grown(old(ids), ids)
        invariant Waiting(ids, modules, stack, Some(filePath))
        invariant |deps| == i
        invariant forall j | 0 <= j < i :: Answers(ids, deps[j], TargetOf(env, specs[j], filePath))
      {
        TargetReached(env, entry, filePath, specs, i);
        ghost var before := ids;
        var dep := ResolveDep(specs[i], filePath, entry);
        if dep.Err? {
          FaultSeen(env, filePath, specs, i);
          return Err(dep.error);
        }
        AnswersStay(before, ids, deps, specs, env, filePath);
        deps := deps + [dep.value];
      }
      if !source.plain { return Err(NotBundlable(filePath)); }
      AllAnswered(env, ids, filePath, deps);
      return Ok(Module(filePath, deps));
    }

    /** `bundleEntry`. */
    method BundleEntry(entry: Path) returns (r: Result<nat, Error>)
      requires Finds(env) && ids == map[] && modules == map[] && stack == [] && counter == 0
      modifies this
      ensures r.Ok? <==> Bundlable(env, entry)
      ensures r.Err? ==> (r.error == EntryNotFound <==> entry !in env.files)
      ensures r.Err? && r.error.NotBundlable? ==>
        r.error.path in env.files && Reachable(env, entry, r.error.path) && AtFault(env, r.error.path)
      ensures r.Ok? ==> Complete(env, entry, r.value, ids, modules)
    {
      hide Reachable, ModulesOk, IdsOk, Waiting, Bundlable, Complete, AtFault, Finds, LoadedFiles;
      if entry !in env.files {
        NoEntry(env, entry);
        return Err(EntryNotFound);
      }
      Start(env, entry);
      stack := [entry];
      var entryId := AssignId(entry, entry);
      OneWaiting(env, entry, ids, modules);
      while stack != []
        invariant IdsOk(env, entry, ids, counter) && ModulesOk(env, ids, modules)
        invariant Waiting(ids, modules, stack, None)
        invariant entry in ids && ids[entry] == entryId
        decreases env.files.Keys - LoadedFiles(ids, modules), |stack|
      {
        var filePath := stack[|stack| - 1];
        Pop(ids, modules, stack);
        stack := stack[..|stack| - 1];
        var id := ids[filePath];
        if id in modules { continue; }
        ghost var known := ids;
        var m := LoadModule(filePath, entry);
        if m.Err? {
          AtLeastOneFault(env, entry, ids, counter, filePath);
          KnownFile(env, entry, ids, counter, entry);
          return Err(m.error);
        }
        Progress(env, entry, known, ids, modules, counter, stack, filePath, m.value);
        modules := modules[id := m.value];
      }
      Finish(env, entry, ids, modules, counter);
      return Ok(entryId);
    }
  }

  /** The entry exists and nothing it reaches is at fault. */
  ghost predicate Bundlable(env: Env, entry: Path) {
    entry in env.files && forall p <- env.files :: Reachable(env, entry, p) ==> !AtFault(env, p)
  }

  function LoadedFiles(ids: map<Path, nat>, modules: map<nat, Module>): set<Path> {
    set p | p in ids && ids[p] in modules
  }

  lemma NoEntry(env: Env, entry: Path)
    requires entry !in env.files
    ensures !Bundlable(env, entry)
  {
  }

  lemma AtLeastOneFault(env: Env, entry: Path, ids: map<Path, nat>, counter: nat, p: Path)
    requires IdsOk(env, entry, ids, counter) && p in ids && p in env.files && AtFault(env, p)
    ensures !Bundlable(env, entry) && Reachable(env, entry, p)
  {
    hide AtFault, Reachable;
  }

  lemma Start(env: Env, entry: Path)
    ensures IdsOk(env, entry, map[], 0) && ModulesOk(env, map[], map[]) && Reachable(env, entry, entry)
  {
    ReachEntry(env, entry);
  }

  lemma OneWaiting(env: Env, entry: Path, ids: map<Path, nat>, modules: map<nat, Module>)
    requires ids.Keys == {entry} && modules == map[]
    ensures Waiting(ids, modules, [entry], None) && ModulesOk(env, ids, modules)
  {
    assert forall p <- ids :: p == entry;
  }

  /** A loaded file is one file fewer to load, and all that was kept is kept. */
  lemma Progress(
    env: Env, entry: Path, before: map<Path, nat>, ids: map<Path, nat>, modules: map<nat, Module>, counter: nat,
    stack: seq<Path>, filePath: Path, m: Module)
    requires IdsOk(env, entry, ids, counter) && ModulesOk(env, ids, modules) && Grown(before, ids)
    requires Waiting(ids, modules, stack, Some(filePath)) && filePath in before && before[filePath] !in modules
    requires ModuleOk(env, ids, ids[filePath], m)
    ensures var more := modules[before[filePath] := m];
      && ModulesOk(env, ids, more)
      && Waiting(ids, more, stack, None)
      && env.files.Keys - LoadedFiles(ids, more) < env.files.Keys - LoadedFiles(before, modules)
  {
    hide ModuleOk, Reachable;
    var more := modules[before[filePath] := m];
    assert filePath in env.files.Keys - LoadedFiles(before, modules);
    assert filePath in LoadedFiles(ids, more);
    assert LoadedFiles(before, modules) <= LoadedFiles(ids, more);
  }

  /**
   What a finished bundle is: its modules are exactly the files the entry reaches, each under the id of its own, and
   every id written for an import is the id of a module, that of the file the import leads to.
   */
  ghost predicate Complete(env: Env, entry: Path, entryId: nat, ids: map<Path, nat>, modules: map<nat, Module>) {
    && entryId in modules && modules[entryId].filePath == entry
    && (forall p :: Loaded(ids, modules, p) <==> Reachable(env, entry, p))
    && (forall id <- modules :: modules[id].filePath in ids && ids[modules[id].filePath] == id)
    && (forall p <- ids, q <- ids :: ids[p] == ids[q] ==> p == q)
    && (forall id <- modules :: NotDangling(env, modules, modules[id]))
  }

  ghost predicate NotDangling(env: Env, modules: map<nat, Module>, m: Module) {
    && m.filePath in env.files
    && var targets := TargetsOf(env, m.filePath, SpecsOf(env.files[m.filePath]));
      && |m.deps| == |targets|
      && forall i | 0 <= i < |targets| ::
          if targets[i].File? then
            m.deps[i].Some? && m.deps[i].value in modules && modules[m.deps[i].value].filePath == targets[i].path
          else m.deps[i] == None
  }

  /** What has been found for one import. */
  ghost predicate Answers(ids: map<Path, nat>, dep: Option<nat>, t: Target) {
    t != Forbidden && Known(ids, t) && dep == IdFor(ids, t)
  }

  lemma KnownFile(env: Env, entry: Path, ids: map<Path, nat>, counter: nat, p: Path)
    requires IdsOk(env, entry, ids, counter) && p in ids
    ensures p in env.files && Reachable(env, entry, p)
  {
    hide Reachable;
  }

  lemma TargetReached(env: Env, entry: Path, from: Path, specs: seq<string>, i: nat)
    requires from in env.files && specs == SpecsOf(env.files[from]) && i < |specs| && Reachable(env, entry, from)
    ensures var t := TargetOf(env, specs[i], from); t.File? ==> Reachable(env, entry, t.path)
  {
    hide Reachable, TargetOf, SpecsOf;
    var t := TargetOf(env, specs[i], from);
    if t.File? {
      assert TargetsOf(env, from, specs)[i] == File(t.path);
      ReachStep(env, entry, from, t.path);
    }
  }

  lemma FaultSeen(env: Env, from: Path, specs: seq<string>, i: nat)
    requires from in env.files && env.files[from].Parsed? && specs == SpecsOf(env.files[from]) && i < |specs|
    requires TargetOf(env, specs[i], from) == Forbidden
    ensures AtFault(env, from)
  {
    assert TargetsOf(env, from, specs)[i] == Forbidden;
  }

  lemma AnswersStay(
    ids: map<Path, nat>, more: map<Path, nat>, deps: seq<Option<nat>>, specs: seq<string>, env: Env, from: Path)
    requires |deps| <= |specs| && Grown(ids, more)
    requires forall j | 0 <= j < |deps| :: Answers(ids, deps[j], TargetOf(env, specs[j], from))
    ensures forall j | 0 <= j < |deps| :: Answers(more, deps[j], TargetOf(env, specs[j], from))
  {
    hide TargetOf;
  }

  lemma AllAnswered(env: Env, ids: map<Path, nat>, filePath: Path, deps: seq<Option<nat>>)
    requires filePath in ids && filePath in env.files && env.files[filePath].Parsed? && env.files[filePath].plain
    requires var specs := SpecsOf(env.files[filePath]);
      && |deps| == |specs|
      && forall j | 0 <= j < |specs| :: Answers(ids, deps[j], TargetOf(env, specs[j], filePath))
    ensures ModuleOk(env, ids, ids[filePath], Module(filePath, deps))
  {
    hide TargetOf, SpecsOf;
    var specs := SpecsOf(env.files[filePath]);
    var targets := TargetsOf(env, filePath, specs);
    forall i | 0 <= i < |targets| ensures Answers(ids, deps[i], targets[i]) {
      assert targets[i] == TargetOf(env, specs[i], filePath);
    }
  }

  /** Taking the last path off the stack. */
  lemma Pop(ids: map<Path, nat>, modules: map<nat, Module>, stack: seq<Path>)
    requires Waiting(ids, modules, stack, None) && stack != []
    ensures var p := stack[|stack| - 1];
      && p in ids
      && Waiting(ids, modules, stack[..|stack| - 1], Some(p))
      && (ids[p] in modules ==> Waiting(ids, modules, stack[..|stack| - 1], None))
  {
    var p := stack[|stack| - 1];
    assert stack == stack[..|stack| - 1] + [p];
    assert p in stack;
  }

  /** With nothing waiting, the files with ids are closed under imports, so they are all that is reachable. */
  lemma Finish(env: Env, entry: Path, ids: map<Path, nat>, modules: map<nat, Module>, counter: nat)
    requires IdsOk(env, entry, ids, counter) && ModulesOk(env, ids, modules) && Waiting(ids, modules, [], None)
    requires entry in ids
    ensures Complete(env, entry, ids[entry], ids, modules) && Bundlable(env, entry)
  {
    hide Reachable, AtFault, ModuleOk, Edge, TargetsOf, SpecsOf;
    forall p | Reachable(env, entry, p) ensures p in ids {
      AllReached(env, entry, ids, modules, counter, p);
    }
    forall p | p in ids ensures ids[p] in modules && modules[ids[p]].filePath == p && !AtFault(env, p) {
      assert Loaded(ids, modules, p);
      ModuleFacts(env, ids, ids[p], modules[ids[p]]);
    }
    forall id | id in modules
      ensures modules[id].filePath in ids && ids[modules[id].filePath] == id && NotDangling(env, modules, modules[id])
    {
      ModuleFacts(env, ids, id, modules[id]);
      LinksHold(env, ids, modules, id);
    }
  }

  lemma ModuleFacts(env: Env, ids: map<Path, nat>, id: nat, m: Module)
    requires ModuleOk(env, ids, id, m)
    ensures m.filePath in ids && ids[m.filePath] == id && m.filePath in env.files && !AtFault(env, m.filePath)
    ensures forall q :: Edge(env, m.filePath, q) ==> q in ids
  {
    hide TargetsOf, SpecsOf, AtFault;
    forall q | Edge(env, m.filePath, q) ensures q in ids {
      assert Known(ids, File(q));
    }
  }

  lemma AllReached(
    env: Env, entry: Path, ids: map<Path, nat>, modules: map<nat, Module>, counter: nat, p: Path)
    requires entry in ids && ModulesOk(env, ids, modules) && Waiting(ids, modules, [], None)
    requires Reachable(env, entry, p) && IdsOk(env, entry, ids, counter)
    ensures p in ids
  {
    hide ModuleOk, Edge;
    forall p, q | p in ids.Keys && Edge(env, p, q) ensures q in ids.Keys {
      assert Loaded(ids, modules, p);
      ModuleFacts(env, ids, ids[p], modules[ids[p]]);
    }
    var walk :| Walk(env, walk) && walk[0] == entry && walk[|walk| - 1] == p;
    ClosedHolds(env, ids.Keys, walk, |walk| - 1);
  }

  lemma LinksHold(env: Env, ids: map<Path, nat>, modules: map<nat, Module>, id: nat)
    requires id in modules && ModuleOk(env, ids, id, modules[id])
    requires forall p <- ids :: ids[p] in modules && modules[ids[p]].filePath == p
    ensures NotDangling(env, modules, modules[id])
  {
    hide AtFault, TargetsOf, SpecsOf;
    var m := modules[id];
    var targets := TargetsOf(env, m.filePath, SpecsOf(env.files[m.filePath]));
    forall i | 0 <= i < |targets| ensures Known(ids, targets[i]) { assert targets[i] in targets; }
  }

  lemma Found(env: Env, spec: string, from: Path)
    requires Finds(env) && env.resolve(spec, from).Some?
    ensures env.resolve(spec, from).value in env.files
  {
  }

  // ---- rewriting the source ----

  /** The range of an import in the source text. */
  datatype Import = Import(start: nat, end: nat)

  /** Imports come in source order and do not overlap. */
  ghost predicate InOrder(code: string, imports: seq<Import>) {
    && (forall i | 0 <= i < |imports| :: imports[i].start <= imports[i].end <= |code|)
    && (forall i | 0 < i < |imports| :: imports[i - 1].end <= imports[i].start)
  }

  function EndOf(imports: seq<Import>, i: nat): nat
    requires i <= |imports|
  {
    if i == 0 then 0 else imports[i - 1].end
  }

  /** The text from behind import `i - 1` on, each import replaced, or left as it was, in its place. */
  ghost function Spliced(code: string, imports: seq<Import>, replacements: map<nat, string>, i: nat): string
    requires InOrder(code, imports) && i <= |imports|
    decreases |imports| - i
  {
    if i == |imports| then code[EndOf(imports, i)..]
    else
      var m := imports[i];
      code[EndOf(imports, i)..m.start]
        + (if i in replacements then replacements[i] else code[m.start..m.end])
        + Spliced(code, imports, replacements, i + 1)
  }

  /** `applyRewrites`: untouched imports are copied along with the text around them. */
  method ApplyRewrites(code: string, imports: seq<Import>, replacements: map<nat, string>) returns (out: string)
    requires InOrder(code, imports)
    ensures out == Spliced(code, imports, replacements, 0)
  {
    hide Spliced;
    out := "";
    var cursor := 0;
    assert code[..0] == "" && "" + "" + Spliced(code, imports, replacements, 0) == Spliced(code, imports, replacements, 0);
    for i := 0 to |imports|
      invariant 0 <= cursor <= EndOf(imports, i) <= |code|
      invariant out + code[cursor..EndOf(imports, i)] + Spliced(code, imports, replacements, i)
        == Spliced(code, imports, replacements, 0)
    {
      SpliceOne(code, imports, replacements, i, cursor, out);
      if i in replacements {
        out := out + code[cursor..imports[i].start] + replacements[i];
        cursor := imports[i].end;
      }
    }
    LastSplice(code, imports, replacements, cursor, out);
    out := out + code[cursor..];
  }

  lemma SpliceOne(
    code: string, imports: seq<Import>, replacements: map<nat, string>, i: nat, cursor: nat, out: string)
    requires InOrder(code, imports) && i < |imports| && cursor <= EndOf(imports, i)
    ensures EndOf(imports, i) <= imports[i].start
    ensures out + code[cursor..EndOf(imports, i)] + Spliced(code, imports, replacements, i)
      == if i in replacements then
           (out + code[cursor..imports[i].start] + replacements[i]) + code[imports[i].end..imports[i].end]
             + Spliced(code, imports, replacements, i + 1)
         else out + code[cursor..imports[i].end] + Spliced(code, imports, replacements, i + 1)
  {
    var from, m, rest := EndOf(imports, i), imports[i], Spliced(code, imports, replacements, i + 1);
    assert Spliced(code, imports, replacements, i)
      == code[from..m.start] + (if i in replacements then replacements[i] else code[m.start..m.end]) + rest;
    hide Spliced;
    JoinSlices(code, cursor, from, m.start);
    JoinSlices(code, cursor, m.start, m.end);
    var text := if i in replacements then replacements[i] else code[m.start..m.end];
    Regroup(out, code[cursor..from], code[from..m.start], text, rest);
    assert code[m.end..m.end] == "";
  }

  lemma JoinSlices(code: string, a: nat, b: nat, c: nat)
    requires a <= b <= c <= |code|
    ensures code[a..b] + code[b..c] == code[a..c]
  {
  }

  lemma Regroup(a: string, b: string, c: string, d: string, e: string)
    ensures a + b + (c + d + e) == a + (b + c) + d + e
    ensures a + b + (c + d + e) == a + (b + c + d) + e
  {
  }

  lemma LastSplice(code: string, imports: seq<Import>, replacements: map<nat, string>, cursor: nat, out: string)
    requires InOrder(code, imports) && cursor <= EndOf(imports, |imports|) <= |code|
    ensures out + code[cursor..EndOf(imports, |imports|)] + Spliced(code, imports, replacements, |imports|)
      == out + code[cursor..]
  {
    JoinSlices(code, cursor, EndOf(imports, |imports|), |code|);
  }

  /** Replacing imports by their own text, or not at all, changes nothing. */
  lemma {:induction false} NothingRewritten(code: string, imports: seq<Import>, replacements: map<nat, string>, i: nat)
    requires InOrder(code, imports) && i <= |imports|
    requires forall k <- replacements ::
      k < |imports| ==> replacements[k] == code[imports[k].start..imports[k].end]
    ensures EndOf(imports, i) <= |code| && Spliced(code, imports, replacements, i) == code[EndOf(imports, i)..]
    decreases |imports| - i
  {
    if i < |imports| {
      var from, m, rest := EndOf(imports, i), imports[i], Spliced(code, imports, replacements, i + 1);
      assert Spliced(code, imports, replacements, i) == code[from..m.start] + code[m.start..m.end] + rest;
      hide Spliced;
      NothingRewritten(code, imports, replacements, i + 1);
      JoinThree(code, from, m.start, m.end);
    }
  }

  lemma JoinThree(code: string, a: nat, b: nat, c: nat)
    requires a <= b <= c <= |code|
    ensures code[a..b] + code[b..c] + code[c..] == code[a..]
  {
  }
}
