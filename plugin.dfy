/**
 * The Handlebars plugin object and the two hooks it registers with the host
 * bundler. The file system, the glob walks, the Handlebars renderer and the
 * user's hooks are supplied as values and functions; the plugin's own state
 * is its list of file dependencies and the render data the compile hook
 * carries from entry to entry.
 */
module Plugin {
  import opened Wrappers
  import opened Js
  import opened Naming

  /** One value of the `helpers` option: a string is a glob of helper modules; anything else is registered as the helper itself. */
  datatype HelperQuery = HelperGlob(pattern: string) | HelperFunction

  /** A user hook `(Handlebars, value) => value`, or None when the option is not set. */
  type Hook = Option<Value -> Value>

  datatype Options = Options(
    entry: string,
    output: string,
    data: Value,
    helpers: seq<(string, HelperQuery)>,
    onBeforeCompile: Hook,
    onBeforeRender: Hook,
    onBeforeSave: Hook,
    onDone: bool)

  /** What the compile hook reaches outside the plugin: file contents, and Handlebars' `compile(template)(data)`. */
  datatype Env = Env(readFile: string -> string, render: (Value, Value) -> Value)

  /** The observable effects of one entry: a file written with `fs.outputFileSync`, and a call of `onDone`. */
  datatype Effect = Write(path: string, content: Value) | Done

  // ---- helper registration (the constructor's loop) ----

  /** What registration has done so far: the ids passed to `Handlebars.registerHelper` and the module paths added as dependencies. */
  datatype Registry = Registry(ids: seq<string>, deps: seq<string>)

  /** Registration either completes, or throws at a module path that has no helper id, after what `reg` records. */
  datatype Setup = Registered(reg: Registry) | Threw(path: string, reg: Registry)

  /**
   * Register the helper modules `paths` in order: each gets its id and then
   * becomes a dependency. The registration functions take the id function
   * `helperId` as a parameter; the plugin passes `GetHelperId`, and the
   * lemmas below hold for every id function.
   */
  function RegisterModules(helperId: string -> Option<string>, reg: Registry, paths: seq<string>): Setup
    decreases |paths|
  {
    if paths == [] then Registered(reg)
    else
      match helperId(paths[0])
      case None => Threw(paths[0], reg)
      case Some(id) => RegisterModules(helperId, Registry(reg.ids + [id], reg.deps + [paths[0]]), paths[1..])
  }

  /** Go on with the remaining `helpers` unless registration has thrown. */
  function Continue(helperId: string -> Option<string>, s: Setup, helpers: seq<(string, HelperQuery)>, globSync: string -> seq<string>): Setup
    decreases |helpers|, 1
  {
    match s
    case Threw(_, _) => s
    case Registered(reg) => RegisterHelpers(helperId, reg, helpers, globSync)
  }

  /** Register every key of the `helpers` option in order; `globSync` stands for `glob.sync`. */
  function RegisterHelpers(helperId: string -> Option<string>, reg: Registry, helpers: seq<(string, HelperQuery)>, globSync: string -> seq<string>): Setup
    decreases |helpers|, 0
  {
    if helpers == [] then Registered(reg)
    else
      match helpers[0].1
      case HelperFunction => Continue(helperId, Registered(Registry(reg.ids + [helpers[0].0], reg.deps)), helpers[1..], globSync)
      case HelperGlob(pattern) => Continue(helperId, RegisterModules(helperId, reg, globSync(pattern)), helpers[1..], globSync)
  }

  /** The helper ids of those of `paths` that have one, in order. */
  function ModuleIds(helperId: string -> Option<string>, paths: seq<string>): (ids: seq<string>)
    decreases |paths|
  {
    if paths == [] then []
    else
      (match helperId(paths[0]) case Some(id) => [id] case None => [])
      + ModuleIds(helperId, paths[1..])
  }

  /** The ids the `helpers` option asks for, in order: the key of a helper function, the module ids of a glob. */
  function HelperIds(helperId: string -> Option<string>, helpers: seq<(string, HelperQuery)>, globSync: string -> seq<string>): seq<string>
    decreases |helpers|
  {
    if helpers == [] then []
    else
      (match helpers[0].1
       case HelperFunction => [helpers[0].0]
       case HelperGlob(pattern) => ModuleIds(helperId, globSync(pattern)))
      + HelperIds(helperId, helpers[1..], globSync)
  }

  /** The module paths the helper globs find, in order. */
  function GlobbedModules(helpers: seq<(string, HelperQuery)>, globSync: string -> seq<string>): seq<string>
  {
    if helpers == [] then []
    else
      (match helpers[0].1
       case HelperFunction => []
       case HelperGlob(pattern) => globSync(pattern))
      + GlobbedModules(helpers[1..], globSync)
  }

  // ---- the compile hook's pass over the entries ----

  /** `value = hook(Handlebars, value) || value` when the hook is set. */
  function ApplyHook(hook: Hook, v: Value): Value {
    match hook
    case None => v
    case Some(f) => Or(f(v), v)
  }

  /** A hook that is not set, or returns a falsy value, keeps the old value; a truthy result replaces it. */
  lemma ApplyHookOverride(hook: Hook, v: Value)
    ensures hook.None? ==> ApplyHook(hook, v) == v
    ensures hook.Some? && Falsy(hook.value(v)) ==> ApplyHook(hook, v) == v
    ensures hook.Some? && !Falsy(hook.value(v)) ==> ApplyHook(hook, v) == hook.value(v)
  {
  }

  /** `data` after `n` entries have passed it through `onBeforeRender`. */
  function IterateHook(hook: Hook, data: Value, n: nat): Value {
    if n == 0 then data else ApplyHook(hook, IterateHook(hook, data, n - 1))
  }

  /** What one entry writes, given the data after its `onBeforeRender`. */
  function EntryContent(options: Options, env: Env, data: Value, entry: string): Value {
    var template := ApplyHook(options.onBeforeCompile, Str(env.readFile(entry)));
    ApplyHook(options.onBeforeSave, env.render(template, data))
  }

  /** The effects of one entry and the data it leaves for the next one. */
  function RenderEntry(options: Options, env: Env, outputFile: string, data: Value, entry: string): (Value, seq<Effect>) {
    var data' := ApplyHook(options.onBeforeRender, data);
    var write := Write(TargetPath(outputFile, entry), EntryContent(options, env, data', entry));
    (data', [write] + (if options.onDone then [Done] else []))
  }

  /** The entries rendered in glob order, each starting from the data the previous one left. */
  function RenderEntries(options: Options, env: Env, outputFile: string, data: Value, entries: seq<string>): (Value, seq<Effect>)
    decreases |entries|
  {
    if entries == [] then (data, [])
    else
      var before := RenderEntries(options, env, outputFile, data, entries[..|entries| - 1]);
      var last := RenderEntry(options, env, outputFile, before.0, entries[|entries| - 1]);
      (last.0, before.1 + last.1)
  }

  /** Rendering one more entry extends the pass by that entry's effects. */
  lemma RenderEntriesSnoc(options: Options, env: Env, outputFile: string, data: Value, entries: seq<string>, i: nat)
    requires i < |entries|
    ensures var before := RenderEntries(options, env, outputFile, data, entries[..i]);
      var last := RenderEntry(options, env, outputFile, before.0, entries[i]);
      RenderEntries(options, env, outputFile, data, entries[..i + 1]) == (last.0, before.1 + last.1)
  {
    assert entries[..i + 1][..i] == entries[..i];
  }

  /** Extending a prefix of `s` by its next element. */
  lemma AppendPrefix<T>(xs: seq<T>, s: seq<T>, i: nat)
    requires i < |s|
    ensures xs + s[..i + 1] == xs + s[..i] + [s[i]]
  {
    assert s[..i + 1] == s[..i] + [s[i]];
  }

  /** The writes among `effects`, as (path, content) pairs. */
  function Writes(effects: seq<Effect>): seq<(string, Value)> {
    if effects == [] then []
    else (match effects[0] case Write(p, c) => [(p, c)] case Done => []) + Writes(effects[1..])
  }

  /** How many times `onDone` is called among `effects`. */
  function DoneCalls(effects: seq<Effect>): nat {
    if effects == [] then 0
    else (if effects[0].Done? then 1 else 0) + DoneCalls(effects[1..])
  }

  /** The paths one compile pass adds to the dependencies: every partial, then every entry the glob found. */
  function PassDependencies(partials: seq<(string, string)>, globbed: Result<seq<string>, string>): seq<string> {
    PartialPaths(partials) + (if globbed.Success? then globbed.value else [])
  }

  /** `Object.keys(partials).map(key => partials[key])`. */
  function PartialPaths(partials: seq<(string, string)>): (paths: seq<string>)
    ensures |paths| == |partials|
    ensures forall i :: 0 <= i < |partials| ==> paths[i] == partials[i].1
  {
    seq(|partials|, i requires 0 <= i < |partials| => partials[i].1)
  }

  // ---- what registration and a compile pass amount to ----

  /** Every path of `paths` has a helper id. */
  predicate AllHaveIds(helperId: string -> Option<string>, paths: seq<string>)
    decreases |paths|
  {
    paths == [] || (helperId(paths[0]).Some? && AllHaveIds(helperId, paths[1..]))
  }

  /** AllHaveIds says of each path that it has an id. */
  lemma {:induction false} AllHaveIdsEvery(helperId: string -> Option<string>, paths: seq<string>)
    decreases |paths|
    ensures AllHaveIds(helperId, paths) <==> forall i :: 0 <= i < |paths| ==> helperId(paths[i]).Some?
  {
    if paths != [] {
      AllHaveIdsEvery(helperId, paths[1..]);
      assert forall i :: 1 <= i < |paths| ==> paths[i] == paths[1..][i - 1];
    }
  }

  /** Every path of a concatenation has an id exactly when every path of both parts has one. */
  lemma {:induction false} AllHaveIdsAppend(helperId: string -> Option<string>, a: seq<string>, b: seq<string>)
    decreases |a|
    ensures AllHaveIds(helperId, a + b) <==> AllHaveIds(helperId, a) && AllHaveIds(helperId, b)
  {
    if a == [] {
      assert a + b == b;
    } else {
      assert (a + b)[1..] == a[1..] + b;
      AllHaveIdsAppend(helperId, a[1..], b);
    }
  }

  /** `paths[k]` is the first path of `paths` without a helper id. */
  predicate FirstWithoutId(helperId: string -> Option<string>, paths: seq<string>, k: int)
  {
    0 <= k < |paths| && helperId(paths[k]).None? && AllHaveIds(helperId, paths[..k])
  }

  /** The first id-less path of `a` is the first id-less path of `a + b`. */
  lemma FirstWithoutIdPrefix(helperId: string -> Option<string>, a: seq<string>, b: seq<string>, k: int)
    requires FirstWithoutId(helperId, a, k)
    ensures FirstWithoutId(helperId, a + b, k) && (a + b)[k] == a[k]
  {
    assert (a + b)[..k] == a[..k];
  }

  /** Behind a part whose paths all have ids, the first id-less path of `b` is that of `a + b`. */
  lemma FirstWithoutIdShift(helperId: string -> Option<string>, a: seq<string>, b: seq<string>, k: int)
    requires AllHaveIds(helperId, a) && FirstWithoutId(helperId, b, k)
    ensures FirstWithoutId(helperId, a + b, |a| + k) && (a + b)[|a| + k] == b[k]
  {
    assert (a + b)[..|a| + k] == a + b[..k];
    AllHaveIdsAppend(helperId, a, b[..k]);
  }

  /** When every path of `paths` has a helper id, all of them are registered, in order. */
  lemma {:induction false} RegisterModulesAll(helperId: string -> Option<string>, reg: Registry, paths: seq<string>)
    requires AllHaveIds(helperId, paths)
    decreases |paths|
    ensures RegisterModules(helperId, reg, paths) == Registered(Registry(reg.ids + ModuleIds(helperId, paths), reg.deps + paths))
  {
    if paths == [] {
      assert reg.ids + [] == reg.ids && reg.deps + [] == reg.deps;
    } else {
      var id := helperId(paths[0]).value;
      var rest := paths[1..];
      RegisterModulesAll(helperId, Registry(reg.ids + [id], reg.deps + [paths[0]]), rest);
      assert reg.ids + [id] + ModuleIds(helperId, rest) == reg.ids + ModuleIds(helperId, paths);
      assert reg.deps + [paths[0]] + rest == reg.deps + paths;
      assert reg.ids + [id] + ModuleIds(helperId, rest) == reg.ids + ModuleIds(helperId, paths);
    }
  }

  /**
   * When `paths[k]` is the first path without a helper id, registration
   * throws there, after registering the paths before it.
   */
  lemma {:induction false} RegisterModulesStops(helperId: string -> Option<string>, reg: Registry, paths: seq<string>, k: nat)
    requires k < |paths| && helperId(paths[k]).None?
    requires AllHaveIds(helperId, paths[..k])
    decreases k
    ensures RegisterModules(helperId, reg, paths) == Threw(paths[k], Registry(reg.ids + ModuleIds(helperId, paths[..k]), reg.deps + paths[..k]))
  {
    if k == 0 {
      assert paths[..0] == [];
      assert reg.ids + [] == reg.ids && reg.deps + [] == reg.deps;
    } else {
      var id := helperId(paths[..k][0]).value;
      var rest := paths[1..];
      assert paths[..k][1..] == rest[..k - 1];
      assert paths[0] == paths[..k][0];
      RegisterModulesStops(helperId, Registry(reg.ids + [id], reg.deps + [paths[0]]), rest, k - 1);
      assert reg.ids + [id] + ModuleIds(helperId, rest[..k - 1]) == reg.ids + ModuleIds(helperId, paths[..k]);
      assert reg.deps + [paths[0]] + rest[..k - 1] == reg.deps + paths[..k];
    }
  }

  /**
   * Registration of `paths` completes only when every path has an id, and
   * then adds all of them to the dependencies; it throws only at a path
   * that has none.
   */
  lemma {:induction false} RegisterModulesOutcome(helperId: string -> Option<string>, reg: Registry, paths: seq<string>)
    decreases |paths|
    ensures var s := RegisterModules(helperId, reg, paths);
      && (s.Registered? ==> AllHaveIds(helperId, paths) && s.reg.deps == reg.deps + paths)
      && (s.Registered? ==> s.reg.ids == reg.ids + ModuleIds(helperId, paths))
      && (s.Threw? ==> s.path in paths && helperId(s.path).None?)
      && (s.Threw? ==> exists k :: FirstWithoutId(helperId, paths, k) && paths[k] == s.path)
  {
    if paths == [] {
      assert reg.deps + [] == reg.deps && reg.ids + [] == reg.ids;
    } else if helperId(paths[0]).Some? {
      var id := helperId(paths[0]).value;
      var rest := paths[1..];
      var reg' := Registry(reg.ids + [id], reg.deps + [paths[0]]);
      ModuleSplit(helperId, reg, paths);
      RegisterModulesOutcome(helperId, reg', rest);
      StepJoin(reg, reg', [paths[0]], rest, [id], ModuleIds(helperId, rest));
      assert paths == [paths[0]] + rest;
      var s := RegisterModules(helperId, reg', rest);
      if s.Threw? {
        var k :| FirstWithoutId(helperId, rest, k) && rest[k] == s.path;
        assert [paths[0]][1..] == [];
        FirstWithoutIdShift(helperId, [paths[0]], rest, k);
      }
    } else {
      assert paths[..0] == [];
      assert FirstWithoutId(helperId, paths, 0);
    }
  }

  /** A leading module with an id is registered, then the rest of `paths`. */
  lemma ModuleSplit(helperId: string -> Option<string>, reg: Registry, paths: seq<string>)
    requires paths != [] && helperId(paths[0]).Some?
    ensures var id := helperId(paths[0]).value;
      && ModuleIds(helperId, paths) == [id] + ModuleIds(helperId, paths[1..])
      && RegisterModules(helperId, reg, paths) == RegisterModules(helperId, Registry(reg.ids + [id], reg.deps + [paths[0]]), paths[1..])
      && AllHaveIds(helperId, paths) == AllHaveIds(helperId, paths[1..])
  {
  }

  /**
   * The constructor's loop completes only when every globbed helper module
   * has an id, and then has added all of them, in glob order, to the
   * dependencies; it throws only at a globbed module without one.
   */
  lemma {:induction false} RegisterHelpersOutcome(helperId: string -> Option<string>, reg: Registry, helpers: seq<(string, HelperQuery)>, globSync: string -> seq<string>)
    decreases |helpers|, 1
    ensures var s := RegisterHelpers(helperId, reg, helpers, globSync);
      var mods := GlobbedModules(helpers, globSync);
      && (s.Registered? ==> AllHaveIds(helperId, mods) && s.reg.deps == reg.deps + mods)
      && (s.Registered? ==> s.reg.ids == reg.ids + HelperIds(helperId, helpers, globSync))
      && (s.Threw? ==> s.path in mods && helperId(s.path).None?)
      && (s.Threw? ==> exists k :: FirstWithoutId(helperId, mods, k) && mods[k] == s.path)
  {
    if helpers == [] {
      assert reg.deps + [] == reg.deps && reg.ids + [] == reg.ids;
    } else if helpers[0].1.HelperFunction? {
      RegisterFunctionOutcome(helperId, reg, helpers, globSync);
    } else {
      RegisterGlobOutcome(helperId, reg, helpers, globSync);
    }
  }

  /** RegisterHelpersOutcome when the first key is a helper function. */
  lemma {:induction false} RegisterFunctionOutcome(helperId: string -> Option<string>, reg: Registry, helpers: seq<(string, HelperQuery)>, globSync: string -> seq<string>)
    requires helpers != [] && helpers[0].1.HelperFunction?
    decreases |helpers|, 0
    ensures var s := RegisterHelpers(helperId, reg, helpers, globSync);
      var mods := GlobbedModules(helpers, globSync);
      && (s.Registered? ==> AllHaveIds(helperId, mods) && s.reg.deps == reg.deps + mods)
      && (s.Registered? ==> s.reg.ids == reg.ids + HelperIds(helperId, helpers, globSync))
      && (s.Threw? ==> s.path in mods && helperId(s.path).None?)
      && (s.Threw? ==> exists k :: FirstWithoutId(helperId, mods, k) && mods[k] == s.path)
  {
    var rest := helpers[1..];
    var reg' := Registry(reg.ids + [helpers[0].0], reg.deps);
    FunctionSplit(helperId, reg, helpers, globSync);
    RegisterHelpersOutcome(helperId, reg', rest, globSync);
    StepJoin(reg, reg', [], GlobbedModules(rest, globSync), [helpers[0].0], HelperIds(helperId, rest, globSync));
    assert [] + GlobbedModules(rest, globSync) == GlobbedModules(rest, globSync);
  }

  /** A leading helper function registers its key, then goes on with the rest of `helpers`. */
  lemma FunctionSplit(helperId: string -> Option<string>, reg: Registry, helpers: seq<(string, HelperQuery)>, globSync: string -> seq<string>)
    requires helpers != [] && helpers[0].1.HelperFunction?
    ensures GlobbedModules(helpers, globSync) == GlobbedModules(helpers[1..], globSync)
    ensures HelperIds(helperId, helpers, globSync) == [helpers[0].0] + HelperIds(helperId, helpers[1..], globSync)
    ensures RegisterHelpers(helperId, reg, helpers, globSync) == RegisterHelpers(helperId, Registry(reg.ids + [helpers[0].0], reg.deps), helpers[1..], globSync)
  {
    assert GlobbedModules(helpers, globSync) == [] + GlobbedModules(helpers[1..], globSync);
  }

  /** RegisterHelpersOutcome when the first key is a glob. */
  lemma {:induction false} RegisterGlobOutcome(helperId: string -> Option<string>, reg: Registry, helpers: seq<(string, HelperQuery)>, globSync: string -> seq<string>)
    requires helpers != [] && helpers[0].1.HelperGlob?
    decreases |helpers|, 0
    ensures var s := RegisterHelpers(helperId, reg, helpers, globSync);
      var mods := GlobbedModules(helpers, globSync);
      && (s.Registered? ==> AllHaveIds(helperId, mods) && s.reg.deps == reg.deps + mods)
      && (s.Registered? ==> s.reg.ids == reg.ids + HelperIds(helperId, helpers, globSync))
      && (s.Threw? ==> s.path in mods && helperId(s.path).None?)
      && (s.Threw? ==> exists k :: FirstWithoutId(helperId, mods, k) && mods[k] == s.path)
  {
    var rest := helpers[1..];
    var paths := globSync(helpers[0].1.pattern);
    var m := RegisterModules(helperId, reg, paths);
    GlobSplit(helperId, reg, helpers, globSync);
    RegisterModulesOutcome(helperId, reg, paths);
    var restMods := GlobbedModules(rest, globSync);
    if m.Registered? {
      RegisterHelpersOutcome(helperId, m.reg, rest, globSync);
      StepJoin(reg, m.reg, paths, restMods, ModuleIds(helperId, paths), HelperIds(helperId, rest, globSync));
      AllHaveIdsAppend(helperId, paths, restMods);
      var s := RegisterHelpers(helperId, m.reg, rest, globSync);
      if s.Threw? {
        var k :| FirstWithoutId(helperId, restMods, k) && restMods[k] == s.path;
        FirstWithoutIdShift(helperId, paths, restMods, k);
      }
    } else {
      var k :| FirstWithoutId(helperId, paths, k) && paths[k] == m.path;
      FirstWithoutIdPrefix(helperId, paths, restMods, k);
    }
  }

  /** A leading glob registers its modules, then goes on with the rest of `helpers`. */
  lemma GlobSplit(helperId: string -> Option<string>, reg: Registry, helpers: seq<(string, HelperQuery)>, globSync: string -> seq<string>)
    requires helpers != [] && helpers[0].1.HelperGlob?
    ensures var paths := globSync(helpers[0].1.pattern);
      && GlobbedModules(helpers, globSync) == paths + GlobbedModules(helpers[1..], globSync)
      && HelperIds(helperId, helpers, globSync) == ModuleIds(helperId, paths) + HelperIds(helperId, helpers[1..], globSync)
      && RegisterHelpers(helperId, reg, helpers, globSync) == Continue(helperId, RegisterModules(helperId, reg, paths), helpers[1..], globSync)
  {
  }

  /** Appending in two steps is appending the concatenation, for the dependencies and the ids alike. */
  lemma StepJoin(reg: Registry, mid: Registry, paths: seq<string>, restMods: seq<string>, ids: seq<string>, restIds: seq<string>)
    requires mid.deps == reg.deps + paths && mid.ids == reg.ids + ids
    ensures mid.deps + restMods == reg.deps + (paths + restMods)
    ensures mid.ids + restIds == reg.ids + (ids + restIds)
  {
  }

  /** When every globbed helper module has an id, the constructor's loop completes. */
  lemma RegisterHelpersComplete(helperId: string -> Option<string>, reg: Registry, helpers: seq<(string, HelperQuery)>, globSync: string -> seq<string>)
    requires AllHaveIds(helperId, GlobbedModules(helpers, globSync))
    ensures RegisterHelpers(helperId, reg, helpers, globSync).Registered?
  {
    var s := RegisterHelpers(helperId, reg, helpers, globSync);
    var mods := GlobbedModules(helpers, globSync);
    RegisterHelpersOutcome(helperId, reg, helpers, globSync);
    AllHaveIdsEvery(helperId, mods);
  }

  /** Writes of a concatenation are the writes of its parts. */
  lemma {:induction false} WritesAppend(a: seq<Effect>, b: seq<Effect>)
    decreases |a|
    ensures Writes(a + b) == Writes(a) + Writes(b)
    ensures DoneCalls(a + b) == DoneCalls(a) + DoneCalls(b)
  {
    if a != [] {
      assert (a + b)[1..] == a[1..] + b;
      WritesAppend(a[1..], b);
    } else {
      assert a + b == b;
    }
  }

  /** Data that starts truthy stays truthy through any number of hook calls. */
  lemma {:induction false} IterateHookTruthy(hook: Hook, data: Value, n: nat)
    requires !Falsy(data)
    ensures !Falsy(IterateHook(hook, data, n))
  {
    if n > 0 {
      IterateHookTruthy(hook, data, n - 1);
    }
  }

  /** One entry passes `data` through `onBeforeRender` once, writes once to its target, and calls `onDone` when it is set. */
  lemma RenderEntryShape(options: Options, env: Env, outputFile: string, data: Value, entry: string)
    ensures var r := RenderEntry(options, env, outputFile, data, entry);
      && r.0 == ApplyHook(options.onBeforeRender, data)
      && Writes(r.1) == [(TargetPath(outputFile, entry), EntryContent(options, env, r.0, entry))]
      && DoneCalls(r.1) == (if options.onDone then 1 else 0)
  {
    var r := RenderEntry(options, env, outputFile, data, entry);
    WritesAppend([r.1[0]], r.1[1..]);
    assert r.1 == [r.1[0]] + r.1[1..];
  }

  /** The data a pass leaves is its start after one `onBeforeRender` per entry. */
  lemma {:induction false} RenderEntriesData(options: Options, env: Env, outputFile: string, data: Value, entries: seq<string>)
    decreases |entries|
    ensures RenderEntries(options, env, outputFile, data, entries).0 == IterateHook(options.onBeforeRender, data, |entries|)
  {
    if entries != [] {
      RenderEntriesData(options, env, outputFile, data, entries[..|entries| - 1]);
    }
  }

  /** A pass writes exactly once per entry. */
  lemma {:induction false} RenderEntriesWriteCount(options: Options, env: Env, outputFile: string, data: Value, entries: seq<string>)
    decreases |entries|
    ensures |Writes(RenderEntries(options, env, outputFile, data, entries).1)| == |entries|
  {
    if entries != [] {
      var n := |entries| - 1;
      RenderEntriesWriteCount(options, env, outputFile, data, entries[..n]);
      var before := RenderEntries(options, env, outputFile, data, entries[..n]);
      RenderEntryShape(options, env, outputFile, before.0, entries[n]);
      WritesAppend(before.1, RenderEntry(options, env, outputFile, before.0, entries[n]).1);
    }
  }

  /**
   * The `i`-th write of a pass goes to the target derived from entry `i`,
   * rendered with the data after `i + 1` calls of `onBeforeRender`, so what
   * one entry's hook returns is seen by every later one.
   */
  lemma {:induction false} RenderEntriesWriteAt(options: Options, env: Env, outputFile: string, data: Value, entries: seq<string>, i: nat)
    requires i < |entries|
    decreases |entries|
    ensures var w := Writes(RenderEntries(options, env, outputFile, data, entries).1);
      && i < |w|
      && w[i] == (TargetPath(outputFile, entries[i]), EntryContent(options, env, IterateHook(options.onBeforeRender, data, i + 1), entries[i]))
  {
    var n := |entries| - 1;
    var init := entries[..n];
    var before := RenderEntries(options, env, outputFile, data, init);
    var last := RenderEntry(options, env, outputFile, before.0, entries[n]);
    var w := Writes(RenderEntries(options, env, outputFile, data, entries).1);
    assert w == Writes(before.1) + Writes(last.1) by {
      WritesAppend(before.1, last.1);
    }
    RenderEntriesWriteCount(options, env, outputFile, data, init);
    RenderEntryShape(options, env, outputFile, before.0, entries[n]);
    var d := IterateHook(options.onBeforeRender, data, i + 1);
    if i < n {
      assert w[i] == Writes(before.1)[i];
      RenderEntriesWriteAt(options, env, outputFile, data, init, i);
      assert init[i] == entries[i];
    } else {
      assert w[i] == Writes(last.1)[0];
      assert last.0 == d by {
        RenderEntriesData(options, env, outputFile, data, init);
      }
    }
  }

  /** `onDone` is called once per entry when it is set, and never otherwise. */
  lemma {:induction false} RenderEntriesDone(options: Options, env: Env, outputFile: string, data: Value, entries: seq<string>)
    decreases |entries|
    ensures DoneCalls(RenderEntries(options, env, outputFile, data, entries).1) == (if options.onDone then |entries| else 0)
  {
    if entries != [] {
      var n := |entries| - 1;
      RenderEntriesDone(options, env, outputFile, data, entries[..n]);
      var before := RenderEntries(options, env, outputFile, data, entries[..n]);
      var last := RenderEntry(options, env, outputFile, before.0, entries[n]);
      RenderEntryShape(options, env, outputFile, before.0, entries[n]);
      WritesAppend(before.1, last.1);
    }
  }

  /** With no `[name]` in the output pattern, every entry of a pass writes the same file. */
  lemma SameTargetWithoutToken(options: Options, env: Env, outputFile: string, data: Value, entries: seq<string>)
    requires IndexOf(outputFile, "[name]") == None
    ensures var w := Writes(RenderEntries(options, env, outputFile, data, entries).1);
      forall i :: 0 <= i < |w| ==> w[i].0 == outputFile
  {
    var w := Writes(RenderEntries(options, env, outputFile, data, entries).1);
    RenderEntriesWriteCount(options, env, outputFile, data, entries);
    forall i | 0 <= i < |w|
      ensures w[i].0 == outputFile
    {
      RenderEntriesWriteAt(options, env, outputFile, data, entries, i);
      TargetPathWithoutToken(outputFile, entries[i]);
    }
  }

  /** `n` hook calls after `m` hook calls are `m + n` hook calls: a later pass goes on from the data an earlier one left. */
  lemma {:induction false} IterateHookAdd(hook: Hook, data: Value, m: nat, n: nat)
    decreases n
    ensures IterateHook(hook, IterateHook(hook, data, m), n) == IterateHook(hook, data, m + n)
  {
    if n > 0 {
      IterateHookAdd(hook, data, m, n - 1);
    }
  }

  /** The render data starts as `options.data || {}`, which is truthy, and no pass can make it falsy. */
  lemma DataNeverFalsy(options: Options, env: Env, outputFile: string, entries: seq<string>)
    ensures !Falsy(RenderEntries(options, env, outputFile, Or(options.data, EmptyObject), entries).0)
  {
    var data := Or(options.data, EmptyObject);
    OrTruthy(options.data, EmptyObject);
    RenderEntriesData(options, env, outputFile, data, entries);
    IterateHookTruthy(options.onBeforeRender, data, |entries|);
  }

  // ---- the objects ----

  /** The plugin object built by `new HandlebarsPlugin(options)`. */
  class HandlebarsPlugin {
    const options: Options
    const outputFile: string
    const entryFile: string
    const data: Value
    /** Every file the plugin has read or been told to watch, in order, duplicates kept. */
    var fileDependencies: seq<string>
    /** The ids this plugin has passed to `Handlebars.registerHelper`, in order. */
    var registeredHelpers: seq<string>

    /** The field set-up of the constructor, before helpers are registered. */
    constructor Init(options: Options)
      ensures this.options == options
      ensures outputFile == options.output && entryFile == options.entry
      ensures data == Or(options.data, EmptyObject)
      ensures fileDependencies == [] && registeredHelpers == []
    {
      this.options := options;
      outputFile := options.output;
      entryFile := options.entry;
      data := Or(options.data, EmptyObject);
      fileDependencies := [];
      registeredHelpers := [];
    }

    /** `new HandlebarsPlugin(options)`: None where the constructor throws. */
    static method Construct(options: Options, globSync: string -> seq<string>) returns (r: Option<HandlebarsPlugin>)
      ensures var s := RegisterHelpers(GetHelperId, Registry([], []), options.helpers, globSync);
        && (r.Some? <==> s.Registered?)
        && (r.Some? ==>
              && fresh(r.value) && r.value.options == options
              && r.value.outputFile == options.output && r.value.entryFile == options.entry
              && r.value.data == Or(options.data, EmptyObject)
              && r.value.fileDependencies == s.reg.deps && r.value.registeredHelpers == s.reg.ids)
    {
      var plugin := new HandlebarsPlugin.Init(options);
      var thrown := plugin.RegisterAll(options.helpers, globSync);
      r := if thrown.None? then Some(plugin) else None;
    }

    /** The constructor's loop over the `helpers` option. */
    method RegisterAll(helpers: seq<(string, HelperQuery)>, globSync: string -> seq<string>) returns (thrown: Option<string>)
      modifies this
      ensures var s := RegisterHelpers(GetHelperId, Registry(old(registeredHelpers), old(fileDependencies)), helpers, globSync);
        && thrown == (if s.Threw? then Some(s.path) else None)
        && registeredHelpers == s.reg.ids && fileDependencies == s.reg.deps
    {
      ghost var goal := RegisterHelpers(GetHelperId, Registry(registeredHelpers, fileDependencies), helpers, globSync);
      var k := 0;
      while k < |helpers|
        invariant 0 <= k <= |helpers|
        invariant RegisterHelpers(GetHelperId, Registry(registeredHelpers, fileDependencies), helpers[k..], globSync) == goal
        decreases |helpers| - k
      {
        assert helpers[k..][1..] == helpers[k + 1..];
        var (key, query) := helpers[k];
        match query {
        case HelperFunction =>
          registeredHelpers := registeredHelpers + [key];
        case HelperGlob(pattern) =>
          var paths := globSync(pattern);
          var j := 0;
          while j < |paths|
            invariant 0 <= j <= |paths|
            invariant Continue(GetHelperId, RegisterModules(GetHelperId, Registry(registeredHelpers, fileDependencies), paths[j..]), helpers[k + 1..], globSync) == goal
          {
            assert paths[j..][1..] == paths[j + 1..];
            var id := GetHelperId(paths[j]);
            if id.None? {
              return Some(paths[j]);
            }
            registeredHelpers := registeredHelpers + [id.value];
            AddDependency([paths[j]]);
            j := j + 1;
          }
        }
        k := k + 1;
      }
      return None;
    }

    /** `readFile(filepath)`: records the path, then reads the file. */
    method ReadFile(filepath: string, fs: string -> string) returns (content: string)
      modifies this
      ensures fileDependencies == old(fileDependencies) + [filepath]
      ensures registeredHelpers == old(registeredHelpers)
      ensures content == fs(filepath)
    {
      fileDependencies := fileDependencies + [filepath];
      content := fs(filepath);
    }

    /** `addDependency(p1, ..., pk)`: appends the paths in argument order. */
    method AddDependency(paths: seq<string>)
      modifies this
      ensures fileDependencies == old(fileDependencies) + paths
      ensures registeredHelpers == old(registeredHelpers)
    {
      fileDependencies := fileDependencies + paths;
    }
  }

  /** The host's compilation object seen by the emit hook. */
  class Compilation {
    var fileDependencies: seq<string>
    /** How many times the emit hook has called its `done` continuation. */
    var doneCalls: nat

    constructor (fileDependencies: seq<string>)
      ensures this.fileDependencies == fileDependencies && doneCalls == 0
    {
      this.fileDependencies := fileDependencies;
      doneCalls := 0;
    }
  }

  /** The closures `apply(compiler)` registers, with the variables they share. */
  class CompilerHooks {
    const plugin: HandlebarsPlugin
    const options: Options
    const entryFile: string
    const outputFile: string
    /** The closure variable `data`, which `onBeforeRender` overwrites. */
    var data: Value

    constructor Apply(plugin: HandlebarsPlugin)
      ensures this.plugin == plugin && options == plugin.options
      ensures entryFile == plugin.entryFile && outputFile == plugin.outputFile
      ensures data == plugin.data
    {
      this.plugin := plugin;
      options := plugin.options;
      entryFile := plugin.entryFile;
      outputFile := plugin.outputFile;
      data := plugin.data;
    }

    /**
     * The "compile" hook: `partials` is the partial map's (name, path) pairs in
     * key order, `globbed` the result of globbing `entryFile`.
     */
    method Compile(partials: seq<(string, string)>, globbed: Result<seq<string>, string>, env: Env) returns (effects: seq<Effect>)
      modifies this, plugin
      ensures plugin.fileDependencies == old(plugin.fileDependencies) + PassDependencies(partials, globbed)
      ensures plugin.registeredHelpers == old(plugin.registeredHelpers)
      ensures globbed.Failure? ==> effects == [] && data == old(data)
      ensures globbed.Success? ==> (data, effects) == RenderEntries(options, env, outputFile, old(data), globbed.value)
    {
      var partialPaths := PartialPaths(partials);
      plugin.AddDependency(partialPaths);
      effects := [];
      if globbed.Failure? {
        assert partialPaths + [] == partialPaths;
        return;
      }
      ghost var base := plugin.fileDependencies;
      effects := RenderAll(globbed.value, env);
      assert base + globbed.value == old(plugin.fileDependencies) + (partialPaths + globbed.value);
    }

    /** The glob callback's loop: every entry in order, each from the data the previous one left. */
    method RenderAll(entries: seq<string>, env: Env) returns (effects: seq<Effect>)
      modifies this, plugin
      ensures plugin.fileDependencies == old(plugin.fileDependencies) + entries
      ensures plugin.registeredHelpers == old(plugin.registeredHelpers)
      ensures (data, effects) == RenderEntries(options, env, outputFile, old(data), entries)
    {
      effects := [];
      var i := 0;
      while i < |entries|
        invariant 0 <= i <= |entries|
        invariant plugin.fileDependencies == old(plugin.fileDependencies) + entries[..i]
        invariant plugin.registeredHelpers == old(plugin.registeredHelpers)
        invariant (data, effects) == RenderEntries(options, env, outputFile, old(data), entries[..i])
      {
        RenderEntriesSnoc(options, env, outputFile, old(data), entries, i);
        var out := RenderOne(entries[i], env);
        effects := effects + out;
        AppendPrefix(old(plugin.fileDependencies), entries, i);
        i := i + 1;
      }
      assert entries[..i] == entries;
    }

    /** The body of the loop over the globbed entries: read, name, hook, render, hook, write. */
    method RenderOne(entry: string, env: Env) returns (out: seq<Effect>)
      modifies this, plugin
      ensures plugin.fileDependencies == old(plugin.fileDependencies) + [entry]
      ensures plugin.registeredHelpers == old(plugin.registeredHelpers)
      ensures (data, out) == RenderEntry(options, env, outputFile, old(data), entry)
    {
      var source := plugin.ReadFile(entry, env.readFile);
      var templateContent := Str(source);
      var fileName := EntryName(entry);
      if options.onBeforeCompile.Some? {
        templateContent := Or(options.onBeforeCompile.value(templateContent), templateContent);
      }
      if options.onBeforeRender.Some? {
        data := Or(options.onBeforeRender.value(data), data);
      }
      var result := env.render(templateContent, data);
      if options.onBeforeSave.Some? {
        result := Or(options.onBeforeSave.value(result), result);
      }
      var target := Replace(outputFile, "[name]", fileName);
      out := [Write(target, result)];
      if options.onDone {
        out := out + [Done];
      }
      assert data == ApplyHook(options.onBeforeRender, old(data));
      assert templateContent == ApplyHook(options.onBeforeCompile, Str(env.readFile(entry)));
      assert result == EntryContent(options, env, data, entry);
      assert target == TargetPath(outputFile, entry);
      assert out == [Write(TargetPath(outputFile, entry), EntryContent(options, env, data, entry))] + (if options.onDone then [Done] else []);
    }

    /** The "emit" hook: hands every dependency to the host and continues it. */
    method Emit(compilation: Compilation)
      modifies compilation
      ensures compilation.fileDependencies == old(compilation.fileDependencies) + plugin.fileDependencies
      ensures compilation.doneCalls == old(compilation.doneCalls) + 1
      ensures plugin.fileDependencies == old(plugin.fileDependencies)
    {
      compilation.fileDependencies := compilation.fileDependencies + plugin.fileDependencies;
      compilation.doneCalls := compilation.doneCalls + 1;
    }
  }
}
