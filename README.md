# Handlebars webpack plugin, modelled in Dafny

`HandlebarsPlugin` is a webpack plugin that renders Handlebars templates to files.

When it is constructed, it registers the helpers named in its `helpers` option:
- a string value is a glob of helper modules, each registered under an id derived from its path;
- any other value is registered under its key.

The plugin keeps an append-only list of file dependencies.

On every "compile" event it:
- adds the partials' paths to that list;
- globs the entry pattern;
- for each entry in glob order, reads the template, lets the three user hooks `onBeforeCompile`, `onBeforeRender` and `onBeforeSave` override the template, the render data and the result, and writes the result to the output pattern. In that pattern only the first `[name]` is replaced by the entry's name, and `$` patterns in the name are expanded as `replace` expands them.

The render data is shared by all entries and passes, so `onBeforeRender`'s value carries forward. On every "emit" event the plugin hands its dependency list to the compilation.

The project has five files:
- `wrappers.dfy`: `Option` and `Result`.
- `js.dfy`: the JavaScript semantics the plugin relies on.
  - Truthiness and `||`.
  - `indexOf`, and `replace` with a string pattern. Only the first occurrence is replaced, and the `$` patterns of the replacement are expanded as GetSubstitution in ECMAScript 2023, section 22.1.3.19.1, does it.
  - A leftmost search that the regular-expression matches are built on.
- `posix_path.dfy`: Node's POSIX `path.basename` and `path.extname`.
- `naming.dfy`: the string calculations.
  - `GetHelperId` models both regular expressions exactly. The dot in `.js$` is not escaped, so it matches any character except a line terminator. When the first pattern does not match, `.pop()` throws; this is modelled as `None`.
  - The entry name: the basename with the first occurrence of its extension deleted.
  - The target path.
- `plugin.dfy`: the plugin itself.
  - Helper registration, as spec functions over a `Registry` of registered ids and dependencies.
  - The compile pass over the entries, as spec functions that return the data left for the next entry and the effects (`Write(path, content)` and `Done` for each `onDone` call).
  - Three classes:
    - `HandlebarsPlugin`, with its `fileDependencies` and the registered helper ids;
    - `CompilerHooks`, the closures that `apply` registers, with the shared `data` variable;
    - `Compilation`, the host object that "emit" updates.
  - Each method is proved against the spec functions, and the properties are proved as lemmas about those functions.

The registration functions take the id function as a parameter. The plugin passes `GetHelperId`, so the registration lemmas hold for any id function, `getHelperId` included.

The file system, the glob walks, the Handlebars renderer and the user's hooks appear as parameters:
- `Env.readFile` and `Env.render`;
- `globSync`, and the `globbed` result of the glob callback;
- the hooks are `Option<Value -> Value>`.

Where a hook returns a falsy value, the old value is kept.

This model follows `index.js` rather than the type declarations in `index.d.ts`:
- the hooks take `(Handlebars, value)`;
- `getTargetFilepath`, the `[path]` token and `components` are declared but never implemented, so they are not modelled;
- `entry` and `output` are declared optional, with the input path stripped of its extension as the default `output`, but `index.js` implements no default.

## Model

| member | source | states |
|---|---|---|
| Js.Falsy | index.js:35 | the values that `if (v)` and the `or` operator treat as false: `undefined`, `null`, `false`, `0` and the empty string; every object is truthy |
| Js.Or | index.js:35 | the JavaScript `or` operator: the left operand when it is truthy, otherwise the right one |
| Js.IndexOf | index.js:103 | `s.indexOf(p)`: the least start position at which `p` occurs in `s`, or none for `-1` |
| Js.Replace | index.js:119 | `s.replace(pattern, replacement)` with a string pattern: the first occurrence is replaced by the `$`-expanded replacement; without an occurrence `s` is returned |
| Js.Substitution | index.js:119 | the replacement text `replace` inserts: `$$` becomes `$`, `$&` the matched text, `` $` `` the text before the match, `$'` the text after it, and any other `$` stands for itself |
| Js.OrTruthy | index.js:105-117 | the JavaScript `or` of two values is falsy exactly when both operands are, and it is always one of the two operands |
| Js.FirstFromSpec | index.js:17-18 | a leftmost search returns the first position in range where the pattern matches, with no match before it; it returns none exactly when the pattern matches nowhere in range |
| Js.IndexOfSpec | index.js:103 | `indexOf` returns an occurrence with no earlier occurrence, and returns none exactly when the pattern occurs nowhere |
| Js.IndexOfEmpty | index.js:103 | the empty string is found at index 0 of every string |
| Js.SubstitutionLiteral | index.js:119 | a replacement string without `$` is inserted literally |
| Js.ReplaceAbsent | index.js:119 | `replace` returns its receiver unchanged when the pattern does not occur |
| Js.ReplaceFirstLiteral | index.js:119 | with a `$`-free replacement, exactly the first occurrence is swapped and the rest of the string is kept |
| Js.ReplaceByEmpty | index.js:103 | replacing by `""` deletes exactly the first occurrence |
| Js.ReplaceWithMatch | index.js:119 | the replacement `$&` puts the matched text back, so the string is unchanged |
| PosixPath.Basename | index.js:101 | `path.basename(p)`: the part of `p` after its last slash, once trailing slashes are removed |
| PosixPath.Extname | index.js:102 | `path.extname(p)`: the basename from its last dot on, or empty when the basename has no dot, starts with its only dot, or is `..` |
| PosixPath.LastIndexOfSpec | index.js:101-102 | the last-occurrence scan finds the last index of the character, and none exactly when it is absent |
| PosixPath.TrimTrailingSlashes | index.js:101 | the result is a prefix of the path that does not end in `/`, and only slashes were removed |
| PosixPath.BasenameShape | index.js:101 | the basename contains no slash and is a suffix of the path without its trailing slashes. It is the whole last segment: a slash comes right before it unless it is the whole trimmed path. It is empty only for an all-slash path |
| PosixPath.BasenameWithoutSlash | index.js:101 | a path without a slash, such as a bare file name from a relative glob, is its own basename |
| PosixPath.BasenameOfJoin | index.js:101 | the basename of `dir/name` is `name` when `name` is a non-empty segment |
| PosixPath.ExtnameShape | index.js:102 | the extension is empty, or starts with the basename's last dot, has no other dot, and is a proper suffix of the basename; the basename `..` has no extension |
| PosixPath.ExtnameNoDot | index.js:102 | a basename without a dot has an empty extension |
| PosixPath.ExtnameAt | index.js:102 | when the last dot of a basename (other than `..`) is at a position `d > 0`, the extension is the basename from `d` on |
| Naming.HelperIdMatch | index.js:17 | `filepath.match(/\/([^\/]*).js$/).pop()`: the group captured by the leftmost match, which runs from just after a slash to three characters before the end; none where `match` returns null and `.pop()` throws |
| Naming.RemoveHelperTag | index.js:18 | `id.replace(/\.?helper\.?/, "")`: the leftmost match of the tag, taking each optional dot when it is there, is deleted; an id without a match is kept |
| Naming.GetHelperId | index.js:16-19 | `getHelperId(path)`: the group captured by the leftmost match of `/\/([^\/]*).js$/`, with the leftmost greedy match of `/\.?helper\.?/` deleted; none where there is no match and `.pop()` throws |
| Naming.EntryName | index.js:101-103 | the entry's basename with the first occurrence of its extension deleted |
| Naming.TargetPath | index.js:119 | the output pattern with its first `[name]` replaced by the entry name, going through `replace`'s `$` expansion |
| Naming.HelperIdOfModule | index.js:16-19 | for `dir/name.js` with a slash-free `name`, the id is `name` with its first `.?helper.?` match removed |
| Naming.HelperIdExists | index.js:17 | an id exists exactly when the path is at least four characters long and ends in a non-line-terminator and `js`, with a slash before that character |
| Naming.HelperIdWithoutDot | index.js:17 | because the dot is unescaped, `/h/foojs` yields the id `fo` |
| Naming.RemoveTagAbsent | index.js:18 | an id without `helper` is kept |
| Naming.RemoveTagSuffix | index.js:18 | `name.helper` becomes `name` when `name` holds no `helper` |
| Naming.RemoveTagPrefix | index.js:18 | `helper.name` becomes `name` |
| Naming.HelperIdExample | index.js:16-19 | `dir/foo.helper.js` is registered as `foo` |
| Naming.EntryNameWithoutExtension | index.js:101-103 | with an empty extension, the name is the basename unchanged |
| Naming.EntryNameStripsExtension | index.js:101-103 | when the extension first occurs at the end of the basename, the name is the basename without its extension |
| Naming.EntryNameOfBasename | index.js:101-103 | an entry whose basename is `stem.x`, with dot-free `stem` and `x`, has extension `.x` and name `stem` |
| Naming.EntryNameOfSimpleFile | index.js:101-103 | `dir/stem.x` with dot-free `stem` and `x` has extension `.x` and name `stem` |
| Naming.EntryNameOfBareFile | index.js:101-103 | a bare file name `stem.x`, without a directory, has extension `.x` and name `stem` |
| Naming.EntryNameFirstOccurrence | index.js:103 | the first occurrence of the extension is deleted, not the suffix: `/src/a.hbs.b.hbs` is named `a.b.hbs` |
| Naming.TargetPathSubstitutes | index.js:119 | the target is the output pattern with only its first `[name]` replaced by the entry name, when that name has no `$` |
| Naming.TargetPathWithoutToken | index.js:119 | an output pattern without `[name]` is the target of every entry |
| Naming.TargetPathOfSimpleFile | index.js:101-119 | `dir/stem.x` writes to the pattern with its first `[name]` replaced by `stem` |
| Naming.TargetPathOfBareFile | index.js:101-119 | a bare file name `stem.x` writes to the pattern with its first `[name]` replaced by `stem` |
| Naming.TargetPathDollarExpansion | index.js:119 | an entry named `$&` writes to the output pattern itself, `[name]` included, because the name goes through `$` expansion |
| Plugin.ApplyHook | index.js:105-117 | for a set hook, the hook's result when it is truthy and otherwise the old value; for an unset hook, the old value |
| Plugin.ApplyHookOverride | index.js:105-117 | a hook that is unset or returns a falsy value keeps the old value; a truthy result replaces it |
| Plugin.EntryContent | index.js:100-117 | what an entry writes: its file content, through `onBeforeCompile`, rendered with the data, then through `onBeforeSave` |
| Plugin.PassDependencies | index.js:92-100 | the dependencies a pass adds: the partials' paths, then, when the glob succeeds, every entry path in glob order |
| Plugin.PartialPaths | index.js:92 | the dependencies a pass adds for partials are the partials' paths, one per partial, in key order |
| Plugin.RegisterModules | index.js:47-50 | the inner loop: each globbed module in order is registered under its id and added as a dependency; it throws at the first module that has no id |
| Plugin.RegisterHelpers | index.js:40-56 | the constructor's loop over the keys of `helpers` in order: a function is registered under its key, a glob's modules are registered by the inner loop; it stops at the first throw |
| Plugin.ModuleIds | index.js:48 | the ids of the given module paths that have one, in order |
| Plugin.HelperIds | index.js:48-54 | the ids the `helpers` option asks for, in order: a function's key, or the ids of a glob's modules |
| Plugin.GlobbedModules | index.js:46-49 | the module paths the globs of `helpers` find, in key order and then glob order |
| Plugin.RegisterModulesAll | index.js:47-50 | when every globbed module has an id, all their ids are registered and all their paths become dependencies, in glob order |
| Plugin.RegisterModulesStops | index.js:47-50 | at the first module without an id, registration throws there, after registering exactly the modules before it |
| Plugin.RegisterModulesOutcome | index.js:47-50 | module registration completes only when every module has an id, and then their paths are appended to the dependencies and their ids to the registered ids, in order; it throws only at the first module that has no id |
| Plugin.RegisterHelpersOutcome | index.js:40-56 | the constructor's loop completes only when every globbed module has an id. Then the dependencies gain all globbed modules in order, and the registered ids gain `HelperIds`: each function's key and each module's id, in key order. It throws only at the first globbed module without an id |
| Plugin.RegisterFunctionOutcome | index.js:53-55 | the same outcome when the first helper is a function: its key is the first id registered and no dependency is added for it |
| Plugin.RegisterGlobOutcome | index.js:45-50 | the same outcome when the first helper is a glob |
| Plugin.RegisterHelpersComplete | index.js:40-56 | when every globbed module has an id, the constructor completes |
| Plugin.RenderEntry | index.js:100-124 | one entry: the data after `onBeforeRender`, a write of the hooked rendering to the entry's target, then a `Done` when `onDone` is set |
| Plugin.RenderEntries | index.js:98-125 | the pass over the entries in glob order, each starting from the data the previous one left, with the effects concatenated in order |
| Plugin.IterateHookTruthy | index.js:110-112 | data that starts truthy stays truthy through any number of `onBeforeRender` calls |
| Plugin.RenderEntryShape | index.js:100-124 | one entry calls `onBeforeRender` once on the data, makes exactly one write, to its target path, of the hooked rendering of its template, and calls `onDone` once when it is set |
| Plugin.RenderEntriesData | index.js:110-112 | after a pass over `n` entries, the shared data has been through `onBeforeRender` exactly `n` times |
| Plugin.RenderEntriesWriteCount | index.js:98-125 | a pass writes exactly once per entry |
| Plugin.RenderEntriesWriteAt | index.js:98-125 | write `i` goes to the target of entry `i`, rendered with the data after `i + 1` calls of `onBeforeRender`, so every later entry sees what an earlier hook returned |
| Plugin.RenderEntriesDone | index.js:122-124 | `onDone` is called once per entry when it is set, and never otherwise |
| Plugin.SameTargetWithoutToken | index.js:119-120 | without `[name]` in the output pattern, every write of a pass goes to the output pattern itself |
| Plugin.IterateHookAdd | index.js:111 | `n` hook calls after `m` hook calls are `m + n` calls, so a later pass continues from the data an earlier pass left |
| Plugin.DataNeverFalsy | index.js:35 | the data starts as `options.data`, or `{}` when that is falsy, so it is truthy, and no pass leaves it falsy |
| Plugin.HandlebarsPlugin.Init | index.js:32-36 | the fields are copied from the options, the data is `options.data`, or `{}` when that is falsy, and the dependency list starts empty |
| Plugin.HandlebarsPlugin.Construct | index.js:27-57 | `new HandlebarsPlugin(options)` succeeds exactly when helper registration completes; the new plugin then holds the registered ids and the registered module paths as its dependencies, which by `RegisterHelpersOutcome` are `HelperIds` and the globbed modules |
| Plugin.HandlebarsPlugin.RegisterAll | index.js:40-56 | the nested loop over the helpers and their globbed modules ends with the state registration computes, and returns the throwing path exactly when registration throws |
| Plugin.HandlebarsPlugin.ReadFile | index.js:61-64 | appends the path exactly once, leaves helpers unchanged, and returns the file's content |
| Plugin.HandlebarsPlugin.AddDependency | index.js:66-68 | the new list is the old list followed by the arguments in order, with duplicates kept |
| Plugin.CompilerHooks.Apply | index.js:70-76 | the hooks capture the plugin's options, entry, output and data |
| Plugin.CompilerHooks.Compile | index.js:77-127 | a pass appends every partial path, then every entry path in glob order. On a glob error nothing is written and the data is unchanged; otherwise the writes and the new data are those of the pass over the entries |
| Plugin.CompilerHooks.RenderAll | index.js:98-125 | the loop over the entries appends them as dependencies in order, and its effects and data are those of the pass over the entries |
| Plugin.CompilerHooks.RenderOne | index.js:100-124 | one entry appends its path and produces the effects and data of rendering that entry |
| Plugin.CompilerHooks.Emit | index.js:129-134 | the compilation's dependencies become its old list followed by the plugin's list, the plugin's list is unchanged, and `done` is called once |

## Left out

- The Handlebars library is not modelled. It becomes parameters: `compile` followed by the template call is the function `Env.render`, and `registerHelper` is recorded only as the id it is given.
- `partialUtils.loadMap` and `partialUtils.addMap` are not part of this model. The partials are an input list of (name, path) pairs in key order, and registering them with Handlebars is not modelled.
- `glob` and `glob.sync` are inputs: a function from a pattern to paths, and the `Result` the glob callback receives. `glob.sync` is assumed never to throw.
- The glob callback's asynchrony is not modelled; the model runs the pass to completion within the compile event. In the source the compile handler returns before the callback runs. The emit of that pass can then hand over the dependency list before the pass's entry paths are added, and those paths reach the compilation only at the next emit.
- `fs.readFileSync`, `fs.outputFileSync` and `require` of helper modules are not modelled as I/O. Reads go through `Env.readFile` and writes are returned as `Write` effects; the `utf-8` encoding is not modelled.
- Logging with `console.log` and `chalk`, and the `compiler.plugin` registration API, are left out.
- The `onBeforeSetup` and `onBeforeAddPartials` hooks are left out. They are assumed to change nothing but Handlebars and the partial map, neither of which is modelled. Both are arbitrary user functions. `onBeforeSetup` runs before the constructor reads `options`, so a hook that edits `options` would change what the plugin stores and registers.
- The compile hook never calls its `done` continuation. The model records nothing for it.
- Hooks are pure functions of the value. Mutating the value in place, object identity, exceptions thrown by a hook and hooks called with the Handlebars object are not modelled.
- An exception from `require` is not modelled.
- `Env.readFile`, `Env.render` and the writes are assumed never to throw. In the source nothing catches an exception from `fs.readFileSync`, from `Handlebars.compile` or the template call, or from `fs.outputFileSync`; one at entry `k` ends the loop. The entries before `k` are then written, and entry `k` is already a dependency, because `readFile` records the path before reading. The entries after `k` are neither read nor written. So `RenderEntriesWriteCount` and `RenderEntriesWriteAt` hold only for passes in which nothing throws.
- `options.entry` and `options.output` are assumed to be strings. In the source an omitted `output` is stored as `undefined`, and `outputFile.replace` throws a `TypeError` at the first entry. By then `readFile` has recorded that entry as a dependency and `onBeforeRender` has replaced the data; nothing has been written. An omitted `entry` is passed to `glob` as `undefined`.
- Paths use POSIX separators only. Under Windows, Node's `path` module also splits at `\`, and that is not modelled.
- Helpers registered with Handlebars before the constructor throws stay registered there. The model reports only that the constructor threw.
- Numbers are integers: floating point, `NaN` and `-0`, and their truthiness, are not modelled.
- Strings are sequences of characters, not of UTF-16 code units.
- Nothing de-duplicates dependencies. Webpack's own filtering is not part of this model.
- A lemma that two passes in a row equal one pass over the concatenated entries is not stated. Only the part that carries state between passes is stated, as `IterateHookAdd`.
