/**
 * The plugin's string calculations: the id a helper module is registered
 * under (`getHelperId`), and the name and target path of a rendered entry.
 */
module Naming {
  import opened Wrappers
  import opened Js
  import opened PosixPath

  /** The characters `.` does not match in a regular expression without the `s` flag. */
  predicate IsLineTerminator(c: char) {
    c == '\n' || c == '\r' || c == '\U{2028}' || c == '\U{2029}'
  }

  /**
   * `/\/([^\/]*).js$/` matches `path` from index `p`: a slash, a run of
   * non-slashes, any one character (the dot is not escaped), then "js" at the end.
   */
  predicate HelperPatternAt(path: string, p: nat) {
    && p + 4 <= |path|
    && path[p] == '/'
    && (forall j :: p < j < |path| - 3 ==> path[j] != '/')
    && !IsLineTerminator(path[|path| - 3])
    && path[|path| - 2..] == "js"
  }

  /** `filepath.match(/\/([^\/]*).js$/).pop()`: the captured group of the leftmost match, or None where `match` gives null and `.pop()` throws. */
  function HelperIdMatch(path: string): Option<string> {
    match FirstFrom((p: nat) => HelperPatternAt(path, p), 0, |path|)
    case None => None
    case Some(p) =>
      FirstFromSpec((q: nat) => HelperPatternAt(path, q), 0, |path|);
      Some(path[p + 1..|path| - 3])
  }

  /** `/\.?helper\.?/` can match `id` from index `i`. */
  predicate HelperTagAt(id: string, i: nat) {
    OccursAt(id, "helper", i) || (i < |id| && id[i] == '.' && OccursAt(id, "helper", i + 1))
  }

  /** The length of the greedy match of `/\.?helper\.?/` at `i`. */
  function HelperTagLength(id: string, i: nat): (n: nat)
    requires HelperTagAt(id, i)
    ensures i + n <= |id|
  {
    var lead := if id[i] == '.' && OccursAt(id, "helper", i + 1) then 1 else 0;
    var trail := if i + lead + 6 < |id| && id[i + lead + 6] == '.' then 1 else 0;
    lead + 6 + trail
  }

  /** `id.replace(/\.?helper\.?/, "")`: the leftmost match is deleted. */
  function RemoveHelperTag(id: string): string {
    match FirstFrom((i: nat) => HelperTagAt(id, i), 0, |id|)
    case None => id
    case Some(i) =>
      FirstFromSpec((j: nat) => HelperTagAt(id, j), 0, |id|);
      id[..i] + id[i + HelperTagLength(id, i)..]
  }

  /** `getHelperId(filepath)`; None where the source throws. */
  function GetHelperId(path: string): Option<string> {
    match HelperIdMatch(path)
    case None => None
    case Some(id) => Some(RemoveHelperTag(id))
  }

  /** The entry's file name: its basename with the first occurrence of its extension deleted. */
  function EntryName(entry: string): string {
    Replace(Basename(entry), Extname(entry), "")
  }

  /** The entry's target: the output pattern with its first `[name]` replaced by the entry's name. */
  function TargetPath(output: string, entry: string): string {
    Replace(output, "[name]", EntryName(entry))
  }

  // ---- getHelperId ----

  /** The module path `dir/name.js` yields `name`, with its helper tag removed. */
  lemma HelperIdOfModule(dir: string, name: string)
    requires '/' !in name
    ensures GetHelperId(dir + "/" + name + ".js") == Some(RemoveHelperTag(name))
  {
    var path := dir + "/" + name + ".js";
    var at := (p: nat) => HelperPatternAt(path, p);
    assert forall p: nat :: at(p) == HelperPatternAt(path, p);
    var n := |dir|;
    assert path[n] == '/';
    assert forall j :: n < j < |path| - 3 ==> path[j] != '/' by {
      forall j | n < j < |path| - 3 ensures path[j] != '/' {
        assert path[j] == name[j - n - 1];
      }
    }
    assert path[|path| - 3] == '.';
    assert path[|path| - 2..] == "js";
    assert HelperPatternAt(path, n);
    FirstFromSpec(at, 0, |path|);
    var r := FirstFrom(at, 0, |path|);
    assert r.Some? && r.value <= n;
    assert r.value == n;
    assert path[n + 1..|path| - 3] == name;
  }

  /** The helper id exists exactly when the path ends in some character and "js" with a slash before that character. */
  lemma HelperIdExists(path: string)
    ensures GetHelperId(path).Some? <==>
      && |path| >= 4
      && path[|path| - 2..] == "js"
      && !IsLineTerminator(path[|path| - 3])
      && '/' in path[..|path| - 3]
  {
    var at := (p: nat) => HelperPatternAt(path, p);
    assert forall p: nat :: at(p) == HelperPatternAt(path, p);
    FirstFromSpec(at, 0, |path|);
    var r := FirstFrom(at, 0, |path|);
    if r.Some? {
      assert path[r.value] == path[..|path| - 3][r.value];
    }
    if |path| >= 4 && path[|path| - 2..] == "js" && !IsLineTerminator(path[|path| - 3]) {
      var pre := path[..|path| - 3];
      var q := LastIndexOf(pre, '/');
      LastIndexOfSpec(pre, '/');
      if q.Some? {
        assert forall j :: q.value < j < |path| - 3 ==> path[j] == pre[j];
        assert HelperPatternAt(path, q.value);
      }
    }
  }

  /** The unescaped dot: a path ending in "js" without ".js" still yields an id. */
  lemma HelperIdWithoutDot()
    ensures GetHelperId("/h/foojs") == Some("fo")
  {
    var path := "/h/foojs";
    var at := (p: nat) => HelperPatternAt(path, p);
    assert forall p: nat :: at(p) == HelperPatternAt(path, p);
    assert !HelperPatternAt(path, 0) by { assert path[2] == '/'; }
    assert !HelperPatternAt(path, 1);
    assert HelperPatternAt(path, 2);
    FirstFromSpec(at, 0, |path|);
    assert FirstFrom(at, 0, |path|) == Some(2);
    assert path[3..5] == "fo";
    RemoveTagAbsent("fo");
  }

  // ---- the helper tag ----

  /** An id without "helper" in it is left as it is. */
  lemma RemoveTagAbsent(id: string)
    requires forall j :: 0 <= j ==> !OccursAt(id, "helper", j)
    ensures RemoveHelperTag(id) == id
  {
    var at := (i: nat) => HelperTagAt(id, i);
    assert forall i: nat :: at(i) == HelperTagAt(id, i);
    FirstFromSpec(at, 0, |id|);
  }

  /** `name.helper` becomes `name` when `name` holds no "helper". */
  lemma RemoveTagSuffix(name: string)
    requires forall j :: 0 <= j ==> !OccursAt(name, "helper", j)
    ensures RemoveHelperTag(name + ".helper") == name
  {
    var id := name + ".helper";
    var n := |name|;
    var at := (i: nat) => HelperTagAt(id, i);
    assert forall i: nat :: at(i) == HelperTagAt(id, i);
    assert id[n + 1..] == "helper";
    assert HelperTagAt(id, n);
    forall j: nat | j <= n ensures !OccursAt(id, "helper", j) {
      if j + 6 <= n {
        assert id[j..j + 6] == name[j..j + 6];
        assert !OccursAt(name, "helper", j);
      } else if j + 6 <= |id| {
        assert id[j..j + 6][n - j] == id[n] == '.';
      }
    }
    forall i: nat | i < n ensures !HelperTagAt(id, i) {
      assert !OccursAt(id, "helper", i);
      assert !OccursAt(id, "helper", i + 1);
    }
    FirstFromSpec(at, 0, |id|);
    var r := FirstFrom(at, 0, |id|);
    assert r == Some(n);
    assert HelperTagLength(id, n) == 7;
  }

  /** `helper.name` becomes `name`. */
  lemma RemoveTagPrefix(name: string)
    ensures RemoveHelperTag("helper." + name) == name
  {
    var id := "helper." + name;
    var at := (i: nat) => HelperTagAt(id, i);
    assert forall i: nat :: at(i) == HelperTagAt(id, i);
    assert id[..6] == "helper";
    assert HelperTagAt(id, 0);
    assert FirstFrom(at, 0, |id|) == Some(0);
    assert HelperTagLength(id, 0) == 7;
  }

  /** The usual helper module `dir/foo.helper.js` is registered as `foo`. */
  lemma HelperIdExample(dir: string)
    ensures GetHelperId(dir + "/foo.helper.js") == Some("foo")
  {
    assert RemoveHelperTag("foo.helper") == "foo" by {
      assert "foo.helper" == "foo" + ".helper";
      RemoveTagSuffix("foo");
    }
    assert dir + "/foo.helper.js" == dir + "/" + "foo.helper" + ".js";
    HelperIdOfModule(dir, "foo.helper");
  }

  // ---- entry names and target paths ----

  /** With an empty extension the basename is the name. */
  lemma EntryNameWithoutExtension(entry: string)
    requires Extname(entry) == ""
    ensures EntryName(entry) == Basename(entry)
  {
    IndexOfEmpty(Basename(entry));
    ReplaceByEmpty(Basename(entry), "", 0);
  }

  /** When the extension first occurs at the end of the basename, the name is the basename without it. */
  lemma EntryNameStripsExtension(entry: string)
    requires var b, e := Basename(entry), Extname(entry);
      |e| <= |b| && IndexOf(b, e) == Some(|b| - |e|)
    ensures var b := Basename(entry);
      EntryName(entry) == b[..|b| - |Extname(entry)|]
  {
    var b, e := Basename(entry), Extname(entry);
    IndexOfSpec(b, e);
    ReplaceByEmpty(b, e, |b| - |e|);
  }

  /** The target is the output pattern with exactly its first `[name]` swapped for the entry's name. */
  lemma TargetPathSubstitutes(output: string, entry: string, i: nat)
    requires OccursAt(output, "[name]", i) && forall j :: 0 <= j < i ==> !OccursAt(output, "[name]", j)
    requires '$' !in EntryName(entry)
    ensures TargetPath(output, entry) == output[..i] + EntryName(entry) + output[i + 6..]
  {
    ReplaceFirstLiteral(output, "[name]", EntryName(entry), i);
  }

  /** Without `[name]` in the output pattern every entry targets that same path. */
  lemma TargetPathWithoutToken(output: string, entry: string)
    requires IndexOf(output, "[name]") == None
    ensures TargetPath(output, entry) == output
  {
  }

  /** An entry whose basename is `stem.x`, with a dot-free stem and extension, is named `stem`, extension ".x". */
  lemma EntryNameOfBasename(entry: string, stem: string, x: string)
    requires stem != [] && '.' !in stem
    requires x != [] && '.' !in x
    requires Basename(entry) == stem + "." + x
    ensures Extname(entry) == "." + x
    ensures EntryName(entry) == stem
  {
    var e := "." + x;
    var b := stem + e;
    assert Basename(entry) == b;
    assert b[|stem|] == '.';
    assert forall j :: |stem| < j < |b| ==> b[j] != '.' by {
      forall j | |stem| < j < |b| ensures b[j] != '.' {
        assert b[j] == e[j - |stem|] == x[j - |stem| - 1];
      }
    }
    assert |b| >= 3;
    ExtnameAt(entry, |stem|);
    StemBeforeExtension(stem, e, b);
    ReplaceByEmpty(b, e, |stem|);
  }

  /** `dir/stem.x` with a dot-free stem and extension is named `stem`, extension ".x". */
  lemma EntryNameOfSimpleFile(dir: string, stem: string, x: string)
    requires stem != [] && '/' !in stem && '.' !in stem
    requires x != [] && '/' !in x && '.' !in x
    ensures Extname(dir + "/" + stem + "." + x) == "." + x
    ensures EntryName(dir + "/" + stem + "." + x) == stem
  {
    var b := stem + "." + x;
    assert dir + "/" + stem + "." + x == dir + "/" + b;
    assert '/' !in b by {
      forall j | 0 <= j < |b| ensures b[j] != '/' {
        if j < |stem| { assert b[j] == stem[j]; }
        else if j > |stem| { assert b[j] == x[j - |stem| - 1]; }
      }
    }
    BasenameOfJoin(dir, b);
    EntryNameOfBasename(dir + "/" + b, stem, x);
  }

  /** A bare file name `stem.x`, as a glob relative to the working directory yields it, is named `stem`. */
  lemma EntryNameOfBareFile(stem: string, x: string)
    requires stem != [] && '/' !in stem && '.' !in stem
    requires x != [] && '/' !in x && '.' !in x
    ensures Extname(stem + "." + x) == "." + x
    ensures EntryName(stem + "." + x) == stem
  {
    var b := stem + "." + x;
    assert '/' !in b by {
      forall j | 0 <= j < |b| ensures b[j] != '/' {
        if j < |stem| { assert b[j] == stem[j]; }
        else if j > |stem| { assert b[j] == x[j - |stem| - 1]; }
      }
    }
    BasenameWithoutSlash(b);
    EntryNameOfBasename(b, stem, x);
  }

  /** In `stem + e` with a dot-free stem, the dotted `e` occurs first at the end. */
  lemma StemBeforeExtension(stem: string, e: string, b: string)
    requires b == stem + e && e != [] && e[0] == '.' && '.' !in stem
    ensures OccursAt(b, e, |stem|)
    ensures forall j :: 0 <= j < |stem| ==> !OccursAt(b, e, j)
  {
    assert b[|stem|..|stem| + |e|] == e;
    forall j: nat | j < |stem| ensures !OccursAt(b, e, j) {
      assert b[j] == stem[j] != '.';
      assert j + |e| <= |b| ==> b[j..j + |e|][0] == b[j];
    }
  }

  /** The name comes from the first occurrence of the extension, not from the suffix: `a.hbs.b.hbs` is named `a.b.hbs`. */
  lemma EntryNameFirstOccurrence(entry: string)
    requires entry == "/src/a.hbs.b.hbs"
    ensures Extname(entry) == ".hbs"
    ensures EntryName(entry) == "a.b.hbs"
  {
    var b, e := "a.hbs.b.hbs", ".hbs";
    DoubleExtensionFacts(entry, b);
    BasenameOfJoin("/src", b);
    ExtnameAt(entry, 7);
    ReplaceByEmpty(b, e, 1);
  }

  /** Character facts about `/src/a.hbs.b.hbs`, kept apart from the lemma that uses them. */
  lemma DoubleExtensionFacts(entry: string, b: string)
    requires entry == "/src/a.hbs.b.hbs" && b == "a.hbs.b.hbs"
    ensures entry == "/src" + "/" + b && b != [] && '/' !in b
    ensures b[7] == '.' && (forall j :: 7 < j < |b| ==> b[j] != '.') && b != ".."
    ensures b[7..] == ".hbs"
    ensures OccursAt(b, ".hbs", 1) && !OccursAt(b, ".hbs", 0)
    ensures b[..1] + b[1 + |".hbs"|..] == "a.b.hbs"
  {
  }

  /** `dir/stem.x` through a pattern whose first `[name]` is at `i` lands at the pattern with `stem` in that place. */
  lemma TargetPathOfSimpleFile(output: string, dir: string, stem: string, x: string, i: nat)
    requires stem != [] && '/' !in stem && '.' !in stem && '$' !in stem
    requires x != [] && '/' !in x && '.' !in x
    requires OccursAt(output, "[name]", i) && forall j :: 0 <= j < i ==> !OccursAt(output, "[name]", j)
    ensures TargetPath(output, dir + "/" + stem + "." + x) == output[..i] + stem + output[i + 6..]
  {
    EntryNameOfSimpleFile(dir, stem, x);
    TargetPathSubstitutes(output, dir + "/" + stem + "." + x, i);
  }

  /** A bare `stem.x` through a pattern whose first `[name]` is at `i` lands at the pattern with `stem` in that place. */
  lemma TargetPathOfBareFile(output: string, stem: string, x: string, i: nat)
    requires stem != [] && '/' !in stem && '.' !in stem && '$' !in stem
    requires x != [] && '/' !in x && '.' !in x
    requires OccursAt(output, "[name]", i) && forall j :: 0 <= j < i ==> !OccursAt(output, "[name]", j)
    ensures TargetPath(output, stem + "." + x) == output[..i] + stem + output[i + 6..]
  {
    EntryNameOfBareFile(stem, x);
    TargetPathSubstitutes(output, stem + "." + x, i);
  }

  /** The entry name goes through `$` expansion: an entry `dir/$&.x` targets the pattern itself, `[name]` included. */
  lemma TargetPathDollarExpansion(output: string, dir: string, x: string)
    requires x != [] && '/' !in x && '.' !in x
    ensures TargetPath(output, dir + "/" + "$&" + "." + x) == output
  {
    var stem := "$&";
    assert '/' !in stem && '.' !in stem;
    EntryNameOfSimpleFile(dir, stem, x);
    ReplaceWithMatch(output, "[name]");
  }
}
