/**
 * Node's `path.basename` and `path.extname` for POSIX paths, the two path
 * helpers the plugin uses to name its outputs.
 */
module PosixPath {
  import opened Wrappers

  /** The last index of `c` in `s`, scanning from the end as Node's implementation does. */
  function LastIndexOf(s: string, c: char): Option<nat> {
    if s == [] then None
    else if s[|s| - 1] == c then Some(|s| - 1)
    else LastIndexOf(s[..|s| - 1], c)
  }

  /** LastIndexOf finds the last occurrence, and finds none exactly when there is none. */
  lemma {:induction false} LastIndexOfSpec(s: string, c: char)
    ensures var r := LastIndexOf(s, c);
      && (r.Some? ==> r.value < |s| && s[r.value] == c)
      && (r.Some? ==> forall j :: r.value < j < |s| ==> s[j] != c)
      && (r.None? <==> c !in s)
  {
    if s != [] && s[|s| - 1] != c {
      LastIndexOfSpec(s[..|s| - 1], c);
      assert s == s[..|s| - 1] + [s[|s| - 1]];
    }
  }

  /** `p` without its trailing slashes. */
  function TrimTrailingSlashes(p: string): (r: string)
    ensures |r| <= |p| && r == p[..|r|]
    ensures r == [] || r[|r| - 1] != '/'
    ensures forall j :: |r| <= j < |p| ==> p[j] == '/'
  {
    if p != [] && p[|p| - 1] == '/' then TrimTrailingSlashes(p[..|p| - 1]) else p
  }

  /** `path.basename(p)`: the last segment of `p`, trailing slashes ignored. */
  function Basename(p: string): string {
    var t := TrimTrailingSlashes(p);
    match LastIndexOf(t, '/')
    case None => t
    case Some(i) => LastIndexOfSpec(t, '/'); t[i + 1..]
  }

  /**
   * `path.extname(p)`: from the last dot of the basename on, except that a
   * basename whose only dot is its first character (".bashrc"), one without a
   * dot, and ".." have no extension.
   */
  function Extname(p: string): string {
    var b := Basename(p);
    match LastIndexOf(b, '.')
    case None => ""
    case Some(d) => LastIndexOfSpec(b, '.'); if d == 0 || b == ".." then "" else b[d..]
  }

  /** The basename is a slash-free suffix of the path with its trailing slashes removed. */
  lemma BasenameShape(p: string)
    ensures '/' !in Basename(p)
    ensures var t := TrimTrailingSlashes(p);
      |Basename(p)| <= |t| && Basename(p) == t[|t| - |Basename(p)|..]
    ensures var t := TrimTrailingSlashes(p); var b := Basename(p);
      |b| < |t| ==> t[|t| - |b| - 1] == '/'
    ensures Basename(p) == [] ==> forall j :: 0 <= j < |p| ==> p[j] == '/'
  {
    var t := TrimTrailingSlashes(p);
    LastIndexOfSpec(t, '/');
    match LastIndexOf(t, '/')
    case None =>
    case Some(i) =>
      assert t[i + 1..] == t[|t| - |t[i + 1..]|..];
  }

  /** A path without a slash is its own basename. */
  lemma BasenameWithoutSlash(p: string)
    requires '/' !in p
    ensures Basename(p) == p
  {
    assert TrimTrailingSlashes(p) == p by {
      if p != [] { assert p[|p| - 1] in p; }
    }
    LastIndexOfSpec(p, '/');
  }

  /** The basename of `dir + "/" + name` is `name` when `name` is a non-empty segment. */
  lemma BasenameOfJoin(dir: string, name: string)
    requires name != [] && '/' !in name
    ensures Basename(dir + "/" + name) == name
  {
    var p := dir + "/" + name;
    assert p[|p| - 1] == name[|name| - 1];
    assert TrimTrailingSlashes(p) == p;
    var r := LastIndexOf(p, '/');
    LastIndexOfSpec(p, '/');
    assert p[|dir|] == '/';
    assert forall j :: |dir| < j < |p| ==> p[j] != '/' by {
      forall j | |dir| < j < |p| ensures p[j] != '/' {
        assert p[j] == name[j - |dir| - 1];
      }
    }
    assert r.value == |dir|;
    assert p[|dir| + 1..] == name;
  }

  /**
   * The extension is empty or starts with its only dot, and is a proper
   * suffix of the basename; the basename `..` has no extension.
   */
  lemma ExtnameShape(p: string)
    ensures var e := Extname(p); var b := Basename(p);
      e == [] || (e[0] == '.' && '.' !in e[1..] && |e| < |b| && b[|b| - |e|..] == e)
    ensures Basename(p) == ".." ==> Extname(p) == ""
  {
    LastIndexOfSpec(Basename(p), '.');
  }

  /** A basename without a dot has no extension. */
  lemma ExtnameNoDot(p: string)
    requires '.' !in Basename(p)
    ensures Extname(p) == ""
  {
    LastIndexOfSpec(Basename(p), '.');
  }

  /** The last occurrence is determined by the characters at and after it. */
  lemma LastIndexOfIs(s: string, c: char, i: nat)
    requires i < |s| && s[i] == c
    requires forall j :: i < j < |s| ==> s[j] != c
    ensures LastIndexOf(s, c) == Some(i)
  {
    LastIndexOfSpec(s, c);
    assert c in s;
  }

  /** A basename `b` whose last dot is at `d > 0` has the extension `b[d..]`. */
  lemma ExtnameAt(p: string, d: nat)
    requires var b := Basename(p);
      0 < d < |b| && b[d] == '.' && (forall j :: d < j < |b| ==> b[j] != '.') && b != ".."
    ensures Extname(p) == Basename(p)[d..]
  {
    LastIndexOfIs(Basename(p), '.', d);
  }
}
