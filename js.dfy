/**
 * The few pieces of JavaScript semantics the plugin relies on: values and
 * their truthiness, the `||` operator, and `String.prototype.indexOf` and
 * `String.prototype.replace` with a string pattern (ECMAScript 2023,
 * sections 22.1.3.9, 22.1.3.19 and 22.1.3.19.1).
 */
module Js {
  import opened Wrappers

  /** A JavaScript value as far as the plugin's pipeline can observe it. */
  datatype Value =
    | Undefined
    | Null
    | Boolean(b: bool)
    | Number(n: int)
    | Str(s: string)
    | Object(fields: map<string, Value>)

  /** The object literal `{}`. */
  const EmptyObject: Value := Object(map[])

  /** The values that `if (v)` and `v || w` treat as false. */
  predicate Falsy(v: Value) {
    match v
    case Undefined => true
    case Null => true
    case Boolean(b) => !b
    case Number(n) => n == 0
    case Str(s) => s == ""
    case Object(_) => false
  }

  /** `a || b`: the left operand when it is truthy, otherwise the right one. */
  function Or(a: Value, b: Value): Value {
    if Falsy(a) then b else a
  }

  /** `a || b` is falsy only when both operands are, and is always one of them. */
  lemma OrTruthy(a: Value, b: Value)
    ensures Falsy(Or(a, b)) <==> Falsy(a) && Falsy(b)
    ensures Or(a, b) == a || Or(a, b) == b
  {
  }

  /**
   * The least position in [k, n] at which P holds: a substring or
   * regular-expression search tries its start positions from left to right.
   */
  function FirstFrom(P: nat -> bool, k: nat, n: nat): Option<nat>
    decreases n + 1 - k
  {
    if k > n then None
    else if P(k) then Some(k)
    else FirstFrom(P, k + 1, n)
  }

  /** FirstFrom finds a position where P holds with none before it in [k, n], or reports that there is none. */
  lemma {:induction false} FirstFromSpec(P: nat -> bool, k: nat, n: nat)
    decreases n + 1 - k
    ensures var r := FirstFrom(P, k, n);
      && (r.Some? ==> k <= r.value <= n && P(r.value))
      && (r.Some? ==> forall j :: k <= j < r.value ==> !P(j))
      && (r.None? <==> forall j :: k <= j <= n ==> !P(j))
  {
    if k <= n && !P(k) {
      FirstFromSpec(P, k + 1, n);
    }
  }

  /** `p` occurs in `s` starting at index `i`. */
  predicate OccursAt(s: string, p: string, i: nat) {
    i + |p| <= |s| && s[i..i + |p|] == p
  }

  /** `s.indexOf(p)`, with None for -1. */
  function IndexOf(s: string, p: string): Option<nat> {
    FirstFrom((j: nat) => OccursAt(s, p, j), 0, |s|)
  }

  /** `indexOf` finds the first occurrence, and reports none exactly when there is none anywhere. */
  lemma IndexOfSpec(s: string, p: string)
    ensures var r := IndexOf(s, p);
      && (r.Some? ==> OccursAt(s, p, r.value))
      && (r.Some? ==> forall j :: 0 <= j < r.value ==> !OccursAt(s, p, j))
      && (r.None? <==> forall j :: 0 <= j ==> !OccursAt(s, p, j))
  {
    var at := (j: nat) => OccursAt(s, p, j);
    FirstFromSpec(at, 0, |s|);
    assert forall j: nat :: at(j) == OccursAt(s, p, j);
  }

  /** The empty string occurs at the very start of every string. */
  lemma IndexOfEmpty(s: string)
    ensures IndexOf(s, "") == Some(0)
  {
    IndexOfSpec(s, "");
    assert OccursAt(s, "", 0);
  }

  /**
   * GetSubstitution for a match without capture groups: `$$` becomes `$`,
   * `$&` the matched text, `` $` `` the text before the match and `$'` the
   * text after it; every other `$` stands for itself.
   */
  function Substitution(replacement: string, str: string, position: nat, matched: string): (r: string)
    requires position + |matched| <= |str|
    decreases |replacement|
  {
    if replacement == [] then []
    else if replacement[0] == '$' && |replacement| >= 2 then
      var rest := Substitution(replacement[2..], str, position, matched);
      var c := replacement[1];
      if c == '$' then "$" + rest
      else if c == '&' then matched + rest
      else if c == '`' then str[..position] + rest
      else if c == '\'' then str[position + |matched|..] + rest
      else "$" + Substitution(replacement[1..], str, position, matched)
    else [replacement[0]] + Substitution(replacement[1..], str, position, matched)
  }

  /** A replacement without `$` is inserted as it is. */
  lemma {:induction false} SubstitutionLiteral(replacement: string, str: string, position: nat, matched: string)
    requires position + |matched| <= |str|
    requires '$' !in replacement
    ensures Substitution(replacement, str, position, matched) == replacement
  {
    if replacement != [] {
      assert replacement[0] != '$';
      assert replacement == [replacement[0]] + replacement[1..];
      SubstitutionLiteral(replacement[1..], str, position, matched);
    }
  }

  /** `s.replace(pattern, replacement)` where `pattern` is a string: only the first occurrence is replaced. */
  function Replace(s: string, pattern: string, replacement: string): string {
    match IndexOf(s, pattern)
    case None => s
    case Some(i) =>
      IndexOfSpec(s, pattern);
      s[..i] + Substitution(replacement, s, i, pattern) + s[i + |pattern|..]
  }

  /** Without an occurrence of the pattern, `replace` returns its receiver. */
  lemma ReplaceAbsent(s: string, pattern: string, replacement: string)
    requires forall j :: 0 <= j ==> !OccursAt(s, pattern, j)
    ensures Replace(s, pattern, replacement) == s
  {
    IndexOfSpec(s, pattern);
  }

  /** With a `$`-free replacement, exactly the first occurrence is swapped for it. */
  lemma ReplaceFirstLiteral(s: string, pattern: string, replacement: string, i: nat)
    requires OccursAt(s, pattern, i)
    requires forall j :: 0 <= j < i ==> !OccursAt(s, pattern, j)
    requires '$' !in replacement
    ensures Replace(s, pattern, replacement) == s[..i] + replacement + s[i + |pattern|..]
  {
    var r := IndexOf(s, pattern);
    IndexOfSpec(s, pattern);
    assert r.Some?;
    assert r.value == i;
    SubstitutionLiteral(replacement, s, i, pattern);
  }

  /** Deleting an occurrence (replacing it by "") takes out exactly that slice. */
  lemma ReplaceByEmpty(s: string, pattern: string, i: nat)
    requires OccursAt(s, pattern, i)
    requires forall j :: 0 <= j < i ==> !OccursAt(s, pattern, j)
    ensures Replace(s, pattern, "") == s[..i] + s[i + |pattern|..]
  {
    ReplaceFirstLiteral(s, pattern, "", i);
  }

  /** The replacement `$&` puts the matched text back, so the string is unchanged. */
  lemma ReplaceWithMatch(s: string, pattern: string)
    ensures Replace(s, pattern, "$&") == s
  {
    IndexOfSpec(s, pattern);
    match IndexOf(s, pattern)
    case None =>
    case Some(i) =>
      assert Substitution("$&", s, i, pattern) == pattern;
      assert s[i..i + |pattern|] == pattern;
      assert s == s[..i] + s[i..];
      assert s[i..] == s[i..i + |pattern|] + s[i + |pattern|..];
  }
}
