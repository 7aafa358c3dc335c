// `$NAME` variable expansion, the first pass of tokenize_input: a `$` that is
// not preceded in the raw line by a backslash starts a reference made of the
// longest run of [A-Za-z0-9_]; the reference is replaced by the variable's
// value, or by nothing when it is unset. Everything else is copied.

module Expansion {
  import opened Text

  /** The process environment, as getenv sees it. */
  type Env = map<string, string>

  /** getenv, with "unset" read as the empty string; getenv of the empty name
      answers NULL, so a lone `$` expands to nothing. */
  function Lookup(env: Env, name: string): (v: string)
    ensures name == "" || name !in env ==> v == ""
    ensures name != "" && name in env ==> v == env[name]
  {
    if name != "" && name in env then env[name] else ""
  }

  /** The expansion of s, where afterBackslash says whether the raw character
      just before s is a backslash. */
  function ExpandFrom(s: string, afterBackslash: bool, env: Env): (r: string)
    ensures env == map[] ==> |r| <= |s|
    decreases |s|
  {
    if s == [] then []
    else if s[0] == '$' && !afterBackslash then
      var name := NameRun(s[1..]);
      // the raw character before the rest is the `$` or a name character
      Lookup(env, name) + ExpandFrom(s[1 + |name|..], false, env)
    else
      [s[0]] + ExpandFrom(s[1..], s[0] == '\\', env)
  }

  /** The expanded line (the contents of expanded_input). A line without `$`
      expands to itself, whatever the environment. */
  function Expand(s: string, env: Env): (r: string)
    ensures '$' !in s ==> r == s
  {
    if '$' !in s then
      ExpandLiteral(s, [], false, env);
      assert s + [] == s;
      ExpandFrom(s, false, env)
    else
      ExpandFrom(s, false, env)
  }

  /** A stretch of text without `$` is copied unchanged and in order; what
      follows it is expanded in the context of its last character. */
  lemma {:induction false} ExpandLiteral(p: string, rest: string, afterBackslash: bool, env: Env)
    requires '$' !in p
    ensures ExpandFrom(p + rest, afterBackslash, env)
         == p + ExpandFrom(rest, if p == [] then afterBackslash else p[|p| - 1] == '\\', env)
  {
    if p == [] {
      assert p + rest == rest;
    } else {
      var q := p[1..];
      var s := p + rest;
      var after := if q == [] then p[0] == '\\' else q[|q| - 1] == '\\';
      assert s[0] == p[0] && s[0] != '$';
      assert s[1..] == q + rest;
      assert ExpandFrom(s, afterBackslash, env) == [p[0]] + ExpandFrom(q + rest, p[0] == '\\', env);
      ExpandLiteral(q, rest, p[0] == '\\', env);
      assert after == (p[|p| - 1] == '\\');
      AppendAssoc([p[0]], q, ExpandFrom(rest, after, env));
      assert [p[0]] + q == p;
    }
  }

  /** An unescaped `$` followed by a maximal run of name characters is replaced
      by the variable's value ("" when unset); a lone `$` vanishes. */
  lemma ExpandReference(name: string, rest: string, env: Env)
    requires forall i :: 0 <= i < |name| ==> IsNameChar(name[i])
    requires rest == [] || !IsNameChar(rest[0])
    ensures ExpandFrom("$" + name + rest, false, env) == Lookup(env, name) + ExpandFrom(rest, false, env)
    ensures name in env && name != "" ==> ExpandFrom("$" + name + rest, false, env) == env[name] + ExpandFrom(rest, false, env)
    ensures name !in env || name == "" ==> ExpandFrom("$" + name + rest, false, env) == ExpandFrom(rest, false, env)
  {
    var s := "$" + name + rest;
    assert s[1..] == name + rest;
    NameRunIs(name + rest, |name|);
    assert (name + rest)[..|name|] == name;
    assert s[1 + |name|..] == rest;
  }

  /** A line ending in an unescaped reference: the text before it is kept and
      the reference becomes the variable's value. */
  lemma ExpandTrailingReference(p: string, name: string, env: Env)
    requires '$' !in p && (p == [] || p[|p| - 1] != '\\')
    requires forall i :: 0 <= i < |name| ==> IsNameChar(name[i])
    ensures Expand(p + "$" + name, env) == p + Lookup(env, name)
  {
    assert p + "$" + name == p + ("$" + name);
    ExpandLiteral(p, "$" + name, false, env);
    assert "$" + name + [] == "$" + name;
    ExpandReference(name, [], env);
    assert Lookup(env, name) + [] == Lookup(env, name);
  }

  /** A `$` right after a backslash is copied literally and the backslash is
      kept; scanning resumes after the `$` as after any other character. */
  lemma ExpandEscapedDollar(rest: string, afterBackslash: bool, env: Env)
    ensures ExpandFrom("\\$" + rest, afterBackslash, env) == "\\$" + ExpandFrom(rest, false, env)
  {
    var s := "\\$" + rest;
    assert s[1..] == "$" + rest;
    assert s[1..][1..] == rest;
  }

  /** One reference step of the scan: the `$` at index at is unescaped and the
      name runs up to (not including) index stop. */
  lemma ExpandReferenceAt(input: string, at: nat, stop: nat, env: Env)
    requires at < stop <= |input|
    requires input[at] == '$'
    requires forall k :: at < k < stop ==> IsNameChar(input[k])
    requires stop == |input| || !IsNameChar(input[stop])
    ensures ExpandFrom(input[at..], false, env)
         == Lookup(env, input[at + 1..stop]) + ExpandFrom(input[stop..], false, env)
  {
    var s := input[at..];
    var tail := input[at + 1..];
    assert s[0] == '$' && s[1..] == tail;
    NameRunIs(tail, stop - at - 1);
    var name := NameRun(tail);
    assert name == input[at + 1..stop] by {
      assert tail[..stop - at - 1] == input[at + 1..stop];
    }
    assert ExpandFrom(s, false, env) == Lookup(env, name) + ExpandFrom(s[1 + |name|..], false, env);
    assert s[1 + |name|..] == input[stop..];
  }

  /** One copy step of the scan: the character at index at is not the start
      of a reference, so it is copied. */
  lemma ExpandCopyAt(input: string, at: nat, afterBackslash: bool, env: Env)
    requires at < |input|
    requires input[at] != '$' || afterBackslash
    ensures ExpandFrom(input[at..], afterBackslash, env)
         == [input[at]] + ExpandFrom(input[at + 1..], input[at] == '\\', env)
  {
    assert input[at..][1..] == input[at + 1..];
  }

  /** The part of the raw line from index src on, expanded as the scan will
      expand it from there. */
  function Pending(input: string, src: nat, env: Env): string
    requires src <= |input|
  {
    ExpandFrom(input[src..], src > 0 && input[src - 1] == '\\', env)
  }

  /** The reference step in terms of the pending expansion. */
  lemma PendingReference(input: string, at: nat, stop: nat, env: Env)
    requires at < stop <= |input|
    requires input[at] == '$' && (at == 0 || input[at - 1] != '\\')
    requires forall k :: at < k < stop ==> IsNameChar(input[k])
    requires stop == |input| || !IsNameChar(input[stop])
    ensures Pending(input, at, env) == Lookup(env, input[at + 1..stop]) + Pending(input, stop, env)
  {
    ExpandReferenceAt(input, at, stop, env);
    assert input[stop - 1] == '$' || IsNameChar(input[stop - 1]);
  }

  /** The copy step in terms of the pending expansion. */
  lemma PendingCopy(input: string, at: nat, env: Env)
    requires at < |input|
    requires !(input[at] == '$' && (at == 0 || input[at - 1] != '\\'))
    ensures Pending(input, at, env) == [input[at]] + Pending(input, at + 1, env)
  {
    ExpandCopyAt(input, at, at > 0 && input[at - 1] == '\\', env);
  }

  /** The name scan after a `$` (shell.c:112-117): the end of the longest run
      of name characters starting at from. */
  method ScanName(input: string, from: nat) returns (stop: nat)
    requires from <= |input|
    ensures from <= stop <= |input|
    ensures forall k :: from <= k < stop ==> IsNameChar(input[k])
    ensures stop == |input| || !IsNameChar(input[stop])
  {
    stop := from;
    while stop < |input| && IsNameChar(input[stop])
      invariant from <= stop <= |input|
      invariant forall k :: from <= k < stop ==> IsNameChar(input[k])
    {
      stop := stop + 1;
    }
  }

  /** Expanding a raw line: the first loop of tokenize_input (shell.c:106-129),
      with dest written as an appended sequence. */
  method ExpandVariables(input: string, env: Env) returns (expanded: string)
    ensures expanded == Expand(input, env)
  {
    expanded := [];
    var src := 0;
    while src < |input|
      invariant 0 <= src <= |input|
      invariant expanded + Pending(input, src, env) == Expand(input, env)
    {
      ghost var before, at := expanded, src;
      var piece: string;
      if input[src] == '$' && (src == 0 || input[src - 1] != '\\') {
        var varStart := src + 1;
        src := ScanName(input, varStart);
        PendingReference(input, at, src, env);
        piece := Lookup(env, input[varStart..src]);
      } else {
        PendingCopy(input, at, env);
        piece := [input[src]];
        src := src + 1;
      }
      ghost var rest := Pending(input, src, env);
      expanded := expanded + piece;
      AppendAssoc(before, piece, rest);
    }
    assert input[|input|..] == [];
  }
}
