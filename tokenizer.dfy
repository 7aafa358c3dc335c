// Whitespace tokenisation, the second pass of tokenize_input: strtok on
// " \t" over the expanded line, keeping at most MAX_ARGS - 1 tokens so that
// the NULL terminator still fits in the MAX_ARGS-slot array.

module Tokenizer {
  import opened Text
  import opened Options
  import Expansion

  /** Slots of the token array, the terminating NULL included. */
  const MAX_ARGS := 64

  /** What strtok can return: non-empty and free of spaces and tabs. */
  predicate IsToken(t: string) {
    t != [] && forall i :: 0 <= i < |t| ==> !IsBlank(t[i])
  }

  /** Every token strtok(…, " \t") would return from s, in order. */
  function Words(s: string): (ws: seq<string>)
    ensures forall i :: 0 <= i < |ws| ==> IsToken(ws[i])
    decreases |s|
  {
    if s == [] then []
    else if IsBlank(s[0]) then Words(s[1..])
    else
      var w := WordRun(s);
      [w] + Words(s[|w|..])
  }

  /** The tokens tokenize_input keeps: the first MAX_ARGS - 1 of the line's
      expansion. */
  function Tokens(input: string, env: Expansion.Env): (tokens: seq<string>)
    ensures var ws := Words(Expansion.Expand(input, env));
      |tokens| == (if |ws| < MAX_ARGS - 1 then |ws| else MAX_ARGS - 1) && tokens == ws[..|tokens|]
  {
    var ws := Words(Expansion.Expand(input, env));
    if |ws| < MAX_ARGS - 1 then ws else ws[..MAX_ARGS - 1]
  }

  /** A line yields no token exactly when it consists of blanks only. */
  lemma {:induction false} WordsEmpty(s: string)
    ensures Words(s) == [] <==> forall i :: 0 <= i < |s| ==> IsBlank(s[i])
    decreases |s|
  {
    if s != [] && IsBlank(s[0]) {
      WordsEmpty(s[1..]);
      assert forall i :: 1 <= i < |s| ==> s[i] == s[1..][i - 1];
    }
  }

  /** A single token is read back as itself. */
  lemma WordsToken(t: string)
    requires IsToken(t)
    ensures Words(t) == [t]
  {
    assert !IsBlank(t[0]);
    WordRunIs(t, |t|);
    assert t[..|t|] == t;
    assert t[|t|..] == [];
    assert Words([]) == [];
  }

  /** A blank separates: the tokens on either side of it are read
      independently. */
  lemma {:induction false} WordsSplit(a: string, b: string, d: char)
    requires IsBlank(d)
    ensures Words(a + [d] + b) == Words(a) + Words(b)
    decreases |a|
  {
    var s := a + [d] + b;
    if a == [] {
      assert s[1..] == b;
    } else if IsBlank(a[0]) {
      assert s[0] == a[0];
      assert s[1..] == a[1..] + [d] + b;
      WordsSplit(a[1..], b, d);
    } else {
      var u := WordRun(a);
      assert forall i :: 0 <= i < |a| ==> s[i] == a[i];
      assert s[|a|] == d;
      WordRunIs(s, |u|);
      assert s[..|u|] == u;
      assert Words(s) == [u] + Words(s[|u|..]);
      assert s[|u|..] == a[|u|..] + [d] + b;
      WordsSplit(a[|u|..], b, d);
      AppendAssoc([u], Words(a[|u|..]), Words(b));
    }
  }

  /** Three tokens separated by single spaces are read back as those three. */
  lemma WordsOfThree(a: string, b: string, c: string)
    requires IsToken(a) && IsToken(b) && IsToken(c)
    ensures Words(a + " " + b + " " + c) == [a, b, c]
  {
    var ts := [a, b, c];
    assert ts[1..] == [b, c] && ts[1..][1..] == [c];
    assert JoinSpaced([c]) == c;
    assert JoinSpaced([b, c]) == b + " " + c;
    assert JoinSpaced(ts) == a + " " + JoinSpaced([b, c]);
    assert a + " " + b + " " + c == a + " " + (b + " " + c);
    WordsJoinSpaced(ts);
  }

  /** Round trip with echo's joining rule: tokens joined with single spaces
      tokenize back to the same tokens. */
  lemma {:induction false} WordsJoinSpaced(ts: seq<string>)
    requires forall i :: 0 <= i < |ts| ==> IsToken(ts[i])
    ensures Words(JoinSpaced(ts)) == ts
  {
    if |ts| == 1 {
      WordsToken(ts[0]);
    } else if |ts| > 1 {
      WordsJoinSpaced(ts[1..]);
      WordsToken(ts[0]);
      assert JoinSpaced(ts) == ts[0] + [' '] + JoinSpaced(ts[1..]);
      WordsSplit(ts[0], JoinSpaced(ts[1..]), ' ');
      assert [ts[0]] + ts[1..] == ts;
    }
  }

  /** One call of strtok(…, " \t") that resumes at index from: skip blanks,
      then return the next token and the index just after it, or no token
      when only blanks remain. */
  method NextToken(s: string, from: nat) returns (token: Option<string>, next: nat)
    requires from <= |s|
    ensures next <= |s|
    ensures token.None? <==> Words(s[from..]) == []
    ensures token.Some? ==> Words(s[from..]) == [token.value] + Words(s[next..])
  {
    var i := SkipBlanks(s, from);
    if i == |s| {
      assert s[i..] == [];
      token, next := None, i;
      return;
    }
    var j := EndOfWord(s, i);
    WordAt(s, i, j);
    token, next := Some(s[i..j]), j;
  }

  /** strtok's leading strspn: the first index at or after from that is not a
      blank; the tokens from there on are those from from on. */
  method SkipBlanks(s: string, from: nat) returns (i: nat)
    requires from <= |s|
    ensures from <= i <= |s|
    ensures i < |s| ==> !IsBlank(s[i])
    ensures Words(s[i..]) == Words(s[from..])
  {
    i := from;
    while i < |s| && IsBlank(s[i])
      invariant from <= i <= |s|
      invariant Words(s[i..]) == Words(s[from..])
    {
      assert s[i..][1..] == s[i + 1..];
      i := i + 1;
    }
  }

  /** strtok's strcspn: the end of the blank-free run starting at i. */
  method EndOfWord(s: string, i: nat) returns (j: nat)
    requires i <= |s|
    ensures i <= j <= |s|
    ensures forall k :: i <= k < j ==> !IsBlank(s[k])
    ensures j == |s| || IsBlank(s[j])
  {
    j := i;
    while j < |s| && !IsBlank(s[j])
      invariant i <= j <= |s|
      invariant forall k :: i <= k < j ==> !IsBlank(s[k])
    {
      j := j + 1;
    }
  }

  /** A token starting at a non-blank i and running to a blank or the end at
      j is the next token of s[i..], and reading resumes at j. */
  lemma WordAt(s: string, i: nat, j: nat)
    requires i < j <= |s|
    requires forall k :: i <= k < j ==> !IsBlank(s[k])
    requires j == |s| || IsBlank(s[j])
    ensures Words(s[i..]) == [s[i..j]] + Words(s[j..])
  {
    var t := s[i..];
    assert !IsBlank(t[0]);
    WordRunIs(t, j - i);
    assert t[..j - i] == s[i..j];
    assert t[j - i..] == s[j..];
  }

  /** The strtok loop of tokenize_input (shell.c:133-140), over an already
      expanded line. */
  method Tokenize(expanded: string) returns (tokens: seq<string>)
    ensures |tokens| == if |Words(expanded)| < MAX_ARGS - 1 then |Words(expanded)| else MAX_ARGS - 1
    ensures tokens == Words(expanded)[..|tokens|]
  {
    tokens := [];
    assert expanded[0..] == expanded;
    var token: Option<string>, next: nat := NextToken(expanded, 0);
    while token.Some? && |tokens| < MAX_ARGS - 1
      invariant next <= |expanded|
      invariant |tokens| <= MAX_ARGS - 1
      invariant Words(expanded)
             == tokens + (if token.Some? then [token.value] + Words(expanded[next..]) else [])
    {
      ghost var before, value := tokens, token.value;
      tokens := tokens + [token.value];
      token, next := NextToken(expanded, next);
      AppendAssoc(before, [value], if token.Some? then [token.value] + Words(expanded[next..]) else []);
    }
  }

  /** tokenize_input (shell.c:96-143): expansion, then tokenisation. */
  method TokenizeInput(input: string, env: Expansion.Env) returns (tokens: seq<string>)
    ensures tokens == Tokens(input, env)
  {
    var expanded := Expansion.ExpandVariables(input, env);
    tokens := Tokenize(expanded);
  }
}
