// Character classes and string helpers shared by the line front end of the
// shell: the variable-name scanner, the strtok-style tokenizer and echo.

module Options {
  datatype Option<T> = None | Some(value: T)
}

module Text {

  /** A character the variable scanner accepts in a name: [A-Za-z0-9_]. */
  predicate IsNameChar(c: char) {
    ('a' <= c <= 'z') || ('A' <= c <= 'Z') || ('0' <= c <= '9') || c == '_'
  }

  /** The delimiters handed to strtok: space and tab. */
  predicate IsBlank(c: char) {
    c == ' ' || c == '\t'
  }

  /** The longest prefix of s made of name characters: the variable name
      that follows a `$`. */
  function NameRun(s: string): (r: string)
    ensures |r| <= |s| && r == s[..|r|]
    ensures forall i :: 0 <= i < |r| ==> IsNameChar(r[i])
    ensures |r| < |s| ==> !IsNameChar(s[|r|])
  {
    if s == [] || !IsNameChar(s[0]) then [] else [s[0]] + NameRun(s[1..])
  }

  /** Any prefix of name characters that cannot be extended is the name. */
  lemma NameRunIs(s: string, k: nat)
    requires k <= |s|
    requires forall i :: 0 <= i < k ==> IsNameChar(s[i])
    requires k == |s| || !IsNameChar(s[k])
    ensures NameRun(s) == s[..k]
  {
  }

  /** The longest prefix of s without a blank: the token strtok returns when
      s starts with a non-blank. */
  function WordRun(s: string): (r: string)
    ensures |r| <= |s| && r == s[..|r|]
    ensures forall i :: 0 <= i < |r| ==> !IsBlank(r[i])
    ensures |r| < |s| ==> IsBlank(s[|r|])
  {
    if s == [] || IsBlank(s[0]) then [] else [s[0]] + WordRun(s[1..])
  }

  /** Any blank-free prefix that ends at a blank or at the end is the word. */
  lemma WordRunIs(s: string, k: nat)
    requires k <= |s|
    requires forall i :: 0 <= i < k ==> !IsBlank(s[i])
    requires k == |s| || IsBlank(s[k])
    ensures WordRun(s) == s[..k]
  {
  }

  /** Concatenation regrouped; stated apart so that loop proofs can use it
      without the solver searching for it. */
  lemma AppendAssoc<T>(a: seq<T>, b: seq<T>, c: seq<T>)
    ensures (a + b) + c == a + (b + c)
  {
  }

  /** The strings of ts joined with single spaces, nothing before or after. */
  function JoinSpaced(ts: seq<string>): string {
    if |ts| == 0 then ""
    else if |ts| == 1 then ts[0]
    else ts[0] + " " + JoinSpaced(ts[1..])
  }
}
