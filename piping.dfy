// The split part of handle_piping: the argument list is cut at its first `|`
// into the writer's argv and the reader's argv.

module Piping {
  import opened Options

  /** The index of the first occurrence of x in s, or -1 when x is absent. */
  function FirstIndex(s: seq<string>, x: string): (k: int)
    ensures -1 <= k < |s|
    ensures k == -1 <==> x !in s
    ensures k >= 0 ==> s[k] == x && x !in s[..k]
  {
    if s == [] then -1
    else if s[0] == x then 0
    else
      var k := FirstIndex(s[1..], x);
      assert k >= 0 ==> s[..k + 1] == [s[0]] + s[1..][..k];
      if k == -1 then -1 else k + 1
  }

  /** The two commands of a pipeline: first writes into the pipe, second
      reads from it. */
  datatype Pipe = Pipe(first: seq<string>, second: seq<string>)

  /** The split handle_piping performs, or None when it reports "no piping". */
  function SplitPipe(args: seq<string>): (p: Option<Pipe>)
    ensures p.None? <==> "|" !in args
    ensures p.Some? ==> p.value.first + ["|"] + p.value.second == args
    ensures p.Some? ==> "|" !in p.value.first
  {
    var k := FirstIndex(args, "|");
    if k == -1 then None
    else
      assert args[..k] + ["|"] + args[k + 1..] == args;
      Some(Pipe(args[..k], args[k + 1..]))
  }

  /** The split is determined: any decomposition around a `|` whose left part
      has no `|` is the one SplitPipe returns. */
  lemma SplitPipeUnique(args: seq<string>, a: seq<string>, b: seq<string>)
    requires a + ["|"] + b == args
    requires "|" !in a
    ensures SplitPipe(args) == Some(Pipe(a, b))
  {
    var k := FirstIndex(args, "|");
    assert args[|a|] == "|";
    assert forall i :: 0 <= i < |a| ==> args[i] == a[i];
    assert k == |a|;
    assert args[..k] == a;
    assert args[k + 1..] == b;
  }

  /** Only the first `|` is consumed: every later one is left in the second
      command. */
  lemma LaterPipesStay(args: seq<string>)
    requires SplitPipe(args).Some?
    ensures multiset(args)["|"] == multiset(SplitPipe(args).value.second)["|"] + 1
  {
    var p := SplitPipe(args).value;
    assert multiset(args) == multiset(p.first) + multiset{"|"} + multiset(p.second);
    assert multiset(p.first)["|"] == 0;
  }

  /** The search loop of handle_piping (shell.c:470-479), stopping at the
      first match. */
  method FindPipe(args: seq<string>) returns (pipeIndex: int)
    ensures pipeIndex == FirstIndex(args, "|")
  {
    pipeIndex := -1;
    var i := 0;
    while i < |args|
      invariant 0 <= i <= |args|
      invariant "|" !in args[..i]
    {
      if args[i] == "|" {
        pipeIndex := i;
        break;
      }
      assert args[..i + 1] == args[..i] + [args[i]];
      i := i + 1;
    }
    if pipeIndex == -1 {
      assert args[..|args|] == args;
    }
  }

  /** handle_piping up to the pipe(2) call (shell.c:470-495): find the first
      `|`, then copy the tokens before it into cmd1 and those after it into
      cmd2. */
  method SplitCommands(args: seq<string>) returns (split: Option<Pipe>)
    ensures split == SplitPipe(args)
  {
    var pipeIndex := FindPipe(args);
    if pipeIndex == -1 {
      return None;
    }
    var cmd1 := CopyRange(args, 0, pipeIndex);
    var cmd2 := CopyRange(args, pipeIndex + 1, |args|);
    assert args[0..pipeIndex] == args[..pipeIndex];
    assert args[pipeIndex + 1..|args|] == args[pipeIndex + 1..];
    split := Some(Pipe(cmd1, cmd2));
  }

  /** One of the copying loops of handle_piping (shell.c:485-495): the
      tokens from lo up to hi, in order. */
  method CopyRange(args: seq<string>, lo: nat, hi: nat) returns (cmd: seq<string>)
    requires lo <= hi <= |args|
    ensures cmd == args[lo..hi]
  {
    cmd := [];
    var i := lo;
    while i < hi
      invariant lo <= i <= hi
      invariant cmd == args[lo..i]
    {
      assert args[lo..i + 1] == args[lo..i] + [args[i]];
      cmd := cmd + [args[i]];
      i := i + 1;
    }
  }
}
