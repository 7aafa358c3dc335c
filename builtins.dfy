// Builtin recognition (is_builtin) and the output of the echo builtin.

module Builtins {
  import opened Text
  import Tokenizer

  /** The table is_builtin searches, in its order. */
  const BUILTINS: seq<string> := ["cd", "pwd", "echo", "env", "setenv", "exit"]

  /** The command is run inside the shell rather than in a child. */
  function IsBuiltinCommand(args: seq<string>): (b: bool)
    ensures b <==> |args| > 0 && (args[0] == "cd" || args[0] == "pwd" || args[0] == "echo"
                                  || args[0] == "env" || args[0] == "setenv" || args[0] == "exit")
  {
    |args| > 0 && args[0] in BUILTINS
  }

  /** is_builtin (shell.c:204-215): a linear search of the table for args[0];
      an empty argument list is not a builtin. */
  method IsBuiltin(args: seq<string>) returns (b: bool)
    ensures b == IsBuiltinCommand(args)
  {
    if |args| == 0 {
      return false;
    }
    var i := 0;
    while i < |BUILTINS|
      invariant 0 <= i <= |BUILTINS|
      invariant forall k :: 0 <= k < i ==> args[0] != BUILTINS[k]
    {
      if args[0] == BUILTINS[i] {
        return true;
      }
      i := i + 1;
    }
    assert args[0] != BUILTINS[0] && args[0] != BUILTINS[1] && args[0] != BUILTINS[2];
    assert args[0] != BUILTINS[3] && args[0] != BUILTINS[4] && args[0] != BUILTINS[5];
    return false;
  }

  /** The text quash_echo writes: the arguments after the command name joined
      with single spaces, then a newline. */
  function EchoOutput(args: seq<string>): (out: string)
    requires |args| >= 1
    ensures |out| >= 1 && out[|out| - 1] == '\n'
    ensures |args| == 1 ==> out == "\n"
  {
    JoinSpaced(args[1..]) + "\n"
  }

  /** quash_echo (shell.c:258-266), with the printf calls collected into the
      returned text: each argument, a space while another one follows, and a
      final newline. */
  method Echo(args: seq<string>) returns (out: string)
    requires |args| >= 1
    ensures out == EchoOutput(args)
  {
    out := "";
    var i := 1;
    while i < |args|
      invariant 1 <= i <= |args|
      invariant out + JoinSpaced(args[i..]) == JoinSpaced(args[1..])
    {
      ghost var before := out;
      out := out + args[i];
      if i + 1 < |args| {
        out := out + " ";
        assert args[i..][1..] == args[i + 1..];
        AppendAssoc(before + args[i], " ", JoinSpaced(args[i + 1..]));
        AppendAssoc(before, args[i], " " + JoinSpaced(args[i + 1..]));
      } else {
        assert args[i + 1..] == [];
      }
      i := i + 1;
    }
    assert args[i..] == [];
    out := out + "\n";
  }

  /** Echo prints its arguments as separate words: the line it writes, newline
      removed, tokenizes back to exactly args[1..]. */
  lemma EchoRetokenizes(args: seq<string>)
    requires |args| >= 1
    requires forall i :: 1 <= i < |args| ==> Tokenizer.IsToken(args[i])
    ensures |EchoOutput(args)| >= 1
    ensures EchoOutput(args)[|EchoOutput(args)| - 1] == '\n'
    ensures Tokenizer.Words(EchoOutput(args)[..|EchoOutput(args)| - 1]) == args[1..]
  {
    var out := EchoOutput(args);
    assert out[..|out| - 1] == JoinSpaced(args[1..]);
    assert forall i :: 0 <= i < |args[1..]| ==> args[1..][i] == args[i + 1];
    Tokenizer.WordsJoinSpaced(args[1..]);
  }
}
