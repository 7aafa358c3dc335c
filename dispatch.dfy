// What execute_command decides about a tokenised line before anything is
// forked: the trailing `&`, then builtin, redirection, pipe or plain command,
// tried in that order.

module Dispatch {
  import opened Options
  import opened Text
  import Expansion
  import Tokenizer
  import Builtins
  import Redirection
  import Piping

  /** A token list with its background marker taken off. */
  datatype Command = Command(argv: seq<string>, background: bool)

  /** The trailing-`&` check of execute_command (shell.c:146-157): only a last
      token that is exactly `&` marks the command as background, and only
      that token is removed. */
  function StripBackground(args: seq<string>): (c: Command)
    ensures c.background <==> |args| > 0 && args[|args| - 1] == "&"
    ensures c.argv + (if c.background then ["&"] else []) == args
  {
    if |args| > 0 && args[|args| - 1] == "&" then
      assert args[..|args| - 1] + ["&"] == args;
      Command(args[..|args| - 1], true)
    else
      assert args + [] == args;
      Command(args, false)
  }

  /** An `&` anywhere but last is an ordinary argument and stays. */
  lemma AmpersandElsewhereStays(args: seq<string>, i: nat)
    requires i < |args| - 1 && args[i] == "&"
    ensures i < |StripBackground(args).argv| && StripBackground(args).argv[i] == "&"
  {
    var c := StripBackground(args);
    var tail: seq<string> := if c.background then ["&"] else [];
    assert (c.argv + tail)[i] == args[i];
  }

  /** What the shell does with a command line. */
  datatype Action =
    | RunBuiltin(argv: seq<string>)
    | RunRedirected(inputFile: Option<string>, outputFile: Option<string>, argv: seq<string>)
    | RunPiped(first: seq<string>, second: seq<string>)
    | RunPlain(argv: seq<string>, background: bool)

  /** The first command of a line (an `&` at the end already removed) has a
      redirection operator. */
  predicate HasRedirection(argv: seq<string>) {
    "<" in argv || ">" in argv
  }

  /** The choice execute_command makes (shell.c:159-172). Builtins come first
      and are never redirected, piped or sent to the background; then
      redirection, with the argv handle_redirection builds as written; then a
      pipe; otherwise a plain command, which alone keeps the background
      flag. */
  function Classify(tokens: seq<string>): (a: Action)
    ensures var c := StripBackground(tokens);
      && (a.RunBuiltin? <==> Builtins.IsBuiltinCommand(c.argv))
      && (a.RunRedirected? <==> !Builtins.IsBuiltinCommand(c.argv) && HasRedirection(c.argv))
      && (a.RunPiped? <==> !Builtins.IsBuiltinCommand(c.argv) && !HasRedirection(c.argv) && "|" in c.argv)
      && (a.RunPlain? <==> !Builtins.IsBuiltinCommand(c.argv) && !HasRedirection(c.argv) && "|" !in c.argv)
    ensures a.RunBuiltin? ==> a.argv == StripBackground(tokens).argv
    ensures a.RunRedirected? ==> var scan := Redirection.ScanOf(StripBackground(tokens).argv);
      a.inputFile == scan.inputFile && a.outputFile == scan.outputFile
      && a.argv == Redirection.ArgvAsWritten(StripBackground(tokens).argv)
    ensures a.RunPiped? ==> Piping.SplitPipe(StripBackground(tokens).argv) == Some(Piping.Pipe(a.first, a.second))
    ensures a.RunPlain? ==> a == RunPlain(StripBackground(tokens).argv, StripBackground(tokens).background)
  {
    var c := StripBackground(tokens);
    if Builtins.IsBuiltinCommand(c.argv) then RunBuiltin(c.argv)
    else
      var scan := Redirection.ScanOf(c.argv);
      if scan.Redirects() then RunRedirected(scan.inputFile, scan.outputFile, Redirection.ArgvAsWritten(c.argv))
      else
        match Piping.SplitPipe(c.argv)
        case Some(p) => RunPiped(p.first, p.second)
        case None => RunPlain(c.argv, c.background)
  }

  /** The same choice with the corrected argv filter: a redirected command
      runs with only its operators and their files removed. Every other
      action is the one the program takes. */
  function ClassifyIntended(tokens: seq<string>): (a: Action)
    ensures var c := StripBackground(tokens);
      a.RunRedirected? <==> !Builtins.IsBuiltinCommand(c.argv) && HasRedirection(c.argv)
    ensures a.RunRedirected? ==> a.argv == Redirection.RedirectedArgv(StripBackground(tokens).argv)
    ensures !a.RunRedirected? ==> a == Classify(tokens)
  {
    match Classify(tokens)
    case RunRedirected(inputFile, outputFile, _) =>
      RunRedirected(inputFile, outputFile, Redirection.RedirectedArgv(StripBackground(tokens).argv))
    case other => other
  }

  /** Where the program and the corrected filter part: they agree unless
      exactly one kind of operator occurs, and then the program runs without
      the command name the corrected filter keeps. */
  lemma ClassifyAgainstIntended(tokens: seq<string>)
    ensures var argv := StripBackground(tokens).argv;
      ("<" in argv) == (">" in argv) ==> Classify(tokens) == ClassifyIntended(tokens)
    ensures var argv := StripBackground(tokens).argv;
      Classify(tokens).RunRedirected? && ("<" in argv) != (">" in argv) && argv[0] != "<" && argv[0] != ">"
      ==> ClassifyIntended(tokens).argv == [argv[0]] + Classify(tokens).argv
  {
    var argv := StripBackground(tokens).argv;
    if Classify(tokens).RunRedirected? {
      if "<" in argv && ">" in argv {
        Redirection.AsWrittenAgreesWhenBoth(argv);
      } else if ("<" in argv) != (">" in argv) && argv[0] != "<" && argv[0] != ">" {
        Redirection.AsWrittenLosesCommandName(argv);
      }
    }
  }

  /** Builtins are never redirected: `echo hi > f &` runs echo itself with
      `>` and `f` as arguments, in the foreground. */
  lemma BuiltinIgnoresOperators()
    ensures Classify(["echo", "hi", ">", "f", "&"]) == RunBuiltin(["echo", "hi", ">", "f"])
  {
    var tokens := ["echo", "hi", ">", "f", "&"];
    assert tokens[..4] == ["echo", "hi", ">", "f"];
  }

  /** A foreground command with one redirection, `pre op file post`: the
      file is recorded for op, and the program runs pre + post without pre's
      first token (ClassifySingleIntended gives the corrected argv). */
  lemma ClassifySingleRedirect(argv: seq<string>, pre: seq<string>, op: string, file: string, post: seq<string>)
    requires op == "<" || op == ">"
    requires "<" !in pre && ">" !in pre && "<" !in post && ">" !in post
    requires file != "<" && file != ">"
    requires argv == pre + [op, file] + post
    requires argv[|argv| - 1] != "&" && !Builtins.IsBuiltinCommand(argv)
    ensures Classify(argv) == RunRedirected(if op == "<" then Some(file) else None,
                                            if op == ">" then Some(file) else None,
                                            if pre == [] then post else pre[1..] + post)
  {
    assert StripBackground(argv).argv == argv;
    Redirection.ScanSingle(argv, pre, op, file, post);
    Redirection.RedirectedSingleAsWritten(argv, pre, op, file, post);
    assert HasRedirection(argv) by {
      assert argv[|pre|] == op;
    }
  }

  /** The corrected filter on the same command runs pre + post. */
  lemma ClassifySingleIntended(argv: seq<string>, pre: seq<string>, op: string, file: string, post: seq<string>)
    requires op == "<" || op == ">"
    requires "<" !in pre && ">" !in pre && "<" !in post && ">" !in post
    requires file != "<" && file != ">"
    requires argv == pre + [op, file] + post
    requires argv[|argv| - 1] != "&" && !Builtins.IsBuiltinCommand(argv)
    ensures ClassifyIntended(argv) == RunRedirected(if op == "<" then Some(file) else None,
                                                    if op == ">" then Some(file) else None,
                                                    pre + post)
  {
    ClassifySingleRedirect(argv, pre, op, file, post);
    assert StripBackground(argv).argv == argv;
    Redirection.RedirectedSingle(argv, pre, op, file, post);
  }

  /** Redirection is tried before piping: in `cat < in | wc` the `|` is an
      argument of the redirected command. As written the filter also drops
      cat, so execvp is asked to run `|` with argument wc. */
  lemma RedirectionBeforePipe()
    ensures Classify(["cat", "<", "in", "|", "wc"]) == RunRedirected(Some("in"), None, ["|", "wc"])
  {
    var argv := ["cat", "<", "in", "|", "wc"];
    CatLineShape(argv);
    ClassifySingleRedirect(argv, ["cat"], "<", "in", ["|", "wc"]);
    assert ["cat"][1..] + ["|", "wc"] == ["|", "wc"];
  }

  /** The corrected filter runs cat with arguments `|` and wc. */
  lemma RedirectionBeforePipeIntended()
    ensures ClassifyIntended(["cat", "<", "in", "|", "wc"]) == RunRedirected(Some("in"), None, ["cat", "|", "wc"])
  {
    var argv := ["cat", "<", "in", "|", "wc"];
    CatLineShape(argv);
    ClassifySingleIntended(argv, ["cat"], "<", "in", ["|", "wc"]);
    assert ["cat"] + ["|", "wc"] == ["cat", "|", "wc"];
  }

  lemma CatLineShape(argv: seq<string>)
    requires argv == ["cat", "<", "in", "|", "wc"]
    ensures argv == ["cat"] + ["<", "in"] + ["|", "wc"]
    ensures "<" !in ["cat"] && ">" !in ["cat"] && "<" !in ["|", "wc"] && ">" !in ["|", "wc"]
    ensures argv[|argv| - 1] != "&" && !Builtins.IsBuiltinCommand(argv)
  {
    assert argv[0] == "cat";
  }

  /** The line a user types, expanded and tokenised; None when it holds no
      token, which main passes over (shell.c:67-74). */
  function ParseLine(input: string, env: Expansion.Env): (a: Option<Action>)
    ensures a.None? <==> Tokenizer.Tokens(input, env) == []
  {
    var tokens := Tokenizer.Tokens(input, env);
    if tokens == [] then None else Some(Classify(tokens))
  }

  /** A line is passed over exactly when its expansion is blanks only. */
  lemma ParseLineBlank(input: string, env: Expansion.Env)
    ensures ParseLine(input, env).None?
        <==> forall i :: 0 <= i < |Expansion.Expand(input, env)| ==> IsBlank(Expansion.Expand(input, env)[i])
  {
    Tokenizer.WordsEmpty(Expansion.Expand(input, env));
  }

  /** `echo hello $USER` with USER=bob: the reference is expanded before
      tokenisation, echo is run as a builtin and prints "hello bob". */
  lemma EchoExpandsVariable()
    ensures ParseLine("echo hello $USER", map["USER" := "bob"]) == Some(RunBuiltin(["echo", "hello", "bob"]))
    ensures Builtins.EchoOutput(["echo", "hello", "bob"]) == "hello bob\n"
  {
    EchoLineTokenized(map["USER" := "bob"]);
    EchoLineClassified();
    EchoLineOutput();
  }

  lemma EchoLineTokenized(env: Expansion.Env)
    requires env == map["USER" := "bob"]
    ensures Tokenizer.Tokens("echo hello $USER", env) == ["echo", "hello", "bob"]
  {
    EchoLineExpands(env);
    EchoLineWords();
  }

  lemma EchoLineClassified()
    ensures Classify(["echo", "hello", "bob"]) == RunBuiltin(["echo", "hello", "bob"])
  {
    var argv := ["echo", "hello", "bob"];
    assert argv[2] != "&";
    assert StripBackground(argv) == Command(argv, false);
    assert Builtins.IsBuiltinCommand(argv) by {
      assert Builtins.BUILTINS[2] == argv[0];
    }
  }

  lemma EchoLineOutput()
    ensures Builtins.EchoOutput(["echo", "hello", "bob"]) == "hello bob\n"
  {
    var args := ["echo", "hello", "bob"];
    assert args[1..] == ["hello", "bob"];
    assert ["hello", "bob"][1..] == ["bob"];
    assert JoinSpaced(["hello", "bob"]) == "hello" + " " + "bob";
    assert "hello" + " " + "bob" + "\n" == "hello bob\n";
  }

  lemma EchoLineExpands(env: Expansion.Env)
    requires env == map["USER" := "bob"]
    ensures Expansion.Expand("echo hello $USER", env) == "echo hello bob"
  {
    var p, name := "echo hello ", "USER";
    assert "echo hello $USER" == p + "$" + name;
    EchoLinePieces();
    Expansion.ExpandTrailingReference(p, name, env);
    assert Expansion.Lookup(env, name) == "bob";
    assert p + "bob" == "echo hello bob";
  }

  lemma EchoLinePieces()
    ensures '$' !in "echo hello " && "echo hello "[10] != '\\'
    ensures forall i :: 0 <= i < 4 ==> IsNameChar("USER"[i])
  {
  }

  lemma EchoLineWords()
    ensures Tokenizer.Words("echo hello bob") == ["echo", "hello", "bob"]
  {
    assert "echo hello bob" == "echo" + " " + "hello" + " " + "bob";
    EchoLineTokens();
    Tokenizer.WordsOfThree("echo", "hello", "bob");
  }

  lemma EchoLineTokens()
    ensures Tokenizer.IsToken("echo") && Tokenizer.IsToken("hello") && Tokenizer.IsToken("bob")
  {
  }

  /** The trailing-`&` check as execute_command performs it on its token
      array. */
  method DetectBackground(args: seq<string>) returns (argv: seq<string>, background: bool)
    ensures Command(argv, background) == StripBackground(args)
  {
    argv, background := args, false;
    var argCount := |args|;
    if argCount > 0 && args[argCount - 1] == "&" {
      background := true;
      argv := args[..argCount - 1];
    }
  }

  /** execute_command up to the point where it forks (shell.c:145-172),
      composed of the modelled steps: background check, builtin test,
      operator scan and argv filter, pipe split. */
  method ExecuteCommand(tokens: seq<string>) returns (action: Action)
    ensures action == Classify(tokens)
  {
    var argv, background := DetectBackground(tokens);
    var builtin := Builtins.IsBuiltin(argv);
    if builtin {
      return RunBuiltin(argv);
    }
    var scan := Redirection.ScanOperators(argv);
    if scan.Redirects() {
      var newArgs := Redirection.FilterArgsAsWritten(argv, scan.inputAt, scan.outputAt);
      return RunRedirected(scan.inputFile, scan.outputFile, newArgs);
    }
    var split := Piping.SplitCommands(argv);
    if split.Some? {
      return RunPiped(split.value.first, split.value.second);
    }
    action := RunPlain(argv, background);
  }

  /** One turn of main's loop after fgets (shell.c:67-74): tokenise, and run
      the line when it has a first token. */
  method HandleLine(input: string, env: Expansion.Env) returns (action: Option<Action>)
    ensures action == ParseLine(input, env)
  {
    var tokens := Tokenizer.TokenizeInput(input, env);
    if |tokens| == 0 {
      return None;
    }
    var a := ExecuteCommand(tokens);
    action := Some(a);
  }
}
