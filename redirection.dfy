// The pure parts of handle_redirection: the operator scan that records the
// last `<` and `>` and their file operands, and the argv filter that removes
// the operators and their files before the command is run.

module Redirection {
  import opened Options
  import opened Text

  /** The index of the last occurrence of x in s, or -1 when x is absent. */
  function LastIndex(s: seq<string>, x: string): (k: int)
    ensures -1 <= k < |s|
    ensures k == -1 <==> x !in s
    ensures k >= 0 ==> s[k] == x && forall j :: k < j < |s| ==> s[j] != x
  {
    if s == [] then -1
    else if s[|s| - 1] == x then |s| - 1
    else LastIndex(s[..|s| - 1], x)
  }

  /** Index k holds the last op that has a token after it. */
  predicate LastWithSuccessor(s: seq<string>, op: string, k: int) {
    0 <= k < |s| - 1 && s[k] == op && forall j :: k < j < |s| - 1 ==> s[j] != op
  }

  /** The file recorded for operator op: the token after the last op that has
      a successor. An op in the final position records nothing of its own. */
  function Operand(s: seq<string>, op: string): (f: Option<string>)
    ensures f.None? <==> forall k :: 0 <= k < |s| - 1 ==> s[k] != op
    ensures f.Some? ==> exists k :: LastWithSuccessor(s, op, k) && f == Some(s[k + 1])
  {
    if |s| < 2 then None
    else
      var t := s[..|s| - 1];
      assert forall j :: 0 <= j < |t| ==> t[j] == s[j];
      var k := LastIndex(t, op);
      if k == -1 then None
      else
        assert LastWithSuccessor(s, op, k);
        Some(s[k + 1])
  }

  /** What the scan of shell.c:381-397 leaves behind. */
  datatype Scan = Scan(inputAt: int, outputAt: int, inputFile: Option<string>, outputFile: Option<string>)
  {
    /** handle_redirection goes on to fork only when an operator was seen
        (shell.c:399-401). */
    predicate Redirects() {
      inputAt != -1 || outputAt != -1
    }
  }

  /** The scan's result, read off the whole argument list. */
  function ScanOf(args: seq<string>): (scan: Scan)
    ensures scan.Redirects() <==> "<" in args || ">" in args
    ensures scan.inputFile.Some? ==> scan.inputAt >= 0
    ensures scan.outputFile.Some? ==> scan.outputAt >= 0
  {
    Scan(LastIndex(args, "<"), LastIndex(args, ">"), Operand(args, "<"), Operand(args, ">"))
  }

  /** The last occurrence is the one with no occurrence after it. */
  lemma LastIndexIs(s: seq<string>, x: string, n: nat)
    requires n < |s| && s[n] == x
    requires forall j :: n < j < |s| ==> s[j] != x
    ensures LastIndex(s, x) == n
  {
  }

  lemma LastIndexStep(s: seq<string>, x: string, i: nat)
    requires i < |s|
    ensures LastIndex(s[..i + 1], x) == if s[i] == x then i else LastIndex(s[..i], x)
  {
    assert s[..i + 1][..i] == s[..i];
  }

  lemma OperandStep(s: seq<string>, op: string, i: nat)
    requires i < |s|
    ensures Operand(s[..if i + 2 <= |s| then i + 2 else |s|], op)
         == if s[i] == op && i + 1 < |s| then Some(s[i + 1]) else Operand(s[..i + 1], op)
  {
    if i + 2 <= |s| {
      var t := s[..i + 2];
      var u := s[..i + 1];
      assert t[..|t| - 1] == u;
      LastIndexStep(s, op, i);
      var k := LastIndex(u, op);
      assert Operand(t, op) == if k == -1 then None else Some(t[k + 1]);
      if i > 0 {
        assert u[..i] == s[..i];
        assert Operand(u, op) == if LastIndex(s[..i], op) == -1 then None else Some(u[LastIndex(s[..i], op) + 1]);
      }
    } else {
      assert s[..|s|] == s[..i + 1];
    }
  }

  /** The operator scan of handle_redirection (shell.c:381-397). */
  method ScanOperators(args: seq<string>) returns (scan: Scan)
    ensures scan == ScanOf(args)
  {
    var inputAt, outputAt := -1, -1;
    var inputFile, outputFile: Option<string> := None, None;
    var i := 0;
    while i < |args|
      invariant 0 <= i <= |args|
      invariant inputAt == LastIndex(args[..i], "<")
      invariant outputAt == LastIndex(args[..i], ">")
      invariant inputFile == Operand(args[..if i + 1 <= |args| then i + 1 else |args|], "<")
      invariant outputFile == Operand(args[..if i + 1 <= |args| then i + 1 else |args|], ">")
    {
      LastIndexStep(args, "<", i);
      LastIndexStep(args, ">", i);
      OperandStep(args, "<", i);
      OperandStep(args, ">", i);
      if args[i] == "<" {
        inputAt := i;
        if i + 1 < |args| {
          inputFile := Some(args[i + 1]);
        }
      } else if args[i] == ">" {
        outputAt := i;
        if i + 1 < |args| {
          outputFile := Some(args[i + 1]);
        }
      }
      i := i + 1;
    }
    assert args[..|args|] == args;
    scan := Scan(inputAt, outputAt, inputFile, outputFile);
  }

  /** The elements of s[lo..hi] whose index is not in drop, in their order. */
  function Kept(s: seq<string>, drop: set<int>, lo: nat, hi: nat): (r: seq<string>)
    requires lo <= hi <= |s|
    ensures |r| <= hi - lo
    decreases hi - lo
  {
    if lo == hi then []
    else Kept(s, drop, lo, hi - 1) + (if hi - 1 in drop then [] else [s[hi - 1]])
  }

  /** Filtering distributes over adjacent ranges. */
  lemma {:induction false} KeptSplit(s: seq<string>, drop: set<int>, lo: nat, mid: nat, hi: nat)
    requires lo <= mid <= hi <= |s|
    ensures Kept(s, drop, lo, hi) == Kept(s, drop, lo, mid) + Kept(s, drop, mid, hi)
    decreases hi - mid
  {
    if mid < hi {
      KeptSplit(s, drop, lo, mid, hi - 1);
      AppendAssoc(Kept(s, drop, lo, mid), Kept(s, drop, mid, hi - 1),
                  if hi - 1 in drop then [] else [s[hi - 1]]);
    }
  }

  /** A range with no dropped index is kept whole. */
  lemma {:induction false} KeptNone(s: seq<string>, drop: set<int>, lo: nat, hi: nat)
    requires lo <= hi <= |s|
    requires forall i :: lo <= i < hi ==> i !in drop
    ensures Kept(s, drop, lo, hi) == s[lo..hi]
    decreases hi - lo
  {
    if lo < hi {
      KeptNone(s, drop, lo, hi - 1);
      assert s[lo..hi - 1] + [s[hi - 1]] == s[lo..hi];
    }
  }

  /** A range whose every index is dropped contributes nothing. */
  lemma {:induction false} KeptAllDropped(s: seq<string>, drop: set<int>, lo: nat, hi: nat)
    requires lo <= hi <= |s|
    requires forall i :: lo <= i < hi ==> i in drop
    ensures Kept(s, drop, lo, hi) == []
    decreases hi - lo
  {
    if lo < hi {
      KeptAllDropped(s, drop, lo, hi - 1);
    }
  }

  /** A token whose index is not dropped reaches the result. */
  lemma KeptKeeps(s: seq<string>, drop: set<int>, k: nat)
    requires k < |s| && k !in drop
    ensures s[k] in Kept(s, drop, 0, |s|)
  {
    KeptSplit(s, drop, 0, k, |s|);
    KeptSplit(s, drop, k, k + 1, |s|);
    assert Kept(s, drop, k, k + 1) == [s[k]];
  }

  /** The indices the filter of shell.c:436-437 skips, taken literally: an
      absent operator's index is -1, so -1 + 1 == 0 is skipped too. */
  function DroppedAsWritten(inputAt: int, outputAt: int): (d: set<int>)
    ensures inputAt == -1 || outputAt == -1 ==> 0 in d
    ensures forall i :: i in d ==> i == inputAt || i == inputAt + 1 || i == outputAt || i == outputAt + 1
  {
    {inputAt, inputAt + 1, outputAt, outputAt + 1}
  }

  /** The indices the filter evidently means to skip: each operator that is
      present and the file token after it. */
  function Dropped(inputAt: int, outputAt: int): (d: set<int>)
    ensures inputAt == -1 && outputAt == -1 ==> d == {}
    ensures d <= DroppedAsWritten(inputAt, outputAt)
    ensures inputAt != -1 && outputAt != -1 ==> d == DroppedAsWritten(inputAt, outputAt)
  {
    (if inputAt != -1 then {inputAt, inputAt + 1} else {})
    + (if outputAt != -1 then {outputAt, outputAt + 1} else {})
  }

  /** The argv handle_redirection passes to execvp, as written. */
  function ArgvAsWritten(args: seq<string>): (r: seq<string>)
    ensures |r| <= |args|
  {
    var scan := ScanOf(args);
    Kept(args, DroppedAsWritten(scan.inputAt, scan.outputAt), 0, |args|)
  }

  /** The argv of a redirected command with the operators and their files
      removed, and nothing else. */
  function RedirectedArgv(args: seq<string>): (r: seq<string>)
    ensures |r| <= |args|
    ensures !ScanOf(args).Redirects() ==> r == args
  {
    var scan := ScanOf(args);
    var d := Dropped(scan.inputAt, scan.outputAt);
    if !scan.Redirects() then
      KeptNone(args, d, 0, |args|);
      assert args[0..|args|] == args;
      Kept(args, d, 0, |args|)
    else
      Kept(args, d, 0, |args|)
  }

  /** The argv filter loop of shell.c:431-442, exactly as written. */
  method FilterArgsAsWritten(args: seq<string>, inputAt: int, outputAt: int) returns (newArgs: seq<string>)
    ensures newArgs == Kept(args, DroppedAsWritten(inputAt, outputAt), 0, |args|)
  {
    newArgs := [];
    var i := 0;
    while i < |args|
      invariant 0 <= i <= |args|
      invariant newArgs == Kept(args, DroppedAsWritten(inputAt, outputAt), 0, i)
    {
      if i == inputAt || i == inputAt + 1 || i == outputAt || i == outputAt + 1 {
        i := i + 1;
        continue;
      }
      newArgs := newArgs + [args[i]];
      i := i + 1;
    }
  }

  /** The same loop with the skip test limited to operators that are present. */
  method FilterArgs(args: seq<string>, inputAt: int, outputAt: int) returns (newArgs: seq<string>)
    ensures newArgs == Kept(args, Dropped(inputAt, outputAt), 0, |args|)
  {
    newArgs := [];
    var i := 0;
    while i < |args|
      invariant 0 <= i <= |args|
      invariant newArgs == Kept(args, Dropped(inputAt, outputAt), 0, i)
    {
      if (inputAt != -1 && (i == inputAt || i == inputAt + 1))
         || (outputAt != -1 && (i == outputAt || i == outputAt + 1)) {
        i := i + 1;
        continue;
      }
      newArgs := newArgs + [args[i]];
      i := i + 1;
    }
  }

  /** With both operators present the literal skip test is the intended one. */
  lemma AsWrittenAgreesWhenBoth(args: seq<string>)
    requires "<" in args && ">" in args
    ensures ArgvAsWritten(args) == RedirectedArgv(args)
  {
    var scan := ScanOf(args);
    assert DroppedAsWritten(scan.inputAt, scan.outputAt) == Dropped(scan.inputAt, scan.outputAt);
  }

  /** With only one operator present, and not in front, the literal skip test
      loses the command name: the intended argv is args[0] followed by the one
      execvp receives. */
  lemma AsWrittenLosesCommandName(args: seq<string>)
    requires ("<" in args) != (">" in args)
    requires args[0] != "<" && args[0] != ">"
    ensures RedirectedArgv(args) == [args[0]] + ArgvAsWritten(args)
  {
    var scan := ScanOf(args);
    var i, o := scan.inputAt, scan.outputAt;
    assert i != 0 && o != 0;
    DropSetsOneAbsent(i, o);
    KeptOneMore(args, Dropped(i, o), DroppedAsWritten(i, o));
  }

  /** Two drop sets that differ only in whether index 0 is dropped. */
  lemma KeptOneMore(s: seq<string>, d: set<int>, w: set<int>)
    requires |s| > 0 && 0 !in d && 0 in w
    requires forall k :: 1 <= k ==> (k in d <==> k in w)
    ensures Kept(s, d, 0, |s|) == [s[0]] + Kept(s, w, 0, |s|)
  {
    KeptSplit(s, d, 0, 1, |s|);
    KeptSplit(s, w, 0, 1, |s|);
    KeptAgree(s, d, w, 1, |s|);
    KeptFirst(s, d);
    KeptFirst(s, w);
    var rest := Kept(s, w, 1, |s|);
    assert Kept(s, w, 0, |s|) == [] + rest;
    assert [] + rest == rest;
    assert Kept(s, d, 0, |s|) == [s[0]] + rest;
  }

  /** The first token is kept unless index 0 is dropped. */
  lemma KeptFirst(s: seq<string>, d: set<int>)
    requires |s| > 0
    ensures Kept(s, d, 0, 1) == if 0 in d then [] else [s[0]]
  {
    assert Kept(s, d, 0, 0) == [];
  }

  /** With exactly one operator index present, the literal filter skips
      index 0 on top of the corrected one and agrees with it elsewhere. */
  lemma DropSetsOneAbsent(i: int, o: int)
    requires -1 <= i && -1 <= o && i != 0 && o != 0
    requires (i == -1) != (o == -1)
    ensures 0 !in Dropped(i, o) && 0 in DroppedAsWritten(i, o)
    ensures forall k :: 1 <= k ==> (k in Dropped(i, o) <==> k in DroppedAsWritten(i, o))
  {
  }

  /** Filtering the same range with sets that agree on it gives the same. */
  lemma {:induction false} KeptAgree(s: seq<string>, d: set<int>, e: set<int>, lo: nat, hi: nat)
    requires lo <= hi <= |s|
    requires forall i :: lo <= i < hi ==> (i in d <==> i in e)
    ensures Kept(s, d, lo, hi) == Kept(s, e, lo, hi)
    decreases hi - lo
  {
    if lo < hi {
      KeptAgree(s, d, e, lo, hi - 1);
    }
  }

  /** The counterexample: `printf x > out.txt` runs the program "x". */
  lemma AsWrittenRunsWrongProgram()
    ensures ArgvAsWritten(["printf", "x", ">", "out.txt"]) == ["x"]
    ensures RedirectedArgv(["printf", "x", ">", "out.txt"]) == ["printf", "x"]
  {
    var args := ["printf", "x", ">", "out.txt"];
    assert ["printf", "x"] + [">", "out.txt"] + [] == args;
    RedirectedSingle(args, ["printf", "x"], ">", "out.txt", []);
    assert "<" !in args && ">" in args by {
      assert args[2] == ">";
    }
    AsWrittenLosesCommandName(args);
    assert ["printf", "x"] == ["printf"] + ["x"];
    assert ["printf"] + ArgvAsWritten(args) == ["printf"] + ["x"];
    assert ArgvAsWritten(args) == (["printf"] + ArgvAsWritten(args))[1..];
  }

  /** `pre op file post` with a single operator: the scan records file for
      op, and the argv is pre followed by post. */
  lemma RedirectedSingle(args: seq<string>, pre: seq<string>, op: string, file: string, post: seq<string>)
    requires op == "<" || op == ">"
    requires "<" !in pre && ">" !in pre && "<" !in post && ">" !in post
    requires file != "<" && file != ">"
    requires args == pre + [op, file] + post
    ensures op == "<" ==> ScanOf(args) == Scan(|pre|, -1, Some(file), None)
    ensures op == ">" ==> ScanOf(args) == Scan(-1, |pre|, None, Some(file))
    ensures RedirectedArgv(args) == pre + post
  {
    var n := |pre|;
    ScanSingle(args, pre, op, file, post);
    var d: set<int> := {n, n + 1};
    if op == "<" {
      assert Dropped(n, -1) == d;
    } else {
      assert Dropped(-1, n) == d;
    }
    KeptCut(args, pre, [op, file], post, d);
  }

  /** Dropping exactly the indices of the middle piece leaves the outer
      pieces. */
  lemma KeptCut(s: seq<string>, pre: seq<string>, mid: seq<string>, post: seq<string>, d: set<int>)
    requires s == pre + mid + post
    requires forall i :: 0 <= i < |s| ==> (i in d <==> |pre| <= i < |pre| + |mid|)
    ensures Kept(s, d, 0, |s|) == pre + post
  {
    KeptGap(s, d, |pre|, |pre| + |mid|);
    assert s[..|pre|] == pre;
    assert s[|pre| + |mid|..] == post;
  }

  /** What the program as written runs for `pre op file post`: with pre
      non-empty its first token is lost as well; with the operator in front
      nothing more is lost, because index 0 is the operator itself. */
  lemma RedirectedSingleAsWritten(args: seq<string>, pre: seq<string>, op: string, file: string, post: seq<string>)
    requires op == "<" || op == ">"
    requires "<" !in pre && ">" !in pre && "<" !in post && ">" !in post
    requires file != "<" && file != ">"
    requires args == pre + [op, file] + post
    ensures ArgvAsWritten(args) == if pre == [] then post else pre[1..] + post
  {
    if pre == [] {
      LeadingOperatorAsWritten(args, op, file, post);
    } else {
      CommandFirstAsWritten(args, pre, op, file, post);
    }
  }

  /** `op file post`: the literal filter's extra index 0 is the operator. */
  lemma LeadingOperatorAsWritten(args: seq<string>, op: string, file: string, post: seq<string>)
    requires op == "<" || op == ">"
    requires "<" !in post && ">" !in post
    requires file != "<" && file != ">"
    requires args == [op, file] + post
    ensures ArgvAsWritten(args) == post
  {
    assert args == [] + [op, file] + post;
    ScanSingle(args, [], op, file, post);
    var scan := ScanOf(args);
    assert (scan.inputAt == 0 && scan.outputAt == -1) || (scan.inputAt == -1 && scan.outputAt == 0);
    var d := DroppedAsWritten(scan.inputAt, scan.outputAt);
    assert d == {-1, 0, 1};
    KeptCut(args, [], [op, file], post, d);
    assert [] + post == post;
  }

  /** `pre op file post` with pre non-empty: pre[0] is lost as well. */
  lemma CommandFirstAsWritten(args: seq<string>, pre: seq<string>, op: string, file: string, post: seq<string>)
    requires op == "<" || op == ">"
    requires "<" !in pre && ">" !in pre && "<" !in post && ">" !in post
    requires file != "<" && file != ">"
    requires args == pre + [op, file] + post
    requires pre != []
    ensures ArgvAsWritten(args) == pre[1..] + post
  {
    RedirectedSingle(args, pre, op, file, post);
    var other := if op == "<" then ">" else "<";
    assert other !in args by {
      assert ScanOf(args).inputAt == -1 || ScanOf(args).outputAt == -1;
    }
    assert args[0] == pre[0];
    AsWrittenLosesCommandName(args);
    var w := ArgvAsWritten(args);
    assert pre + post == [pre[0]] + (pre[1..] + post);
    assert w == ([pre[0]] + w)[1..];
    assert pre[1..] + post == ([pre[0]] + (pre[1..] + post))[1..];
  }

  /** The scan half of RedirectedSingle: the one operator is the last of its
      kind and the other kind is absent. */
  lemma ScanSingle(args: seq<string>, pre: seq<string>, op: string, file: string, post: seq<string>)
    requires op == "<" || op == ">"
    requires "<" !in pre && ">" !in pre && "<" !in post && ">" !in post
    requires file != "<" && file != ">"
    requires args == pre + [op, file] + post
    ensures op == "<" ==> ScanOf(args) == Scan(|pre|, -1, Some(file), None)
    ensures op == ">" ==> ScanOf(args) == Scan(-1, |pre|, None, Some(file))
  {
    var n := |pre|;
    var other := if op == "<" then ">" else "<";
    assert args[n] == op && args[n + 1] == file;
    assert forall j :: n < j < |args| ==> args[j] != op by {
      assert forall j :: n + 1 < j < |args| ==> args[j] == post[j - n - 2];
    }
    assert other !in args by {
      assert forall j :: 0 <= j < n ==> args[j] == pre[j];
      assert forall j :: n + 1 < j < |args| ==> args[j] == post[j - n - 2];
    }
    LastIndexIs(args, op, n);
    OperandIs(args, op, n);
  }

  /** Dropping exactly the indices lo..hi-1 cuts that stretch out of s. */
  lemma KeptGap(s: seq<string>, d: set<int>, lo: nat, hi: nat)
    requires lo <= hi <= |s|
    requires forall i :: 0 <= i < |s| ==> (i in d <==> lo <= i < hi)
    ensures Kept(s, d, 0, |s|) == s[..lo] + s[hi..]
  {
    KeptSplit(s, d, 0, lo, |s|);
    KeptSplit(s, d, lo, hi, |s|);
    KeptNone(s, d, 0, lo);
    KeptAllDropped(s, d, lo, hi);
    KeptNone(s, d, hi, |s|);
    assert s[0..lo] == s[..lo] && s[hi..|s|] == s[hi..];
  }

  /** `cmd op1 file1 op2 file2` with one operator of each kind, in either
      order: both files are recorded and the argv is cmd. */
  lemma RedirectedBoth(args: seq<string>, cmd: seq<string>, first: string, file1: string,
                       second: string, file2: string)
    requires (first == "<" && second == ">") || (first == ">" && second == "<")
    requires "<" !in cmd && ">" !in cmd
    requires file1 != "<" && file1 != ">" && file2 != "<" && file2 != ">"
    requires args == cmd + [first, file1, second, file2]
    ensures first == "<" ==> ScanOf(args) == Scan(|cmd|, |cmd| + 2, Some(file1), Some(file2))
    ensures first == ">" ==> ScanOf(args) == Scan(|cmd| + 2, |cmd|, Some(file2), Some(file1))
    ensures RedirectedArgv(args) == cmd
  {
    var n := |cmd|;
    ScanBoth(args, cmd, first, file1, second, file2);
    var d := DroppedPair(n);
    if first == "<" {
      assert Dropped(n, n + 2) == d;
    } else {
      assert Dropped(n + 2, n) == d;
    }
    KeptTail(args, cmd, d);
  }

  /** Both operators with their files, side by side from n on. */
  function DroppedPair(n: int): (d: set<int>)
    ensures forall i :: i in d <==> n <= i < n + 4
  {
    {n, n + 1, n + 2, n + 3}
  }

  /** Dropping every index past the prefix leaves the prefix. */
  lemma KeptTail(s: seq<string>, pre: seq<string>, d: set<int>)
    requires |pre| <= |s| && s[..|pre|] == pre
    requires forall i :: 0 <= i < |s| ==> (i in d <==> |pre| <= i)
    ensures Kept(s, d, 0, |s|) == pre
  {
    KeptSplit(s, d, 0, |pre|, |s|);
    KeptNone(s, d, 0, |pre|);
    KeptAllDropped(s, d, |pre|, |s|);
    assert s[0..|pre|] == pre;
  }

  /** The scan half of RedirectedBoth. */
  lemma ScanBoth(args: seq<string>, cmd: seq<string>, first: string, file1: string,
                 second: string, file2: string)
    requires (first == "<" && second == ">") || (first == ">" && second == "<")
    requires "<" !in cmd && ">" !in cmd
    requires file1 != "<" && file1 != ">" && file2 != "<" && file2 != ">"
    requires args == cmd + [first, file1, second, file2]
    ensures first == "<" ==> ScanOf(args) == Scan(|cmd|, |cmd| + 2, Some(file1), Some(file2))
    ensures first == ">" ==> ScanOf(args) == Scan(|cmd| + 2, |cmd|, Some(file2), Some(file1))
  {
    var n := |cmd|;
    assert args[n] == first && args[n + 1] == file1 && args[n + 2] == second && args[n + 3] == file2;
    assert forall j :: n < j < |args| ==> args[j] != first by {
      assert forall j :: n < j < |args| ==> args[j] in {file1, second, file2};
    }
    assert forall j :: n + 2 < j < |args| ==> args[j] != second;
    LastIndexIs(args, first, n);
    LastIndexIs(args, second, n + 2);
    OperandIs(args, first, n);
    OperandIs(args, second, n + 2);
  }

  /** The file recorded for op is the token after the last op that has one. */
  lemma OperandIs(s: seq<string>, op: string, n: nat)
    requires n + 1 < |s| && s[n] == op
    requires forall j :: n < j < |s| - 1 ==> s[j] != op
    ensures Operand(s, op) == Some(s[n + 1])
  {
    LastIndexIs(s[..|s| - 1], op, n);
  }

  /** Only the last operator of each kind is removed: an earlier duplicate and
      its file stay in the argv. */
  lemma EarlierDuplicateStays()
    ensures ScanOf(["cat", "<", "a", "<", "b"]).inputFile == Some("b")
    ensures RedirectedArgv(["cat", "<", "a", "<", "b"]) == ["cat", "<", "a"]
    ensures ArgvAsWritten(["cat", "<", "a", "<", "b"]) == ["<", "a"]
  {
    var args := ["cat", "<", "a", "<", "b"];
    EarlierDuplicateCorrected(args);
    assert ">" !in args;
    AsWrittenLosesCommandName(args);
    var w := ArgvAsWritten(args);
    assert ["cat", "<", "a"] == ["cat"] + ["<", "a"];
    assert w == (["cat"] + w)[1..];
  }

  /** The scan and the corrected filter of `cat < a < b`. */
  lemma EarlierDuplicateCorrected(args: seq<string>)
    requires args == ["cat", "<", "a", "<", "b"]
    ensures ScanOf(args).inputFile == Some("b")
    ensures RedirectedArgv(args) == ["cat", "<", "a"]
  {
    assert LastIndex(args, "<") == 3;
    assert LastIndex(args, ">") == -1;
    var d := Dropped(3, -1);
    assert d == {3, 4};
    KeptSplit(args, d, 0, 3, 5);
    KeptNone(args, d, 0, 3);
    KeptAllDropped(args, d, 3, 5);
    assert args[0..3] == ["cat", "<", "a"];
  }
}
