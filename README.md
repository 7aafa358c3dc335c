# quash: a Dafny model of the shell's command front end and job bookkeeping

quash is a small interactive shell written in C (`shell.c`). This project models the parts of it that decide what to do with a line, without touching the operating system. They are:

- **Line front end.**
  - `$NAME` expansion over the raw line.
  - strtok tokenisation on space and tab, capped at 63 tokens.
  - Removal of a trailing `&`.
  - The builtin test.
  - The dispatch order: builtin → redirection → pipe → plain command.
- **Command rewriting.**
  - The `<`/`>` operator scan of `handle_redirection`, where the last occurrence wins.
  - The argv filter that removes the operators and their files.
  - The first-`|` split of `handle_piping`.
- **State the shell mutates in place.**
  - The background job table: a 100-slot array with a count, append on start, shift-left delete on reap.
  - The watchdog variables: `foreground_pid`, `timer_active` and the pending 10-second alarm.
- **echo.** The text the `echo` builtin prints.

The modules follow the program's structure:

- `Text`: character classes and name/word runs.
- `Expansion`
- `Tokenizer`
- `Builtins`
- `Redirection`
- `Piping`
- `Dispatch`: execute_command's decision and main's per-line step.
- `Jobs`: the `JobTable` class and a pure specification of the table.
- `Watchdog`: the `Controller` class.

Each loop of the modelled functions (tokenize_input, is_builtin, quash_echo, the scan and filter of handle_redirection, the search and copies of handle_piping, remove_bg_process) is a Dafny `method` with loop invariants. The loops of main, check_bg_processes, handle_sigchld and the other builtins are outside the model. Most methods are proved equal to a specification function, and the properties are proved as lemmas about those functions. The scanning helpers `Expansion.ScanName`, `Tokenizer.SkipBlanks` and `Tokenizer.EndOfWord` are specified by the properties of the index they return instead. Examples:
- `ExpandVariables` against `Expand`.
- `Tokenize` against `Words`.
- `ScanOperators` against `ScanOf`.
- `SplitCommands` against `SplitPipe`.
- `JobTable.Remove` against `RemoveFirst`.

The environment is a `map<string, string>` parameter. Process ids, exit statuses and whether the alarm goes off before the child ends are inputs.

Some of the code's behaviour is easy to miss. The model states it as the code has it:
- **Full job table.** `add_bg_process` silently ignores a new job once all 100 slots are taken. Nothing is reported (`Jobs.JobTable.Add`).
- **Repeated operators.** Only the last `<` and the last `>` are removed from argv, with their files. Earlier repeats of an operator stay in argv (`Redirection.EarlierDuplicateStays`).
- **Builtins and `&`.** The `&` is removed before `is_builtin` is consulted. A builtin with a trailing `&` therefore runs in the foreground with the `&` already gone (`Dispatch.BuiltinIgnoresOperators`).
- **Reading the environment.** `getenv` of the empty name answers NULL, so a lone `$` vanishes (`Expansion.Lookup`).
- **The redirected argv.** The argv filter of handle_redirection also drops the command name when only one kind of operator occurs (see "Findings"). `Dispatch.Classify`, `Dispatch.ExecuteCommand` and everything built on them use the filter as written, so they describe what the program runs. `Dispatch.ClassifyIntended` is the same decision with the corrected filter, and `Dispatch.ClassifyAgainstIntended` states where the two differ.

## Model

| member | source | states |
|---|---|---|
| Text.NameRun | shell.c:112-117 | the run after `$` is the longest prefix of name characters: a prefix of the input, all `[A-Za-z0-9_]`, and stopped by a non-name character or the end |
| Text.NameRunIs | shell.c:112-117 | any prefix of name characters that cannot be extended is that run |
| Text.WordRun | shell.c:133-138 | the token strtok returns is the longest blank-free prefix, ended by a space or tab or the end |
| Text.WordRunIs | shell.c:133-138 | any blank-free prefix followed by a blank or the end is that token |
| Expansion.Lookup | shell.c:120-125 | a set variable with a non-empty name is replaced by its value; an unset variable or the empty name gives nothing |
| Expansion.ExpandFrom | shell.c:106-129 | with no variable set, expansion never lengthens the text: references vanish and everything else is copied |
| Expansion.Expand | shell.c:106-130 | a line without `$` expands to itself under every environment |
| Expansion.ExpandLiteral | shell.c:126-128 | text without `$` is copied unchanged and in order, and expansion then resumes in the context of its last character |
| Expansion.ExpandReference | shell.c:107-125 | an unescaped `$NAME` (maximal name) is replaced by the variable's value, or by nothing when unset; a lone `$` vanishes |
| Expansion.ExpandTrailingReference | shell.c:106-130 | a line ending in an unescaped reference keeps the text before it and replaces the reference by the variable's value |
| Expansion.ExpandEscapedDollar | shell.c:107 | a `$` preceded by a backslash is copied literally and the backslash is kept |
| Expansion.ExpandReferenceAt | shell.c:107-125 | one reference step of the scan over the raw line: `input[at..]` expands to the lookup of the name up to stop, then the rest |
| Expansion.ExpandCopyAt | shell.c:126-128 | one copy step: a character that does not start a reference is copied and sets the backslash context |
| Expansion.PendingReference | shell.c:107-125 | at an unescaped `$`, the rest of the line expands to the name's value followed by the expansion from the end of the name |
| Expansion.PendingCopy | shell.c:126-128 | at any other character, the rest of the line expands to that character followed by the expansion from the next one |
| Expansion.ScanName | shell.c:112-117 | the name-scanning loop stops at the end of the longest run of name characters |
| Expansion.ExpandVariables | shell.c:106-130 | the src/dest loop produces exactly `Expand(input, env)` |
| Tokenizer.Words | shell.c:133-139 | every token is non-empty and free of spaces and tabs |
| Tokenizer.Tokens | shell.c:133-140 | at most 63 tokens are kept, and they are a prefix of the full token list |
| Tokenizer.WordsEmpty | shell.c:133 | a line yields no token if and only if it is blanks only |
| Tokenizer.WordsToken | shell.c:133 | a single token tokenizes to itself |
| Tokenizer.WordsSplit | shell.c:133-139 | a blank separates: the tokens on its two sides are read independently |
| Tokenizer.WordsJoinSpaced | shell.c:133-139 | tokens joined with single spaces tokenize back to the same list |
| Tokenizer.WordsOfThree | shell.c:133-139 | three tokens separated by single spaces tokenize to exactly those three (the three-token case of the join round trip) |
| Tokenizer.NextToken | shell.c:133-138 | one strtok call returns nothing iff only blanks remain, else the next token and where the rest starts |
| Tokenizer.SkipBlanks | shell.c:133-138 | strtok's skipping of leading delimiters stops at a non-blank or the end and does not change the tokens still ahead |
| Tokenizer.EndOfWord | shell.c:133-138 | strtok's scan for the token end stops at the first blank or the end, with no blank before it |
| Tokenizer.WordAt | shell.c:133-138 | a maximal blank-free stretch starting at a non-blank is the next token, followed by the tokens after it |
| Tokenizer.Tokenize | shell.c:133-140 | the strtok loop keeps min(n, 63) tokens, the first ones of the line |
| Tokenizer.TokenizeInput | shell.c:96-143 | tokenize_input returns the first 63 tokens of the expanded line |
| Builtins.IsBuiltinCommand | shell.c:204-215 | a command is a builtin iff it has a first token and that token is cd, pwd, echo, env, setenv or exit |
| Builtins.EchoOutput | shell.c:258-266 | echo's text always ends in a newline, and with no arguments it is the newline alone |
| Builtins.IsBuiltin | shell.c:204-215 | true iff the list is non-empty and its first token is cd, pwd, echo, env, setenv or exit |
| Builtins.Echo | shell.c:258-266 | the text printed is the arguments after the name joined by single spaces, then a newline |
| Builtins.EchoRetokenizes | shell.c:258-266 | echo's output ends in a newline, and without it tokenizes back to exactly the arguments |
| Redirection.LastIndex | shell.c:385-397 | the recorded operator index is the last occurrence, or -1 iff the operator is absent |
| Redirection.Operand | shell.c:386-395 | the recorded file is the token after the last operator that has a successor; none iff no operator has one |
| Redirection.ScanOf | shell.c:381-401 | the scan reports "no redirection" iff neither `<` nor `>` occurs; a recorded file implies a recorded index |
| Redirection.ScanOperators | shell.c:381-397 | the scanning loop computes exactly `ScanOf(args)` |
| Redirection.Kept | shell.c:434-441 | the filtered argv is never longer than the range it is taken from |
| Redirection.DroppedAsWritten | shell.c:436-437 | the literal skip test skips only the two operator indices and the positions after them, and it skips index 0 whenever one operator is absent |
| Redirection.Dropped | shell.c:436-437 | the corrected skip set is empty without operators, is contained in the literal one, and equals it when both operators are present |
| Redirection.ArgvAsWritten | shell.c:431-442 | the argv execvp receives is never longer than the token list |
| Redirection.RedirectedArgv | shell.c:431-442 | the corrected argv is never longer than the token list, and is the whole list when there is no operator |
| Redirection.FilterArgsAsWritten | shell.c:431-442 | the filter loop as written keeps exactly the tokens whose index is not in {ir, ir+1, or, or+1}, in order |
| Redirection.FilterArgs | shell.c:431-442 | the corrected loop keeps exactly the tokens whose index is not an operator or file of a present operator |
| Redirection.KeptKeeps | shell.c:434-441 | a token whose index is not dropped reaches the new argv |
| Redirection.AsWrittenAgreesWhenBoth | shell.c:436-437 | with both operators present the literal skip test is the intended one |
| Redirection.AsWrittenLosesCommandName | shell.c:436-437 | with exactly one operator present the literal filter also drops args[0] |
| Redirection.KeptOneMore | shell.c:434-441 | dropping index 0 in addition costs the filtered argv exactly its first token |
| Redirection.AsWrittenRunsWrongProgram | shell.c:436-437 | `printf x > out.txt` makes execvp run "x"; the intended argv is ["printf", "x"] |
| Redirection.RedirectedSingle | shell.c:385-442 | `pre op file post` with one operator records file for op, and the corrected filter gives pre + post |
| Redirection.RedirectedSingleAsWritten | shell.c:431-442 | for `pre op file post` the program as written runs pre + post without pre's first token, or post when the operator comes first |
| Redirection.LeadingOperatorAsWritten | shell.c:436-437 | with the operator in front, the extra index 0 is the operator itself and the program runs post |
| Redirection.CommandFirstAsWritten | shell.c:436-437 | with a non-empty pre, the program runs pre + post without pre's first token |
| Redirection.RedirectedBoth | shell.c:385-442 | `cmd < a > b` and `cmd > b < a` record both files and the filter gives cmd (both filters agree when both operators occur) |
| Redirection.EarlierDuplicateStays | shell.c:385-442 | in `cat < a < b` the file is b and `< a` stays in the argv: the corrected filter gives [cat, <, a], and the program as written runs [<, a] |
| Piping.FirstIndex | shell.c:470-475 | the pipe index is the first pipe token, or -1 iff there is none |
| Piping.SplitPipe | shell.c:470-495 | no split iff there is no pipe token; otherwise cmd1, the pipe token and cmd2 concatenate to args, and cmd1 has no pipe token |
| Piping.SplitPipeUnique | shell.c:470-495 | the split is the only decomposition around a pipe token whose left part has none |
| Piping.LaterPipesStay | shell.c:490-495 | every pipe token after the first stays in cmd2 |
| Piping.FindPipe | shell.c:470-475 | the search loop returns the index of the first pipe token, or -1 |
| Piping.SplitCommands | shell.c:470-495 | the copying loops build exactly `SplitPipe(args)` |
| Piping.CopyRange | shell.c:485-495 | each copying loop yields exactly the slice args[lo..hi] |
| Dispatch.StripBackground | shell.c:146-157 | background iff the last token is exactly `&`, and putting that token back restores the list |
| Dispatch.AmpersandElsewhereStays | shell.c:153-157 | an `&` that is not last stays at its position |
| Dispatch.Classify | shell.c:145-172 | exactly one of builtin, redirected, piped or plain, decided in that order; a redirected command gets the last operators' files and the argv the filter builds as written; a piped one gets the split at the first pipe token; only a plain command keeps the background flag |
| Dispatch.ClassifyIntended | shell.c:159-172 | the same decision with the corrected filter: redirected exactly when Classify redirects, with only the operators and their files removed; every other action unchanged |
| Dispatch.ClassifyAgainstIntended | shell.c:436-437 | the program and the corrected filter agree unless exactly one kind of operator occurs; then the corrected argv is the program's argv with the command name in front |
| Dispatch.ClassifySingleRedirect | shell.c:159-165 | a foreground non-builtin `pre op file post` is redirected with file for op, running pre + post without pre's first token |
| Dispatch.ClassifySingleIntended | shell.c:159-165 | the corrected filter runs the same command as pre + post |
| Dispatch.BuiltinIgnoresOperators | shell.c:153-160 | `echo hi > f &` runs echo with `>` and `f` as arguments, not redirected |
| Dispatch.RedirectionBeforePipe | shell.c:162-170 | cat, `<`, in, pipe token, wc is redirected from in, not piped, and execvp receives the argv pipe token, wc |
| Dispatch.RedirectionBeforePipeIntended | shell.c:162-170 | with the corrected filter the same line runs cat with arguments pipe token and wc |
| Dispatch.ParseLine | shell.c:67-74 | a line is passed over iff it has no token |
| Dispatch.ParseLineBlank | shell.c:67-74 | a line is passed over iff its expansion is blanks only |
| Dispatch.EchoExpandsVariable | shell.c:106-160 | `echo hello $USER` with USER=bob runs the echo builtin with [echo, hello, bob] and prints "hello bob" |
| Dispatch.DetectBackground | shell.c:146-157 | the trailing-`&` check computes `StripBackground(args)` |
| Dispatch.ExecuteCommand | shell.c:145-172 | the composed steps, with the filter loop as written, choose exactly the action `Classify` specifies |
| Dispatch.HandleLine | shell.c:67-74 | main's per-line step yields exactly `ParseLine(input, env)` |
| Jobs.AddJob | shell.c:327-331 | the existing jobs keep their slots, the table never grows past 100, and the new pid is listed iff it was already or there was room |
| Jobs.RemoveFirst | shell.c:333-343 | an absent pid leaves the table unchanged, and removal never lengthens it |
| Jobs.RemoveFirstCounts | shell.c:333-343 | the table loses exactly one copy of the pid (none when it is absent) and nothing else |
| Jobs.RemoveFirstLength | shell.c:333-343 | a listed pid costs the table exactly one entry |
| Jobs.RemoveFirstKeepsOthers | shell.c:333-343 | removing one pid leaves every other listed pid listed |
| Jobs.RemoveFirstAt | shell.c:334-341 | the removed entry is the first match; the entries before and after it keep their order |
| Jobs.RemoveAfterAdd | shell.c:327-343 | removing a pid that was just appended restores the table |
| Jobs.RemoveIdempotent | shell.c:333-343 | on a duplicate-free table removal leaves no copy of the pid, so removing it again is a no-op |
| Jobs.Replay | shell.c:327-331 | after any history of starts and reaps the table holds at most 100 jobs |
| Jobs.ReplayNoDuplicates | shell.c:327-343 | if each pid is started once, the table never lists a pid twice and lists only started pids |
| Jobs.ReapedIsGone | shell.c:333-343 | under distinct starts a reaped pid is no longer in the table |
| Jobs.StartedStaysListed | shell.c:327-343 | a pid started while the table had room, and not reaped since, is listed |
| Jobs.ListedIsLive | shell.c:327-343 | under distinct starts a listed pid was started with room to spare and has not been reaped since |
| Jobs.ReplayListsLive | shell.c:327-343 | under distinct starts the table lists exactly the pids started with room to spare and not reaped since |
| Jobs.JobTable.constructor | shell.c:19-20 | the table starts empty, with 100 slots |
| Jobs.JobTable.Jobs | shell.c:19-20 | the listed jobs are the first bg_count slots, at most 100 of them |
| Jobs.JobTable.Add | shell.c:327-331 | appends at bg_count while there is room; a full table is left unchanged |
| Jobs.JobTable.Remove | shell.c:333-343 | the array shifting leaves exactly `RemoveFirst(old jobs, pid)` and keeps 0 ≤ count ≤ 100 |
| Jobs.JobTable.ShiftLeft | shell.c:336-338 | the inner loop moves every later slot one to the left |
| Watchdog.Controller.constructor | shell.c:21-22 | the shell starts with no foreground child and no active timer |
| Watchdog.Controller.SetupTimer | shell.c:366-370 | the timer is marked active and a 10-second alarm is pending |
| Watchdog.Controller.CancelTimer | shell.c:372-377 | the timer ends inactive; the alarm is disarmed only if the timer was still active |
| Watchdog.Controller.AlarmFires | shell.c:356-364 | with a foreground child, that child is the one terminated and both variables are reset; without one, nothing changes |
| Watchdog.Controller.ForegroundWait | shell.c:180-193 | whether or not the alarm fires the shell ends idle, and the failure notice is printed iff the child exited with a nonzero code |

## Left out

- fork, execvp, waitpid, pipe, dup2, open and close (shell.c:173-200, 403-463, 497-541) are process and descriptor effects. The model ends at the argv and files that would be handed to them (`Dispatch.Action`).
- The signal handlers handle_sigint and handle_sigchld, and the signal() and alarm() calls, run asynchronously. Concurrent delivery is not modelled. Of timer_handler only the variable updates are modelled (`Watchdog.Controller.AlarmFires`). When the alarm fires during a wait is an input.
- check_bg_processes (shell.c:345-353) polls waitpid and prints. Its only effect on the table is `Jobs.JobTable.Remove`.
- The builtins cd, pwd, env, setenv and exit (shell.c:234-299) wrap chdir, getcwd, environ and setenv and are not modelled. echo is modelled as the text it prints; the printf calls themselves are not.
- main's loop, print_prompt, fgets with its newline removal, the "[%d] %d" background report and the free/malloc of token arrays are I/O and memory handling. The per-line decision is `Dispatch.HandleLine`.
- A line is the C string up to its first NUL. `while (*src)` and strtok stop there; the model reads a `string` that contains `'\0'` to its end, so such input is outside what it describes.
- The arrays expanded_input[1024] and var_name[256] have no bounds checks. Their overflow is not modelled: strings are unbounded sequences.
- The invariant that a token array ends in NULL is replaced by sequence length, so execute_command's arg_count loop is `|args|`.
- Exit statuses are taken as given: `Watchdog.Status` stands for what WIFEXITED and WEXITSTATUS would decode.

## Findings

| source | as written | input that shows it | evidently intended | confidence | as-written member | corrected member |
|---|---|---|---|---|---|---|
| shell.c:436-437 | The skip test compares i with input_redirect + 1 and output_redirect + 1 even when that operator is absent (index -1). So index 0, the command name, is dropped whenever exactly one of `<` and `>` occurs. | `printf x > out.txt` execs "x" with argv ["x"]; `cat < in.txt` execs an empty argv | skip only the operator and file positions of operators that are present, so argv is ["printf", "x"] | not executed | Redirection.AsWrittenRunsWrongProgram | Redirection.FilterArgs |
