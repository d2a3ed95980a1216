# A verified model of a small Unix shell

This project models the core of a small interactive Unix shell written in C, and proves properties of that model in Dafny.
The shell reads a line and cuts it at the newline. It logs the line, checks its syntax, tokenizes it and expands `~`. Then it runs the line as `;`/`&` segments, and each segment as a `|` pipeline.
It keeps a table of background jobs, a bounded command history and a previous directory. It also has the builtins `hop`, `reveal`, `log`, `activities`, `ping`, `fg`, `bg` and `exit`.

The model keeps the sequential logic and treats every operating-system call as an oracle, passed in as a parameter. Examples:
- the result of `waitpid`, `kill`, `fork`, `pipe`, `tcsetpgrp`, `open`, `chdir`, `getcwd` and `opendir`/`readdir`;
- a sequence of child events for a foreground wait.

State that the C code updates in place is a Dafny `class`:
- the 256-slot job table, an `array` of jobs plus a count and a job-number counter that only grows;
- the fifteen-entry history, an `array` shifted when full;
- `foreground_pid` and the terminal owner;
- the working and previous directory of `hop`.

Each method is proved equal to a pure specification function of the old state and its inputs, and lemmas state what those functions promise. C strings are the characters before their NUL, and one Dafny `char` stands for one byte of a C string: the length limits (the 255-character job name, the 4096-byte expansion buffer, the 256-byte token buffer) count bytes, and the `strcmp` order compares them as unsigned bytes, so multi-byte UTF-8 text is counted byte by byte, not per code point. The remainder of C's truncating `%`, `atoi`'s digit reading and the saturating `strtol` followed by a 32-bit cast are written out explicitly.

One module per source file:

| module | file | content |
|---|---|---|
| `Text` | `text.dfy` | character classes, `%d`/`atoi`, `strcmp` order, a sort keyed by a string, `strncpy` prefixes |
| `Session` | `session.dfy` | `foreground_pid` and the terminal owner |
| `Jobs` | `jobs.dfy` | the background job table (`jobs.c`) |
| `JobControl` | `fg_bg.dfy` | `fg` and `bg` (`fg_bg.c`) |
| `Process` | `process.dfy` | what a forked child does (`process.c`) |
| `Pipeline` | `pipeline.dfy` | `execute_pipeline` (`pipeline.c`) |
| `Builtins` | `builtins.dfy` | builtin classes and `execute_builtin` (`executor.c`) |
| `Executor` | `executor.dfy` | `execute`, the `;`/`&` splitter (`executor.c`) |
| `Parser` | `parser.dfy` | trimming, tokenizing and the grammar check (`parser.c`) |
| `History` | `log.dfy` | the `log` history (`log.c`) |
| `Signals` | `signals.dfy` | `ping` and the interrupt and stop handlers (`signals.c`) |
| `Hop` | `hop.dfy` | `hop` and `change_directory` (`hop.c`) |
| `Reveal` | `reveal.dfy` | `reveal` (`reveal.c`) |
| `Shell` | `main_loop.dfy` | the prompt and one pass of the read loop (`main.c`) |

`trim_whitespace` computes the end of the string from its original start rather than from the first non-blank character. With leading blanks it therefore drops characters from the end: ` ls` becomes `l`. The model keeps this behaviour as written, because the rest of the shell runs on it, and `Parser.TrimmedLosesTail` states it.

## Model

| member | source | states |
|---|---|---|
| Text.Prefix | Linux_Shell_In_C/Linux_Shell_In_C/shell/src/jobs.c:39-41 | the copy `strncpy` leaves in an n-character buffer is a prefix of the source, of length min(length, n), and the whole source when it fits |
| Text.Decimal | Linux_Shell_In_C/Linux_Shell_In_C/shell/src/jobs.c:47 | `%d` output is non-empty, starts with a digit for a non-negative number and with `-` for a negative one |
| Text.DecimalRoundTrip | Linux_Shell_In_C/Linux_Shell_In_C/shell/src/fg_bg.c:20-21 | `atoi` of the decimal text `printf("%d")` writes gives the number back, so the job number printed in a notice selects that job in `fg`/`bg` |
| Text.ScanTo | shell/src/log.c:139-141 | the pointer walk stops at the first character from `i` on that satisfies the stop test, or at the end, and passes only characters that fail it; every scanner of the shell is an instance |
| Text.Strtol | Linux_Shell_In_C/Linux_Shell_In_C/shell/src/executor.c:49 | `strtol` gives the number read when it fits a 64-bit `long`, and is held at exactly `LONG_MAX` or `LONG_MIN` when the number reaches or passes them |
| Text.ToInt32 | Linux_Shell_In_C/Linux_Shell_In_C/shell/src/executor.c:49 | the cast to `int` lands in the 32-bit range and agrees with its argument modulo 2^32 |
| Text.ToInt32Keeps | Linux_Shell_In_C/Linux_Shell_In_C/shell/src/executor.c:49 | the cast leaves a number unchanged exactly when it is already in the `int` range |
| Text.StrtolInt | Linux_Shell_In_C/Linux_Shell_In_C/shell/src/executor.c:49 | `(int)strtol(s, NULL, 10)` is always in the `int` range |
| Text.StrtolIntInRange | Linux_Shell_In_C/Linux_Shell_In_C/shell/src/executor.c:49 | a number within the `int` range reaches `ping` unchanged |
| Text.ToInt32Wraps | Linux_Shell_In_C/Linux_Shell_In_C/shell/src/executor.c:49 | the cast wraps modulo 2^32: 2^32 + 2 becomes 2, `LONG_MAX` becomes -1 and `LONG_MIN` becomes 0 |
| Text.StrtolIntOutOfRange | Linux_Shell_In_C/Linux_Shell_In_C/shell/src/executor.c:49 | outside the range the value wraps (2^32 + 2 gives 2) or saturates before wrapping (`LONG_MAX` + 1 gives -1, `LONG_MIN` - 1 gives 0) |
| Text.StrtolIntOfDecimal | Linux_Shell_In_C/Linux_Shell_In_C/shell/src/executor.c:49 | the printed decimal of any number converts to that number saturated to `long` and then cast to `int` |
| Text.StrLeTotal | Linux_Shell_In_C/Linux_Shell_In_C/shell/src/jobs.c:138-140 | the `strcmp` order used as the sort comparator is total |
| Text.StrLeTransitive | Linux_Shell_In_C/Linux_Shell_In_C/shell/src/jobs.c:138-140 | the `strcmp` order is transitive |
| Text.StrLeAntisymmetric | Linux_Shell_In_C/Linux_Shell_In_C/shell/src/jobs.c:138-140 | two strings each `strcmp`-below the other are equal |
| Text.SortBy | Linux_Shell_In_C/Linux_Shell_In_C/shell/src/jobs.c:150 | the `qsort` result is a permutation of its input and is sorted by `strcmp` of the key (tie order is left open) |
| Session.Foreground.constructor | shell/src/main.c:22 | at startup `foreground_pid` is -1 and the shell owns the terminal |
| Session.Foreground.SetPid | shell/src/pipeline.c:70 | an assignment to `foreground_pid` sets it, is recorded in the write history, and leaves the terminal alone |
| Session.Foreground.GiveTerminal | shell/src/pipeline.c:71 | a `tcsetpgrp` that succeeds hands the terminal to the given owner and is recorded; `foreground_pid` is untouched |
| Jobs.StateName | Linux_Shell_In_C/Linux_Shell_In_C/shell/src/jobs.c:20-29 | `get_job_state_string` gives "Running" exactly for RUNNING and "Stopped" exactly for STOPPED |
| Jobs.StoredName | Linux_Shell_In_C/Linux_Shell_In_C/shell/src/jobs.c:39-44 | the stored name is "" for NULL, otherwise the first min(length, 255) characters of the given name |
| Jobs.AddedWellFormed | Linux_Shell_In_C/Linux_Shell_In_C/shell/src/jobs.c:31-36 | adding keeps the table invariant (at most 256 entries, numbers strictly increasing and below the counter); a full table is left alone and keeps its counter; otherwise the job is appended with number `next_job_number`, which then increments |
| Jobs.RemovedAt | Linux_Shell_In_C/Linux_Shell_In_C/shell/src/jobs.c:52-60 | an out-of-range index changes nothing; otherwise the entries before the index stay and the later ones move down one, in order |
| Jobs.RemovedAtMiddle | Linux_Shell_In_C/Linux_Shell_In_C/shell/src/jobs.c:52-60 | removing the entry at position \|a\| of a + [x] + b leaves exactly a + b |
| Jobs.RemovedAtWellFormed | Linux_Shell_In_C/Linux_Shell_In_C/shell/src/jobs.c:52-60 | removal keeps the table invariant |
| Jobs.FirstWithPgid | Linux_Shell_In_C/Linux_Shell_In_C/shell/src/jobs.c:62-69 | the slot found holds the pgid and no earlier slot does; none is found only when no slot holds it |
| Jobs.WithoutPgidRemovesFirst | Linux_Shell_In_C/Linux_Shell_In_C/shell/src/jobs.c:62-69 | `remove_job_by_pid` is a no-op for an absent pgid and otherwise removes exactly the first entry holding it |
| Jobs.WithoutPgidWellFormed | Linux_Shell_In_C/Linux_Shell_In_C/shell/src/jobs.c:62-69 | `remove_job_by_pid` keeps the table invariant |
| Jobs.RemarkedWellFormed | Linux_Shell_In_C/Linux_Shell_In_C/shell/src/jobs.c:128 | changing one entry's state keeps the table invariant |
| Jobs.FirstWithNumber | Linux_Shell_In_C/Linux_Shell_In_C/shell/src/jobs.c:73-77 | the slot found holds the number; none is found only when no slot holds it |
| Jobs.IndexOfNumber | Linux_Shell_In_C/Linux_Shell_In_C/shell/src/jobs.c:71-79 | `find_job_by_number` finds nothing for n <= 0 or an absent n, and otherwise a slot with job number n |
| Jobs.MostRecent | Linux_Shell_In_C/Linux_Shell_In_C/shell/src/jobs.c:81-86 | `find_most_recent_job` gives the last slot, and nothing exactly when the table is empty |
| Jobs.IndexOfNumberUnique | Linux_Shell_In_C/Linux_Shell_In_C/shell/src/jobs.c:71-79 | in a well-formed table the slot found for n is the only slot numbered n |
| Jobs.PollStep | Linux_Shell_In_C/Linux_Shell_In_C/shell/src/jobs.c:94-133 | a wait result never changes an entry's number, pgid or name; it can only drop the entry or change its state |
| Jobs.Polled | Linux_Shell_In_C/Linux_Shell_In_C/shell/src/jobs.c:88-136 | a polling pass never adds entries |
| Jobs.PolledNumbers | Linux_Shell_In_C/Linux_Shell_In_C/shell/src/jobs.c:88-136 | every job number left after polling was in the table before |
| Jobs.PolledWellFormed | Linux_Shell_In_C/Linux_Shell_In_C/shell/src/jobs.c:88-136 | polling keeps the table invariant and never touches `next_job_number` |
| Jobs.PolledIncreasing | Linux_Shell_In_C/Linux_Shell_In_C/shell/src/jobs.c:88-136 | polling keeps job numbers strictly increasing in slot order |
| Jobs.PolledInRange | Linux_Shell_In_C/Linux_Shell_In_C/shell/src/jobs.c:88-136 | polling keeps every number below the counter and every name within the buffer |
| Jobs.PolledBelow | Linux_Shell_In_C/Linux_Shell_In_C/shell/src/jobs.c:88-136 | a bound on the numbers before polling still holds after it |
| Jobs.StepKeeps | Linux_Shell_In_C/Linux_Shell_In_C/shell/src/jobs.c:94-133 | one wait result leaves at most a copy of the entry, same number and name |
| Jobs.AppendIncreasing | Linux_Shell_In_C/Linux_Shell_In_C/shell/src/jobs.c:88-136 | appending at most one entry numbered above the rest keeps the order strictly increasing |
| Jobs.PollIdle | Linux_Shell_In_C/Linux_Shell_In_C/shell/src/jobs.c:94-96 | when `waitpid` returns 0 for every job, polling leaves the table unchanged |
| Jobs.PollRemovesFinished | Linux_Shell_In_C/Linux_Shell_In_C/shell/src/jobs.c:111-126 | a job whose group exited or was killed by a signal is gone after polling |
| Jobs.PollKeepsStoppedAndContinued | Linux_Shell_In_C/Linux_Shell_In_C/shell/src/jobs.c:127-133 | a job whose group stopped is still there, marked STOPPED; one that continued is still there, marked RUNNING |
| Jobs.JobTable.constructor | Linux_Shell_In_C/Linux_Shell_In_C/shell/src/jobs.c:13-15 | the table starts empty with `next_job_number` 1 |
| Jobs.JobTable.Add | Linux_Shell_In_C/Linux_Shell_In_C/shell/src/jobs.c:31-50 | `add_background_job` leaves the table as Added and the counter as NextAfterAdd, keeps the invariant, and prints the `[n] pid` notice only for a RUNNING job in interactive mode |
| Jobs.JobTable.RemoveIndex | Linux_Shell_In_C/Linux_Shell_In_C/shell/src/jobs.c:52-60 | the shift loop leaves exactly RemovedAt of the old entries; the counter is untouched |
| Jobs.JobTable.ShiftedDown | Linux_Shell_In_C/Linux_Shell_In_C/shell/src/jobs.c:56-58 | the entries before the index unchanged and the later ones read from one place up make up RemovedAt |
| Jobs.JobTable.RemoveByPgid | Linux_Shell_In_C/Linux_Shell_In_C/shell/src/jobs.c:62-69 | the search-and-remove loop leaves exactly WithoutPgid of the old entries and keeps the invariant |
| Jobs.JobTable.FindByNumber | Linux_Shell_In_C/Linux_Shell_In_C/shell/src/jobs.c:71-79 | the search loop returns IndexOfNumber of the entries, a live slot holding n when it finds one |
| Jobs.JobTable.FindMostRecent | Linux_Shell_In_C/Linux_Shell_In_C/shell/src/jobs.c:81-86 | returns MostRecent of the entries |
| Jobs.JobTable.SetState | Linux_Shell_In_C/Linux_Shell_In_C/shell/src/jobs.c:128 | sets one entry's state in place and changes nothing else; the invariant holds |
| Jobs.JobTable.ApplyResult | Linux_Shell_In_C/Linux_Shell_In_C/shell/src/jobs.c:91-133 | one wait result applied at slot i replaces that entry by its PollStep outcome; the index advances exactly when the entry is kept |
| Jobs.JobTable.Put | Linux_Shell_In_C/Linux_Shell_In_C/shell/src/jobs.c:128 | overwrites one live slot and nothing else |
| Jobs.JobTable.Sweep | Linux_Shell_In_C/Linux_Shell_In_C/shell/src/jobs.c:88-136 | the loop over the entries, with its manual index, leaves Polled of the old entries and prints PollNotices |
| Jobs.JobTable.SweepStep | Linux_Shell_In_C/Linux_Shell_In_C/shell/src/jobs.c:90-135 | one pass of the loop advances the swept count by one and keeps the loop's relation to Polled and PollNotices |
| Jobs.JobTable.Poll | Linux_Shell_In_C/Linux_Shell_In_C/shell/src/jobs.c:88-136 | `check_background_jobs` leaves Polled of the old entries, prints PollNotices and keeps the invariant and the counter |
| Jobs.JobTable.ListActivities | Linux_Shell_In_C/Linux_Shell_In_C/shell/src/jobs.c:142-154 | `activities` polls first, then prints one line per remaining job, sorted by name and a permutation of the table; the table order itself is untouched |
| JobControl.Selected | Linux_Shell_In_C/Linux_Shell_In_C/shell/src/fg_bg.c:20 | the job picked is a live slot; with other than two words it is the most recent job |
| JobControl.SelectedByPrintedNumber | Linux_Shell_In_C/Linux_Shell_In_C/shell/src/fg_bg.c:20 | in a well-formed table, `fg N`/`bg N` with the number the shell printed for a job selects exactly that job |
| JobControl.FgRestoresForeground | Linux_Shell_In_C/Linux_Shell_In_C/shell/src/fg_bg.c:29-63 | a command that selected a job writes `foreground_pid` twice, the job's group and then -1; one with too many words or no such job writes nothing, hands nothing over and leaves the table alone; a terminal hand-over to the group is always followed by one back to the shell |
| JobControl.FgContinuesOnlyStopped | Linux_Shell_In_C/Linux_Shell_In_C/shell/src/fg_bg.c:36-43 | SIGCONT is delivered exactly when the selected job was STOPPED, the hand-over succeeded and the kill succeeded |
| JobControl.FgWellFormed | Linux_Shell_In_C/Linux_Shell_In_C/shell/src/fg_bg.c:14-64 | `fg` keeps the table invariant |
| JobControl.AfterWaitWellFormed | Linux_Shell_In_C/Linux_Shell_In_C/shell/src/fg_bg.c:48-60 | every outcome of the foreground wait keeps the table invariant |
| JobControl.FgWaitOutcome | Linux_Shell_In_C/Linux_Shell_In_C/shell/src/fg_bg.c:48-60 | a stop keeps the job in its slot marked STOPPED and prints the name and the `[n] Stopped name` notice; an exit, a kill by a signal or ECHILD removes the job when no earlier slot shares its group |
| JobControl.ApplyForegroundWait | Linux_Shell_In_C/Linux_Shell_In_C/shell/src/fg_bg.c:48-60 | applying the wait result leaves the table and notice AfterForegroundWait gives, and keeps the invariant and the counter |
| JobControl.ForegroundJob | Linux_Shell_In_C/Linux_Shell_In_C/shell/src/fg_bg.c:26-63 | for the found job: prints its name; on a failed hand-over prints the error and resets `foreground_pid`; on a failed SIGCONT to a stopped job prints the error and gives the terminal back; otherwise waits and applies the result; in every case `foreground_pid` ends at -1 and the terminal with the shell if it was handed over |
| JobControl.ContinueAndWait | Linux_Shell_In_C/Linux_Shell_In_C/shell/src/fg_bg.c:36-63 | after a successful hand-over: a STOPPED job is sent SIGCONT first, and a failed SIGCONT prints the `kill failed` error and leaves the table as it was; otherwise the wait result is applied to the job's slot; in every case the shell takes the terminal back and `foreground_pid` ends at -1 |
| JobControl.ReturnTerminal | Linux_Shell_In_C/Linux_Shell_In_C/shell/src/fg_bg.c:62-63 | the terminal goes back to the shell and `foreground_pid` is set to -1, recorded as one more grant and one more write |
| JobControl.Fg | Linux_Shell_In_C/Linux_Shell_In_C/shell/src/fg_bg.c:14-64 | `fg_command`: more than two words prints the syntax message and a missing job prints "No such job", both leaving the table, `foreground_pid` and the terminal alone; otherwise as ForegroundJob |
| JobControl.SelectJob | Linux_Shell_In_C/Linux_Shell_In_C/shell/src/fg_bg.c:20-72 | the job found is the one Selected names: `find_job_by_number(atoi(argv[1]))` for two words, `find_most_recent_job` otherwise |
| JobControl.BgOnlyResumes | Linux_Shell_In_C/Linux_Shell_In_C/shell/src/fg_bg.c:66-87 | `bg` keeps the invariant and the number of entries, changes at most one entry and only from STOPPED to RUNNING, and changes the table exactly when SIGCONT was delivered |
| JobControl.Bg | Linux_Shell_In_C/Linux_Shell_In_C/shell/src/fg_bg.c:66-87 | `bg_command`: more than two words prints the syntax message, a missing job prints "No such job", a RUNNING job prints "Job already running", a failed kill prints its error, all leaving the table alone; otherwise the job is marked RUNNING in place and `[n] name &` is printed |
| Pipeline.PipeEnd | shell/src/pipeline.c:92-93 | the end scan stops at the first `\|` at or after the start, or at the end of the tokens, with no `\|` in between |
| Pipeline.StagesCount | shell/src/pipeline.c:26-87 | the number of stages is the number of `\|` tokens plus one |
| Pipeline.CountAt | shell/src/pipeline.c:28 | a `\|` at position e adds one to the count from e |
| Pipeline.CountSkips | shell/src/pipeline.c:28 | tokens without `\|` add nothing to the count |
| Pipeline.StageRunFrom | shell/src/pipeline.c:91-119 | stage k is a run of non-`\|` tokens ending at a `\|` or at the end; stage k+1 starts right after stage k's `\|`; the last stage ends at the end of the tokens |
| Pipeline.StagesUnfold | shell/src/pipeline.c:91-119 | the stages from s are the run up to the first `\|` and then the stages after it |
| Pipeline.StagesOne | shell/src/pipeline.c:91-95 | with no `\|` after s there is exactly one stage, the rest of the tokens; otherwise at least two |
| Pipeline.StagesHead | shell/src/pipeline.c:92-93 | the first stage from s runs from s to the first `\|` |
| Pipeline.StagesShift | shell/src/pipeline.c:119 | the stages after the first are the stages starting one past the first `\|` |
| Pipeline.StageIsRunFrom | shell/src/pipeline.c:92-93 | every stage is a run of non-`\|` tokens ending at a `\|` or the end |
| Pipeline.NextStageFrom | shell/src/pipeline.c:119 | each stage but the last ends at a `\|` and the next starts right after it |
| Pipeline.LastStageFrom | shell/src/pipeline.c:93 | the last stage ends at the end of the tokens |
| Pipeline.CountPipes | shell/src/pipeline.c:26-29 | the counting loop returns the number of `\|` tokens |
| Pipeline.View | shell/src/pipeline.c:108-110 | the token array a stage's child sees: its tokens in order and then the entry after them |
| Pipeline.ShellArgv | shell/src/pipeline.c:32-43 | the argv loop for a lone stage returns the tokens with each redirection operator and the token after it dropped, and whether an operator was met |
| Pipeline.ShellArgsMatchChild | shell/src/pipeline.c:35-42 | the shell strips a lone stage's redirections exactly as the child's argv loop does |
| Pipeline.RedirectionPresent | shell/src/pipeline.c:36-37 | `has_redirection` is set exactly when some token is `<`, `>` or `>>`; without one argv is all the tokens |
| Pipeline.LaunchesUpTo | shell/src/pipeline.c:91-120 | the first m launch records are those of stages 0..m-1 |
| Pipeline.FirstFailure | shell/src/pipeline.c:96-99 | the first stage whose pipe or fork fails (or n), with every stage before it launched |
| Pipeline.LaunchStages | shell/src/pipeline.c:86-120 | the stage loop launches exactly the stages before the first failing pipe or fork, and reports that failure's `perror` line, or none |
| Pipeline.LaunchStep | shell/src/pipeline.c:92-119 | one pass of the stage loop either launches stage i and advances, or stops at the first failure; `if (pgid == 0) pgid = pid` makes the group the first stage's pid, since a parent never sees pid 0 |
| Pipeline.FirstFailureAt | shell/src/pipeline.c:96-99 | the first failing stage is i when none before it fails and i fails or is past the end |
| Pipeline.StageIsRun | shell/src/pipeline.c:92-119 | stage k of a segment is a run of non-`\|` tokens and stage k+1 starts one past its end |
| Pipeline.NextPipe | shell/src/pipeline.c:92-93 | the inner `while` stops at the stage's end |
| Pipeline.WiringPlan | shell/src/pipeline.c:96-118 | stage 0 keeps the inherited stdin and the last stage the inherited stdout; stage k>0 reads pipe k-1; every non-last stage writes its own pipe; every stage is in the first stage's group and runs its own tokens |
| Pipeline.GroupWaitStopsWhen | shell/src/pipeline.c:130-145 | the foreground wait ends on a stop exactly when a stop is reported before `pid_count` exits/kills and before any ECHILD |
| Pipeline.WaitForGroup | shell/src/pipeline.c:130-145 | the loop counting `processes_to_wait_for` down returns GroupWaitStops |
| Pipeline.SettleGroup | shell/src/pipeline.c:65-153 | after launching: a background group is added as one RUNNING job with its notice; otherwise `foreground_pid` is set to the group and then -1, the terminal handed over and back as the interactive flag says, and a stopped group added as a STOPPED job with the `[n] Stopped` notice |
| Pipeline.HoldForeground | shell/src/pipeline.c:127-153 | the foreground branch writes the group then -1 to `foreground_pid`, gives the terminal to the group and back to the shell when interactive, and changes the table only when the group stopped |
| Pipeline.HandOver | shell/src/pipeline.c:127-128 | `foreground_pid` becomes the group, and the terminal goes to the group only when `giveFirst` holds, which is when the shell is interactive (the group, a pid the parent saw, is never 0) |
| Pipeline.MaybeRegister | shell/src/pipeline.c:147-150 | a stopped group is added as a STOPPED job and announced; otherwise nothing changes and nothing is printed |
| Pipeline.TakeBack | shell/src/pipeline.c:152-153 | the shell takes the terminal back only in interactive mode, and `foreground_pid` is always reset to -1 |
| Pipeline.RegisterStopped | shell/src/pipeline.c:148-149 | adds the group as a STOPPED job and prints the notice with the most recent job's number |
| Pipeline.ExecutePipeline | shell/src/pipeline.c:23-155 | `execute_pipeline` changes the table, `foreground_pid` and the terminal as PipelineSpec says and returns its value: -1 for no tokens or a failed pipe/fork, 0 for a lone special builtin, the group otherwise |
| Pipeline.ExecuteSingle | shell/src/pipeline.c:31-84 | the no-`\|` branch follows SingleSpec: the builtin shortcut, the fork, then Settle |
| Pipeline.ExecuteMulti | shell/src/pipeline.c:86-155 | the `\|` branch follows MultiSpec: the stage loop, then Settle for the group of the first stage |
| Pipeline.EmptySegment | shell/src/pipeline.c:24 | no tokens returns -1 and changes and prints nothing |
| Pipeline.SpecialBuiltinInShell | shell/src/pipeline.c:35-52 | a lone special builtin returns 0, forks nothing, adds no job and does not touch `foreground_pid`; it runs in the shell on the stripped argv exactly when no redirection is present |
| Pipeline.BackgroundRegisters | shell/src/pipeline.c:65-125 | a launched background group becomes one RUNNING job, numbered by the counter and keyed by the first pid, appended to the table; nothing waits and `foreground_pid` is untouched |
| Pipeline.ForegroundWait | shell/src/pipeline.c:70-153 | in the foreground `foreground_pid` holds the group during the wait and -1 afterwards; the table gains at most one job, a STOPPED one for that group; the last terminal hand-over returns it to the shell |
| Pipeline.SettleForeground | shell/src/pipeline.c:127-153 | the foreground half of Settle: writes the group then -1, adds at most a STOPPED job for the group, and ends with the terminal back with the shell |
| Process.PlanFrom | mini-project-1-keshviagrawal-main/mini-project-1-keshviagrawal-main/shell/src/process.c:26-40 | the scan from position i keeps at most one argument per remaining token and never reads its input from the null device |
| Process.Redirect | mini-project-1-keshviagrawal-main/mini-project-1-keshviagrawal-main/shell/src/process.c:27-35 | one redirection operator consumes its operand: a missing operand aborts with the syntax message, an `open` that fails aborts with its message, `<` replaces the input and `>`/`>>` the output; the argument vector is unchanged and the scan resumes two places on |
| Process.ScanRedirections | mini-project-1-keshviagrawal-main/mini-project-1-keshviagrawal-main/shell/src/process.c:22-40 | the loop stops at the token count or the first NULL and returns exactly PlanFrom from position 0 |
| Process.WordStep | mini-project-1-keshviagrawal-main/mini-project-1-keshviagrawal-main/shell/src/process.c:36-37 | a non-operator token is appended to the argument vector |
| Process.RunCommandInChild | mini-project-1-keshviagrawal-main/mini-project-1-keshviagrawal-main/shell/src/process.c:21-63 | `run_command_in_child` ends as Launch of the scan says: aborted with status 1 after the files opened so far, or wired and then running a builtin, refusing `fg`/`bg`, executing the program or exiting 127 |
| Process.ArgsAreStripped | mini-project-1-keshviagrawal-main/mini-project-1-keshviagrawal-main/shell/src/process.c:26-40 | argv is the stage's tokens in order up to the first NULL, minus each `<`/`>`/`>>` and the token after it, and holds no redirection operator |
| Process.LastOutputWins | mini-project-1-keshviagrawal-main/mini-project-1-keshviagrawal-main/shell/src/process.c:30-43 | when stdout is redirected, some `>`/`>>` at position k names the file and nothing after k's operand redirects stdout: the last output redirection wins |
| Process.WrittenFiles | mini-project-1-keshviagrawal-main/mini-project-1-keshviagrawal-main/shell/src/process.c:28-35 | every file opened for writing, by a finished scan or by one that gave up at a later redirection, was opened by `>` for truncation or by `>>` for appending and could be opened in that mode; for a finished scan stdout is redirected exactly when some file was opened for writing |
| Process.AbortCause | mini-project-1-keshviagrawal-main/mini-project-1-keshviagrawal-main/shell/src/process.c:28-35 | the scan aborts only at a redirection operator: with the syntax message when no token follows it, or with the `open` message when its file cannot be opened in that operator's mode; the files it leaves opened for writing are exactly those opened before that operator |
| Process.AbortKeepsEarlierOutput | mini-project-1-keshviagrawal-main/mini-project-1-keshviagrawal-main/shell/src/process.c:28-33 | `cmd > out < missing` creates and truncates `out` before the input fails to open, and the child exits with status 1 leaving `out` truncated |
| Process.ExitStatuses | mini-project-1-keshviagrawal-main/mini-project-1-keshviagrawal-main/shell/src/process.c:28-62 | status 1 exactly for a failed redirection or `fg`/`bg`; 0 exactly after another builtin; 127 exactly for an empty argv or a program that cannot be executed; no status exactly when the program runs |
| Process.BackgroundInput | mini-project-1-keshviagrawal-main/mini-project-1-keshviagrawal-main/shell/src/process.c:42-47 | only stdin is redirected to the null device, exactly for a background stage without `<`; stdout is never changed this way |
| Builtins.GetBuiltinType | Linux_Shell_In_C/Linux_Shell_In_C/shell/src/executor.c:19-28 | SPECIAL exactly for hop, exit, fg, bg and log; REGULAR exactly for reveal, activities and ping; everything else, NULL included, is NOT_BUILTIN |
| Builtins.ExecuteBuiltin | Linux_Shell_In_C/Linux_Shell_In_C/shell/src/executor.c:30-51 | `hop` gets the arguments after its name; `ping` runs only with exactly three tokens, on `(pid_t)strtol` and `(int)strtol` of the two arguments (StrtolInt: saturated to a 64-bit `long`, then truncated to 32 bits), and prints the syntax message exactly when the count is not three |
| Builtins.ClassifiedNamesDispatch | Linux_Shell_In_C/Linux_Shell_In_C/shell/src/executor.c:19-51 | `execute_builtin` does something exactly for the names `get_builtin_type` classifies as builtins, and no name is both special and regular |
| Executor.Values | Linux_Shell_In_C/Linux_Shell_In_C/shell/src/executor.c:61-66 | the token array read as strings, position by position |
| Executor.SplitJoined | Linux_Shell_In_C/Linux_Shell_In_C/shell/src/executor.c:61-74 | writing the segments back out, each followed by its separator, gives back the token line: the cut loses and invents nothing |
| Executor.SplitShape | Linux_Shell_In_C/Linux_Shell_In_C/shell/src/executor.c:61-74 | every segment is a run of non-separator tokens named after its first token (or "" when empty); only the last may be unterminated, and an unterminated one is a non-empty foreground run |
| Executor.Execute | Linux_Shell_In_C/Linux_Shell_In_C/shell/src/executor.c:53-77 | `execute` returns false exactly when there are no tokens, and then changes nothing; otherwise it polls the jobs first when interactive, hands `execute_pipeline` the segments of Split in order, and leaves every separator NULL in the caller's array |
| Executor.CutSegments | Linux_Shell_In_C/Linux_Shell_In_C/shell/src/executor.c:60-74 | the separator loop produces Split of the tokens and NULLs exactly the separators below the count |
| Executor.CutStart | Linux_Shell_In_C/Linux_Shell_In_C/shell/src/executor.c:60 | before the loop nothing has been cut and the array is as given |
| Executor.CutStep | Linux_Shell_In_C/Linux_Shell_In_C/shell/src/executor.c:61-69 | one pass of the loop keeps the relation between the segments cut so far, the NULLed array and Split |
| Executor.NulledAt | Linux_Shell_In_C/Linux_Shell_In_C/shell/src/executor.c:64 | a position at or past the NULLing bound is as it was |
| Executor.CutAfterSeparator | Linux_Shell_In_C/Linux_Shell_In_C/shell/src/executor.c:62-67 | cutting a segment at a separator keeps the cut-so-far plus the rest equal to Split |
| Executor.SegmentAt | Linux_Shell_In_C/Linux_Shell_In_C/shell/src/executor.c:63-73 | a segment read back from the array has the tokens between its bounds and, as its name, its first token or "" when it is empty or NULL |
| Executor.NulledStep | Linux_Shell_In_C/Linux_Shell_In_C/shell/src/executor.c:64 | NULLing one more position changes only that position, and only for a separator |
| Executor.SeparatorStep | Linux_Shell_In_C/Linux_Shell_In_C/shell/src/executor.c:62-67 | a segment ended by `&` is background and one ended by `;` foreground, with the tokens before the separator |
| Executor.LastStep | Linux_Shell_In_C/Linux_Shell_In_C/shell/src/executor.c:71-74 | the trailing unterminated segment is foreground and holds the rest of the tokens |
| Parser.LeadingBlanks | mini-project-1-keshviagrawal-main/mini-project-1-keshviagrawal-main/shell/src/parser.c:17-20 | `start` walks past exactly the leading run of space/tab/LF/CR |
| Parser.ShrinkEnd | mini-project-1-keshviagrawal-main/mini-project-1-keshviagrawal-main/shell/src/parser.c:22-25 | `end` moves left only over blanks and only while it is above `start`; it stops on a non-blank or at `start` |
| Parser.Trimmed | mini-project-1-keshviagrawal-main/mini-project-1-keshviagrawal-main/shell/src/parser.c:12-29 | what `trim_whitespace` leaves is never longer than its input |
| Parser.TrimmedWithoutLeadingBlank | mini-project-1-keshviagrawal-main/mini-project-1-keshviagrawal-main/shell/src/parser.c:12-29 | on a string with no leading blank, trimming removes exactly the trailing run of space/tab/LF/CR and leaves a string that does not end in one |
| Parser.TrimmedLosesTail | mini-project-1-keshviagrawal-main/mini-project-1-keshviagrawal-main/shell/src/parser.c:22 | with k >= 1 leading blanks, `end` computed from `str` instead of `start` drops the last k characters as well: the result is s[k..\|s\|-k] (so " ls" becomes "l") |
| Parser.TrimWhitespace | mini-project-1-keshviagrawal-main/mini-project-1-keshviagrawal-main/shell/src/parser.c:12-29 | the buffer ends up holding exactly Trimmed of its old contents, NUL-terminated |
| Parser.TrimmedInBuffer | mini-project-1-keshviagrawal-main/mini-project-1-keshviagrawal-main/shell/src/parser.c:27-28 | after the NUL is written at `end + 1`, the characters from `start` to the first NUL are Trimmed of the input |
| Parser.TrimmedIs | mini-project-1-keshviagrawal-main/mini-project-1-keshviagrawal-main/shell/src/parser.c:22-28 | Trimmed is the slice from `start` to `end + 1`, or the rest of the string when `end` ended below `start` |
| Parser.TrimBounds | mini-project-1-keshviagrawal-main/mini-project-1-keshviagrawal-main/shell/src/parser.c:17-25 | the two pointer walks stop where LeadingBlanks and ShrinkEnd say |
| Parser.MoveToFront | mini-project-1-keshviagrawal-main/mini-project-1-keshviagrawal-main/shell/src/parser.c:28 | the `memmove` copies the trimmed text and its NUL to the front of the buffer |
| Parser.FirstOperatorChar | mini-project-1-keshviagrawal-main/mini-project-1-keshviagrawal-main/shell/src/parser.c:34 | `strpbrk` finds the first operator character, with none before it |
| Parser.CommandOrArgIsWord | mini-project-1-keshviagrawal-main/mini-project-1-keshviagrawal-main/shell/src/parser.c:32-35 | `is_command_or_arg` holds exactly for a non-NULL, non-empty token without any of `\|&><;` |
| Parser.NoOperatorChar | mini-project-1-keshviagrawal-main/mini-project-1-keshviagrawal-main/shell/src/parser.c:34 | `strpbrk` finds nothing exactly when the token holds no operator character |
| Parser.OperatorsAreNotWords | mini-project-1-keshviagrawal-main/mini-project-1-keshviagrawal-main/shell/src/parser.c:32-42 | none of `\| ; < > >> &` (the tokens `is_valid_operator` accepts) is a word |
| Parser.QuoteEnd | mini-project-1-keshviagrawal-main/mini-project-1-keshviagrawal-main/shell/src/parser.c:79-81 | a quoted token's text ends at the first `"` or at the end of the line, with no quote before |
| Parser.WordEnd | mini-project-1-keshviagrawal-main/mini-project-1-keshviagrawal-main/shell/src/parser.c:94-97 | a word ends at the first blank or operator character, or at the end, and holds neither |
| Parser.NextToken | mini-project-1-keshviagrawal-main/mini-project-1-keshviagrawal-main/shell/src/parser.c:49-101 | every token taken moves the scan forward |
| Parser.QuotedToken | mini-project-1-keshviagrawal-main/mini-project-1-keshviagrawal-main/shell/src/parser.c:76-90 | a quoted token is the text up to the next `"`, verbatim, possibly empty or holding operators; the closing quote is consumed, and an unterminated quote runs to the end of the line |
| Parser.UnquotedToken | mini-project-1-keshviagrawal-main/mini-project-1-keshviagrawal-main/shell/src/parser.c:60-101 | `>>` is one token, any other operator character is a token of its own, and otherwise the token is a word ending at a blank, an operator character or the end; each is the input text itself |
| Parser.Lex | mini-project-1-keshviagrawal-main/mini-project-1-keshviagrawal-main/shell/src/parser.c:49-102 | the scan never produces more tokens than it has room for |
| Parser.Tokens | mini-project-1-keshviagrawal-main/mini-project-1-keshviagrawal-main/shell/src/parser.c:8-49 | `tokenize_input` emits at most 100 tokens |
| Parser.ScanToken | mini-project-1-keshviagrawal-main/mini-project-1-keshviagrawal-main/shell/src/parser.c:60-101 | one pass of the token loop from a non-blank position produces NextToken |
| Parser.TokenizeInput | mini-project-1-keshviagrawal-main/mini-project-1-keshviagrawal-main/shell/src/parser.c:45-103 | the pointer-walking loop produces exactly Tokens of the line |
| Parser.LexStep | mini-project-1-keshviagrawal-main/mini-project-1-keshviagrawal-main/shell/src/parser.c:49-101 | one pass of the loop skips a blank or takes a token, keeping the tokens so far plus the rest equal to Tokens |
| Parser.LexTaken | mini-project-1-keshviagrawal-main/mini-project-1-keshviagrawal-main/shell/src/parser.c:60-101 | a token taken keeps that relation |
| Parser.LexedAll | mini-project-1-keshviagrawal-main/mini-project-1-keshviagrawal-main/shell/src/parser.c:49 | the loop ends at the end of the line or with 100 tokens, holding Tokens |
| Parser.QuoteFreeToken | mini-project-1-keshviagrawal-main/mini-project-1-keshviagrawal-main/shell/src/parser.c:60-101 | on quote-free input a token is a word or an operator, holds no blank and is exactly the text scanned |
| Parser.QuoteFreeTokens | mini-project-1-keshviagrawal-main/mini-project-1-keshviagrawal-main/shell/src/parser.c:49-102 | on quote-free input every token is a word or an operator without blanks |
| Parser.WithoutBlanks | mini-project-1-keshviagrawal-main/mini-project-1-keshviagrawal-main/shell/src/parser.c:51-53 | removing blanks never lengthens a string |
| Parser.WithoutBlanksAppend | mini-project-1-keshviagrawal-main/mini-project-1-keshviagrawal-main/shell/src/parser.c:51-53 | removing blanks distributes over concatenation |
| Parser.TokensConcatenate | mini-project-1-keshviagrawal-main/mini-project-1-keshviagrawal-main/shell/src/parser.c:49-102 | for quote-free input that yields fewer than 100 tokens, the tokens concatenated are the input with its blanks removed |
| Parser.ValidateAtomicCommand | mini-project-1-keshviagrawal-main/mini-project-1-keshviagrawal-main/shell/src/parser.c:106-130 | `validate_atomic_command` is true exactly for a non-empty range starting with a word in which every `<`/`>`/`>>` is followed, inside the range, by a word |
| Parser.GroupStart | mini-project-1-keshviagrawal-main/mini-project-1-keshviagrawal-main/shell/src/parser.c:156-189 | `current_cmd_start` is just after the last `\|`, `;` or `&` before the position, or 0 |
| Parser.PositionsOkSnoc | mini-project-1-keshviagrawal-main/mini-project-1-keshviagrawal-main/shell/src/parser.c:158-197 | the positions below m + 1 are acceptable exactly when those below m are and m is |
| Parser.CheckGroups | mini-project-1-keshviagrawal-main/mini-project-1-keshviagrawal-main/shell/src/parser.c:156-205 | the group loop accepts exactly the Grammatical token lists |
| Parser.CheckedStep | mini-project-1-keshviagrawal-main/mini-project-1-keshviagrawal-main/shell/src/parser.c:158-197 | an acceptable token keeps the loop's relation, with the group restarting after a `\|`/`;`/`&` |
| Parser.CheckedAll | mini-project-1-keshviagrawal-main/mini-project-1-keshviagrawal-main/shell/src/parser.c:199-205 | after the loop, the list is Grammatical exactly when the final group, if any, is valid |
| Parser.CheckToken | mini-project-1-keshviagrawal-main/mini-project-1-keshviagrawal-main/shell/src/parser.c:159-196 | the checks of the loop body accept exactly the positions PositionOk accepts: a `\|` closing a valid group and followed by a non-operator, a separator closing a valid group and last or followed by a non-operator, any other token a word or an operator |
| Parser.ParseInput | mini-project-1-keshviagrawal-main/mini-project-1-keshviagrawal-main/shell/src/parser.c:132-209 | `parse_input` accepts exactly a line that trims to nothing or whose tokens are Grammatical |
| Parser.Ungrammatical | mini-project-1-keshviagrawal-main/mini-project-1-keshviagrawal-main/shell/src/parser.c:161-195 | a `\|` at the end or before an operator, a separator followed by an operator, and a token that is neither a word nor an operator (such as the quoted `"a\|b"`) each make the line invalid |
| Parser.TrailingSeparator | mini-project-1-keshviagrawal-main/mini-project-1-keshviagrawal-main/shell/src/parser.c:179-183 | a trailing `;` or `&` after a non-empty final group does not change the verdict |
| Parser.EarlierPositionsExtend | mini-project-1-keshviagrawal-main/mini-project-1-keshviagrawal-main/shell/src/parser.c:158-197 | appending a separator leaves the verdict on every earlier position unchanged |
| Parser.PositionExtends | mini-project-1-keshviagrawal-main/mini-project-1-keshviagrawal-main/shell/src/parser.c:158-197 | appending a separator leaves the verdict on one earlier position unchanged |
| Parser.LastSeparatorOk | mini-project-1-keshviagrawal-main/mini-project-1-keshviagrawal-main/shell/src/parser.c:173-183 | a separator appended at the end is acceptable exactly when the group it closes is valid |
| Parser.AtomicValidExtends | mini-project-1-keshviagrawal-main/mini-project-1-keshviagrawal-main/shell/src/parser.c:106-130 | a token appended after the range does not change `validate_atomic_command` on it |
| Parser.GroupStartExtends | mini-project-1-keshviagrawal-main/mini-project-1-keshviagrawal-main/shell/src/parser.c:156-189 | appending a token does not move the group start of any earlier position |
| Parser.GroupStartPrefix | mini-project-1-keshviagrawal-main/mini-project-1-keshviagrawal-main/shell/src/parser.c:156-189 | the group start of a position depends only on the tokens before it |
| History.FieldEnd | shell/src/log.c:127-136 | a `strtok_r` field ends at the next delimiter or the end, with no delimiter inside |
| History.Fields | shell/src/log.c:127-163 | the fields `strtok_r` returns are non-empty and hold no delimiter |
| History.SpaceEnd | shell/src/log.c:139-141 | the first-word pointer skips exactly the leading `isspace` characters |
| History.WordEnd | shell/src/log.c:143-146 | the end pointer stops at the first `isspace` character or the end |
| History.Recorded | shell/src/log.c:116-185 | `add_to_log`: a command with a `log` stage, or equal to the newest entry, leaves the history alone; otherwise the command becomes the newest entry, appended, or with the oldest dropped when 15 are held; never more than 15 entries |
| History.RecordedIdempotent | shell/src/log.c:170-172 | recording the same command twice in a row records it once |
| History.RecordedNumbering | shell/src/log.c:86-182 | after a command is recorded it is entry 1 of `log execute`, and entry n becomes entry n + 1 |
| History.LineEnd | shell/src/log.c:41 | `strcspn(line, "\n")` finds the first newline or the end |
| History.FileLines | shell/src/log.c:40-41 | every line read back is cut at its newline |
| History.LineEndShift | shell/src/log.c:40-41 | the newline search is the same on a suffix of the text, shifted |
| History.LoadSaved | shell/src/log.c:40-60 | reading back what `save_history` wrote gives the history back, when no entry holds a newline |
| History.FileLinesCons | shell/src/log.c:40-41 | a line, its newline and the rest read back as that line followed by the rest's lines |
| History.Take | shell/src/log.c:42-43 | the first min(length, n) lines, a prefix |
| History.RecallFrom | shell/src/log.c:85-110 | `execute_from_history(n)`: an invalid index exactly outside 1..count; otherwise the tokens of entry n counted from the newest (index count - n), run only when there are some and the first is not `log` |
| History.ReplayCanRefuse | shell/src/log.c:99-168 | `log>x` is recorded, since its first white-space word is not `log`, and then refused by `log execute 1`, since its first token is |
| History.NotRecordedAsLog | shell/src/log.c:127-168 | `log>x` has no stage whose first white-space word is `log` |
| History.WholeField | shell/src/log.c:127-136 | a string without delimiters is one field |
| History.WholeWord | shell/src/log.c:139-146 | a string without white space is its own first word |
| History.ScannedAsLog | shell/src/log.c:97-100 | the tokenizer splits `log>x` with `log` as its first token |
| History.HistoryLines | shell/src/log.c:64-68 | `print_history` prints each entry and a newline, oldest first |
| History.LogCommand | shell/src/log.c:187-201 | `handle_log_command` returns true exactly for no arguments, `purge`, or `execute n`; only `purge` changes the history, emptying it; a token line is run only for a valid `execute` index whose entry may be replayed; anything else prints "log: Invalid Syntax!" |
| History.Log.constructor | shell/src/log.c:19-20 | the history starts empty |
| History.Log.FindLog | shell/src/log.c:123-163 | the nested `strtok_r` loops find `log` exactly when some `\|`-stage of some `;`/`&`-segment has it as its first white-space word |
| History.Log.FirstWordOf | shell/src/log.c:138-155 | the two pointer walks isolate a stage's first white-space word |
| History.Log.Add | shell/src/log.c:116-185 | `add_to_log` leaves the entries as Recorded says and keeps at most 15 |
| History.Log.ShiftDown | shell/src/log.c:174-178 | every entry of a full history moves down one slot |
| History.Log.ShiftedDown | shell/src/log.c:176-178 | entries read from one slot up make up the old history without its oldest entry |
| History.Log.Print | shell/src/log.c:64-68 | prints HistoryLines of the entries |
| History.Log.Purge | shell/src/log.c:70-76 | empties the history |
| History.Log.ExecuteFromHistory | shell/src/log.c:85-110 | returns RecallFrom of the entries and prints "Invalid history index." for a bad index and the refusal for a `log` entry |
| History.Log.HandleLogCommand | shell/src/log.c:187-201 | the return value, output, history afterwards and token line run are those of LogCommand |
| History.Log.Load | shell/src/log.c:32-48 | the reading loop appends the file's lines, each cut at its newline, while fewer than 15 entries are held |
| History.Log.LoadLine | shell/src/log.c:40-45 | one `getline` advances past one line and keeps the loop's relation |
| History.Log.Keep | shell/src/log.c:42-44 | a line is kept exactly while there is room |
| History.Log.LineStep | shell/src/log.c:40-41 | the lines of the rest of the text are the next line and then the lines after its newline |
| Signals.CRem32 | mini-project-1-keshviagrawal-main/mini-project-1-keshviagrawal-main/shell/src/signals.c:12 | C's truncating `% 32`: the remainder has the sign of the dividend, lies in 0..31 for a non-negative dividend and in -31..0 for a negative one, and differs from it by a multiple of 32 |
| Signals.ActualSignal | mini-project-1-keshviagrawal-main/mini-project-1-keshviagrawal-main/shell/src/signals.c:12 | the signal `ping` sends always lies in 0..31 |
| Signals.ActualSignalIsModulo | mini-project-1-keshviagrawal-main/mini-project-1-keshviagrawal-main/shell/src/signals.c:12 | `((n % 32) + 32) % 32` with C's `%` is reduction modulo 32 |
| Signals.ActualSignalExamples | mini-project-1-keshviagrawal-main/mini-project-1-keshviagrawal-main/shell/src/signals.c:12 | numbers 0..31 are sent unchanged and -1 becomes 31 |
| Signals.Ping | mini-project-1-keshviagrawal-main/mini-project-1-keshviagrawal-main/shell/src/signals.c:11-19 | `ping` sends the normalised signal; on success the message reports the original, un-normalised number; ESRCH prints "No such process found"; other failures print the `perror` line |
| Signals.Forward | mini-project-1-keshviagrawal-main/mini-project-1-keshviagrawal-main/shell/src/signals.c:21-37 | a handler signals nothing exactly when `foreground_pid` is -1, and otherwise the whole group `-foreground_pid`; it prints only when that kill fails |
| Signals.HandleSigint | mini-project-1-keshviagrawal-main/mini-project-1-keshviagrawal-main/shell/src/signals.c:21-28 | `handle_sigint` forwards SIGINT by that rule and changes nothing |
| Signals.HandleSigtstp | mini-project-1-keshviagrawal-main/mini-project-1-keshviagrawal-main/shell/src/signals.c:30-37 | `handle_sigtstp` forwards SIGTSTP by that rule and changes nothing |
| Hop.Directories.constructor | shell/src/main.c:68 | the working directory as given and no previous directory |
| Hop.Directories.ChangeDirectory | mini-project-1-keshviagrawal-main/mini-project-1-keshviagrawal-main/shell/src/hop.c:10-27 | `change_directory` updates the working directory and `*prev_dir` as Changed says |
| Hop.Directories.Hop | mini-project-1-keshviagrawal-main/mini-project-1-keshviagrawal-main/shell/src/hop.c:29-61 | `hop` updates the working directory and `*prev_dir` as HopSpec says and returns its result |
| Hop.Changed | mini-project-1-keshviagrawal-main/mini-project-1-keshviagrawal-main/shell/src/hop.c:10-27 | a change succeeds exactly when `getcwd` and `chdir` do; success moves to the new directory and sets `*prev_dir` to the directory before it; failure prints one message and leaves both alone |
| Hop.HopSpec | mini-project-1-keshviagrawal-main/mini-project-1-keshviagrawal-main/shell/src/hop.c:29-61 | more than one argument prints "hop: too many arguments", fails and changes nothing; `hop -` with no previous directory succeeds and changes nothing; any failure leaves both directories alone |
| Hop.HopHome | mini-project-1-keshviagrawal-main/mini-project-1-keshviagrawal-main/shell/src/hop.c:32-57 | `hop` without arguments goes home and remembers where it was |
| Hop.HopBackTwice | mini-project-1-keshviagrawal-main/mini-project-1-keshviagrawal-main/shell/src/hop.c:22-44 | two `hop -` in a row come back to the starting directory, with the previous directory restored too |
| Reveal.Operands | shell/src/reveal.c:29-41 | the arguments that are not flag clusters, in order; never more than there are arguments |
| Reveal.ParsedArgs | shell/src/reveal.c:28-42 | the argument loop fails with a syntax error exactly when more than one argument is not a flag cluster; otherwise `-a`/`-l` are on when some cluster holds the letter after its `-`, and the path is the one operand |
| Reveal.ParsedArgsOrderFree | shell/src/reveal.c:28-42 | the outcome of the argument loop does not depend on where the flag clusters stand relative to the path |
| Reveal.FlagLetters | shell/src/reveal.c:29-33 | a single cluster turns on exactly the letters that follow its `-` |
| Reveal.ParseArgs | shell/src/reveal.c:28-42 | the argument loop computes ParsedArgs |
| Reveal.ParseArg | shell/src/reveal.c:29-41 | one pass of the argument loop: a second operand is a syntax error, any other argument extends the flags and the path read so far |
| Reveal.ScanCluster | shell/src/reveal.c:30-33 | the letter loop turns `show_all` on at an `a` and `line_by_line` on at an `l`, ignores other letters, and never turns a flag off |
| Reveal.VisibleKeepsUnhidden | shell/src/reveal.c:81-97 | without `-a` a name starting with `.` is never kept and every other name is kept as often as `readdir` returns it |
| Reveal.VisibleAll | shell/src/reveal.c:81-97 | with `-a` every entry is kept, in `readdir` order |
| Reveal.Collect | shell/src/reveal.c:81-98 | the `readdir` loop keeps exactly the visible entries, in `readdir` order |
| Reveal.CollectOne | shell/src/reveal.c:82-97 | one `readdir` step keeps the entry unless it is hidden and `-a` is off |
| Reveal.ListingNewlines | shell/src/reveal.c:103-114 | the printed listing ends each name with a newline under `-l`, and otherwise ends a non-empty listing with one newline |
| Reveal.RevealSpec | shell/src/reveal.c:20-118 | a syntax error prints "reveal: Invalid Syntax!" and fails; a missing previous directory, a failed `getcwd` or `opendir` fail with their message; a success prints one listing |
| Reveal.RevealLineCount | shell/src/reveal.c:101-114 | with `-l` a listing has one line per visible entry, without it a non-empty listing is a single line |
| Reveal.RevealCommand | shell/src/reveal.c:20-118 | `reveal` returns and prints what RevealSpec says: the sorted visible names after the argument and `readdir` loops |
| Shell.PromptPath | shell/src/main.c:51-56 | the prompt shows `~` followed by the rest of the working directory when the home directory is its prefix, and the working directory otherwise |
| Shell.DisplayPrompt | shell/src/main.c:28-60 | `display_prompt` prints `<user@host:path> ` exactly when `getcwd` succeeds, and the `getcwd` error otherwise |
| Shell.Expand | shell/src/main.c:134-141 | a token with a leading `~` starts with the home directory after expansion; any other token is unchanged; an expansion never exceeds the 4096-byte buffer |
| Shell.ExpandPromptPath | shell/src/main.c:51-138 | expanding the path the prompt shows gives back the working directory |
| Shell.Cleaned | shell/src/main.c:106 | the line is cut at its first newline: a prefix of it with no newline |
| Shell.CleanedIdempotent | shell/src/main.c:106 | cutting a line that has already been cut changes nothing |
| Shell.PlanFor | shell/src/main.c:106-145 | a line is skipped exactly when it is blank after the cut; otherwise it is rejected or run with one expanded argument per token |
| Shell.ExpandAll | shell/src/main.c:133-142 | one expanded argument per token |
| Shell.ExpandTokens | shell/src/main.c:130-143 | the `expanded_args` loop fills each slot with the expanded token and ends the array with NULL |
| Shell.ProcessLine | shell/src/main.c:106-154 | one pass of the read loop follows PlanFor: a blank line changes nothing; any other line is logged first; an invalid line prints "Invalid Syntax!"; a valid line with tokens is split into segments and, when interactive, polls the jobs |
| Shell.RunLine | shell/src/main.c:119-152 | a valid line is tokenized and expanded and handed to `execute` only when it has tokens |

## Left out

- Process creation and descriptor plumbing are not modelled: `fork`, `execvp`, `setpgid`, `pipe`, `dup2`, `close` and `waitpid`. Their outcomes are inputs: a fork oracle, a pipe oracle, the wait results and an event sequence. The model decides from them which descriptors a stage would read and write.
- Asynchronous signal delivery and the race between a handler's read of `foreground_pid` and the main path's writes are concurrency. Only the forward-or-ignore decision of a handler is modelled.
- File and directory I/O are oracles. This covers the history file, which is read as one text and written as a list of lines, and `opendir`/`readdir`, `chdir`, `getcwd` and `open`. `get_history_file_path` and the `fopen` failure paths of `load_history`/`save_history` are not part of this model.
- `check_and_kill_all_jobs` and the end-of-file, `EINTR` and `getline` failure branches of the read loop are left out, because they are blocking reaping and input plumbing. `exit` is modelled only as the request it makes.
- Memory management is left out: `malloc`/`realloc`/`strdup` failures and the `perror` paths they lead to, frees, and leaked tokens.
- Parser.TokenizeInput, Parser.ParseInput, Shell.PlanFor, Shell.RunLine, Shell.ProcessLine, History.Log.ExecuteFromHistory and History.Log.HandleLogCommand (for `log execute`) require every token to be shorter than 256 characters (`TokensFit`). The overflow of the fixed `token_buffer` is therefore not modelled.
- Parser.ParseInput and Shell.ProcessLine require a line without NUL characters: a C string ends at its first NUL.
- Text.SortBy leaves the order of equal keys open, because `qsort` is not stable. `list_activities` and `reveal` are specified up to that order.
- The user and host names of the prompt come in as parameters, and the `getpwuid`/`gethostname` failures are left out. The `display_path` buffer overflow of a very long working directory is also left out.
- Text.Atoi reads the leading digits as an unbounded integer. Where the source calls `atoi` itself (the job number of `fg`/`bg`, the index of `log execute`), its undefined overflow is not modelled; `ping`'s `strtol` reads saturate and truncate as Text.StrtolInt says.
- Builtins.ExecuteBuiltin: `execute_builtin` is modelled as the request it builds, a Builtins.BuiltinCall, and no member dispatches that request to the builtin's own model. This holds for every place that calls it: the special builtin run in the shell (Pipeline.ExecutePipeline, shell/src/pipeline.c:50) and every builtin run in a child (Process.RunCommandInChild, process.c:54). Each builtin is modelled on its own: Hop.Directories.Hop, JobControl.Fg, JobControl.Bg, History.Log.HandleLogCommand, Reveal.RevealCommand, Jobs.JobTable.ListActivities and Signals.Ping. `exit` and history re-execution are modelled only as the requests they make. Executor.Execute returns the segments it would hand to `execute_pipeline` instead of calling it.
- Shell.ProcessLine: one pass starts after `getline`. The loop-top poll and prompt of an interactive shell (shell/src/main.c:85-88) are modelled on their own as Jobs.JobTable.Poll and Shell.DisplayPrompt, and are not composed into the pass.
- Pipeline.WaitForGroup treats an event sequence that runs out like `ECHILD`: no more children to wait for.
- The `tcsetpgrp` calls whose result the source ignores, those that give the terminal back to `getpgrp()`, are taken to succeed: the owner becomes the shell again.
- Pipeline.HandOver: the forward `tcsetpgrp` calls at shell/src/pipeline.c:71 and :128, which hand the terminal to the new group and ignore their result, are also taken to succeed; the grant to the group is recorded whenever the shell is interactive. A failed hand-over, which would leave the terminal with the shell during the wait, is not modelled for `execute_pipeline` (it is for `fg`, whose code checks the result).
- A `perror` line is modelled as its prefix and the error: `ESRCH`, `ECHILD`, `ENOENT`, `EPERM`, or any other error carrying its message. Text.Strerror gives these four the wording of glibc in the C locale; another C library or locale may word them differently.
- Standard output and standard error are modelled as one ordered list of lines tagged with their stream. Buffering and flushing are not modelled.
