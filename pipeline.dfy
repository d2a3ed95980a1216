/** `execute_pipeline`: one `;`/`&` segment, split into stages on `|`. A
    lone special builtin runs in the shell itself; otherwise every stage is
    forked into one process group, wired to its neighbours by pipes, and
    either registered as a background job or waited for in the foreground. */
module Pipeline {
  import opened Text
  import opened Jobs
  import opened Session
  import opened Builtins
  import Process

  // ---------------------------------------------------------------------
  // Stages

  /** The tokens `[start, end)` of one stage. */
  datatype Span = Span(start: nat, end: nat)

  /** No `|` among the tokens `[a, b)`. */
  predicate NoPipe(w: seq<string>, a: nat, b: nat)
    requires a <= b <= |w|
  {
    forall k :: a <= k < b ==> w[k] != "|"
  }

  /** Where the stage starting at `s` ends: the next `|` or the end. */
  function PipeEnd(w: seq<string>, s: nat): (e: nat)
    requires s <= |w|
    ensures s <= e <= |w|
    ensures NoPipe(w, s, e)
    ensures e < |w| ==> w[e] == "|"
    decreases |w| - s
  {
    if s == |w| || w[s] == "|" then s else PipeEnd(w, s + 1)
  }

  function StagesFrom(w: seq<string>, s: nat): (r: seq<Span>)
    requires s <= |w|
    decreases |w| - s
  {
    var e := PipeEnd(w, s);
    if e < |w| then [Span(s, e)] + StagesFrom(w, e + 1) else [Span(s, e)]
  }

  /** The stages of a segment. */
  function Stages(w: seq<string>): seq<Span> {
    StagesFrom(w, 0)
  }

  /** There is one stage more than there are `|` tokens. */
  lemma {:induction false} StagesCount(w: seq<string>, s: nat)
    requires s <= |w|
    ensures |StagesFrom(w, s)| == Count(w[s..], "|") + 1
    decreases |w| - s
  {
    var e := PipeEnd(w, s);
    if e < |w| {
      StagesCountStep(w, s, e);
      StagesCount(w, e + 1);
    } else {
      StagesCountLast(w, s);
    }
  }

  /** The first stage ends at a `|`: one stage and one `|` fewer after it. */
  lemma StagesCountStep(w: seq<string>, s: nat, e: nat)
    requires s <= |w| && e == PipeEnd(w, s) && e < |w|
    ensures |StagesFrom(w, s)| == |StagesFrom(w, e + 1)| + 1
    ensures Count(w[s..], "|") == Count(w[e + 1..], "|") + 1
  {
    CountSkips(w, s, e);
    StagesUnfold(w, s, e);
    CountAt(w, e);
  }

  /** The first stage runs to the end: it is the only one. */
  lemma StagesCountLast(w: seq<string>, s: nat)
    requires s <= |w| && PipeEnd(w, s) == |w|
    ensures |StagesFrom(w, s)| == 1 && Count(w[s..], "|") == 0
  {
    CountSkips(w, s, |w|);
    StagesOne(w, s);
    assert w[|w|..] == [];
  }

  lemma CountAt(w: seq<string>, e: nat)
    requires e < |w| && w[e] == "|"
    ensures Count(w[e..], "|") == 1 + Count(w[e + 1..], "|")
  {
    var t := w[e..];
    assert t == [w[e]] + w[e + 1..];
    CountAppend([w[e]], w[e + 1..], "|");
  }

  lemma CountSkips(w: seq<string>, s: nat, e: nat)
    requires s <= e <= |w| && NoPipe(w, s, e)
    ensures Count(w[s..], "|") == Count(w[e..], "|")
  {
    assert w[s..] == w[s..e] + w[e..];
    CountAppend(w[s..e], w[e..], "|");
    assert "|" !in w[s..e];
    CountZero(w[s..e], "|");
  }

  /** `sp` is a run of tokens without `|` that ends at a `|` or at the
      end of the segment. */
  predicate IsRun(w: seq<string>, sp: Span) {
    && sp.start <= sp.end <= |w|
    && NoPipe(w, sp.start, sp.end)
    && (sp.end == |w| || w[sp.end] == "|")
  }

  /** Stage `k` is exactly the run of tokens between the `k`-th and the
      `k+1`-th `|`: it holds no `|`, it ends at a `|` or at the end of the
      segment, the next stage starts one past that `|`, and the last stage
      runs to the end. */
  lemma StageRunFrom(w: seq<string>, s: nat, k: nat)
    requires s <= |w| && k < |StagesFrom(w, s)|
    ensures s <= StagesFrom(w, s)[k].start && IsRun(w, StagesFrom(w, s)[k])
    ensures k + 1 < |StagesFrom(w, s)| ==>
      StagesFrom(w, s)[k].end < |w| && StagesFrom(w, s)[k + 1].start == StagesFrom(w, s)[k].end + 1
    ensures k + 1 == |StagesFrom(w, s)| ==> StagesFrom(w, s)[k].end == |w|
  {
    StageIsRunFrom(w, s, k);
    if k + 1 < |StagesFrom(w, s)| {
      NextStageFrom(w, s, k);
    } else {
      LastStageFrom(w, s, k);
    }
  }

  lemma StagesUnfold(w: seq<string>, s: nat, e: nat)
    requires s <= |w| && e == PipeEnd(w, s) && e < |w|
    ensures StagesFrom(w, s) == [Span(s, e)] + StagesFrom(w, e + 1)
  {
  }

  /** A stage without `|` after it is the only one; otherwise there are at least two. */
  lemma StagesOne(w: seq<string>, s: nat)
    requires s <= |w|
    ensures PipeEnd(w, s) == |w| ==> StagesFrom(w, s) == [Span(s, |w|)]
    ensures PipeEnd(w, s) < |w| ==> |StagesFrom(w, s)| >= 2
  {
    var e := PipeEnd(w, s);
    if e < |w| {
      StagesUnfold(w, s, e);
      StagesHead(w, e + 1);
    }
  }

  lemma StagesHead(w: seq<string>, s: nat)
    requires s <= |w|
    ensures StagesFrom(w, s) != [] && StagesFrom(w, s)[0] == Span(s, PipeEnd(w, s))
  {
  }

  /** Stage `k > 0` from `s` is stage `k - 1` from one past the first `|`. */
  lemma StagesShift(w: seq<string>, s: nat, k: nat)
    requires s <= |w| && PipeEnd(w, s) < |w| && 0 < k < |StagesFrom(w, s)|
    ensures |StagesFrom(w, s)| == |StagesFrom(w, PipeEnd(w, s) + 1)| + 1
    ensures StagesFrom(w, s)[k] == StagesFrom(w, PipeEnd(w, s) + 1)[k - 1]
  {
    var e := PipeEnd(w, s);
    StagesUnfold(w, s, e);
    var rest := StagesFrom(w, e + 1);
    assert ([Span(s, e)] + rest)[k] == rest[k - 1];
  }

  lemma {:induction false} StageIsRunFrom(w: seq<string>, s: nat, k: nat)
    requires s <= |w| && k < |StagesFrom(w, s)|
    ensures s <= StagesFrom(w, s)[k].start && IsRun(w, StagesFrom(w, s)[k])
    decreases k
  {
    if k == 0 {
      StagesHead(w, s);
    } else {
      var e := PipeEnd(w, s);
      LaterStage(w, s, k);
      StageIsRunFrom(w, e + 1, k - 1);
    }
  }

  /** A stage after the first lies past the first `|`. */
  lemma LaterStage(w: seq<string>, s: nat, k: nat)
    requires s <= |w| && 0 < k < |StagesFrom(w, s)|
    ensures PipeEnd(w, s) < |w| && |StagesFrom(w, s)| == |StagesFrom(w, PipeEnd(w, s) + 1)| + 1
    ensures StagesFrom(w, s)[k] == StagesFrom(w, PipeEnd(w, s) + 1)[k - 1]
  {
    StagesOne(w, s);
    StagesShift(w, s, k);
  }

  lemma {:induction false} NextStageFrom(w: seq<string>, s: nat, k: nat)
    requires s <= |w| && k + 1 < |StagesFrom(w, s)|
    ensures StagesFrom(w, s)[k].end < |w| && StagesFrom(w, s)[k + 1].start == StagesFrom(w, s)[k].end + 1
    decreases k
  {
    var e := PipeEnd(w, s);
    LaterStage(w, s, k + 1);
    if k == 0 {
      StagesHead(w, s);
      StagesHead(w, e + 1);
    } else {
      LaterStage(w, s, k);
      NextStageFrom(w, e + 1, k - 1);
    }
  }

  lemma {:induction false} LastStageFrom(w: seq<string>, s: nat, k: nat)
    requires s <= |w| && k + 1 == |StagesFrom(w, s)|
    ensures StagesFrom(w, s)[k].end == |w|
    decreases k
  {
    if k == 0 {
      StagesHead(w, s);
      StagesOne(w, s);
    } else {
      var e := PipeEnd(w, s);
      LaterStage(w, s, k);
      LastStageFrom(w, e + 1, k - 1);
    }
  }

  /** The pipe count loop of `execute_pipeline`. */
  method CountPipes(w: seq<string>) returns (n: nat)
    ensures n == Count(w, "|")
  {
    n := 0;
    var i := 0;
    while i < |w|
      invariant i <= |w| && n == Count(w[..i], "|")
    {
      assert w[..i + 1][..i] == w[..i];
      if w[i] == "|" {
        n := n + 1;
      }
      i := i + 1;
    }
    assert w[..i] == w;
  }

  /** The token view a stage's child is handed: its tokens and, after them,
      the token that follows (a `|`, or what follows the segment). */
  function View(w: seq<string>, after: Option<string>): (r: seq<Option<string>>)
    ensures |r| == |w| + 1 && r[|w|] == after
    ensures forall k :: 0 <= k < |w| ==> r[k] == Some(w[k])
  {
    seq(|w|, k requires 0 <= k < |w| => Some(w[k])) + [after]
  }

  // ---------------------------------------------------------------------
  // The argument vector of a lone stage

  /** The tokens with each redirection operator and the token after it
      dropped, as the single-stage branch builds `cmd_args`. */
  function ShellArgs(w: seq<string>, i: nat): seq<string>
    decreases |w| - i
  {
    if i >= |w| then []
    else if Process.IsRedirection(w[i]) then ShellArgs(w, i + 2)
    else [w[i]] + ShellArgs(w, i + 1)
  }

  /** Whether that scan met a redirection operator. */
  predicate HasRedirection(w: seq<string>, i: nat)
    decreases |w| - i
  {
    if i >= |w| then false
    else if Process.IsRedirection(w[i]) then true
    else HasRedirection(w, i + 1)
  }

  method ShellArgv(w: seq<string>) returns (argv: seq<string>, has: bool)
    ensures argv == ShellArgs(w, 0) && has == HasRedirection(w, 0)
  {
    argv, has := [], false;
    var i := 0;
    while i < |w|
      invariant ArgvUpTo(w, i, argv, has)
      decreases |w| - i
    {
      i, argv, has := ArgvStep(w, i, argv, has);
    }
    ArgvDone(w, i, argv, has);
  }

  /** The scan has read the tokens below `i`: `argv` holds what it kept
      and `has` whether it met a redirection. */
  predicate ArgvUpTo(w: seq<string>, i: nat, argv: seq<string>, has: bool) {
    && argv + ShellArgs(w, i) == ShellArgs(w, 0)
    && (has ==> HasRedirection(w, 0))
    && (has || HasRedirection(w, i) == HasRedirection(w, 0))
  }

  /** One pass of the scan: skip an operator and its file name, or keep
      the token. */
  method ArgvStep(w: seq<string>, i: nat, argv: seq<string>, has: bool)
    returns (next: nat, argv': seq<string>, has': bool)
    requires i < |w| && ArgvUpTo(w, i, argv, has)
    ensures i < next && ArgvUpTo(w, next, argv', has')
  {
    if Process.IsRedirection(w[i]) {
      assert ShellArgs(w, i) == ShellArgs(w, i + 2) && HasRedirection(w, i);
      next, argv', has' := i + 2, argv, true;
    } else {
      assert ShellArgs(w, i) == [w[i]] + ShellArgs(w, i + 1);
      assert HasRedirection(w, i) == HasRedirection(w, i + 1);
      AppendKept(argv, w[i], ShellArgs(w, i + 1));
      next, argv', has' := i + 1, argv + [w[i]], has;
    }
  }

  lemma AppendKept(argv: seq<string>, t: string, rest: seq<string>)
    ensures argv + ([t] + rest) == (argv + [t]) + rest
  {
  }

  lemma ArgvDone(w: seq<string>, i: nat, argv: seq<string>, has: bool)
    requires |w| <= i && ArgvUpTo(w, i, argv, has)
    ensures argv == ShellArgs(w, 0) && has == HasRedirection(w, 0)
  {
    assert ShellArgs(w, i) == [] && !HasRedirection(w, i);
  }

  /** The shell strips a lone stage exactly as its child would. */
  lemma {:induction false} ShellArgsMatchChild(w: seq<string>, after: Option<string>, i: nat)
    requires i <= |w| + 1
    ensures ShellArgs(w, i) == Process.Stripped(View(w, after), |w|, i)
    decreases |w| + 1 - i
  {
    if i < |w| {
      if Process.IsRedirection(w[i]) {
        ShellArgsMatchChild(w, after, i + 2);
      } else {
        ShellArgsMatchChild(w, after, i + 1);
      }
    }
  }

  /** A redirection is present exactly when some token is an operator (the
      first one always sits where an operator is looked for), and without
      one the argument vector is the whole stage. */
  lemma {:induction false} RedirectionPresent(w: seq<string>, i: nat)
    requires i <= |w|
    ensures HasRedirection(w, i) <==> exists k :: i <= k < |w| && Process.IsRedirection(w[k])
    ensures !HasRedirection(w, i) ==> ShellArgs(w, i) == w[i..]
    decreases |w| - i
  {
    if i < |w| && !Process.IsRedirection(w[i]) {
      RedirectionPresent(w, i + 1);
      assert w[i..] == [w[i]] + w[i + 1..];
    }
  }

  // ---------------------------------------------------------------------
  // Launching the stages

  /** What `fork` returned for a stage. */
  datatype Fork = Child(pid: Pid) | NoFork(errno: Errno)

  /** A pid as `fork` returns it to the parent: always positive (0 is what
      the child sees, and the child's side is `Process`). So the group of a
      pipeline, the first stage's pid, is never 0 and the `pgid != 0` tests
      after the loop always pass. */
  type Pid = p: int | p > 0 witness 1

  /** Where a stage's standard input comes from: the inherited descriptor
      or the read end of the pipe created for stage `pipe`. */
  datatype Source = InheritIn | PipeRead(pipe: nat)

  /** Where a stage's standard output goes. */
  datatype Sink = InheritOut | PipeWrite(pipe: nat)

  /** One forked stage: its pid and group, its tokens and its wiring. */
  datatype Launch = Launch(pid: int, pgid: int, span: Span, stdin: Source, stdout: Sink)

  /** Stage `k` of `n`: the pipe wiring and the group of the first stage. */
  function StageLaunch(spans: seq<Span>, forks: seq<Fork>, k: nat): Launch
    requires k < |spans| <= |forks| && forks[0].Child? && forks[k].Child?
  {
    Launch(forks[k].pid, forks[0].pid, spans[k],
           if k == 0 then InheritIn else PipeRead(k - 1),
           if k == |spans| - 1 then InheritOut else PipeWrite(k))
  }

  /** The first `m` stages launched. */
  function LaunchesUpTo(spans: seq<Span>, forks: seq<Fork>, m: nat): (r: seq<Launch>)
    requires m <= |spans| <= |forks| && forall k :: 0 <= k < m ==> forks[k].Child?
    ensures |r| == m
    ensures forall k :: 0 <= k < m ==> r[k] == StageLaunch(spans, forks, k)
  {
    if m == 0 then [] else LaunchesUpTo(spans, forks, m - 1) + [StageLaunch(spans, forks, m - 1)]
  }

  /** Whether stage `k` of `n` cannot start: its pipe or its fork fails. */
  predicate FailsAt(n: nat, forks: seq<Fork>, pipes: seq<Call>, k: nat)
    requires k < n <= |forks| && n <= |pipes|
  {
    (k < n - 1 && pipes[k].Failed?) || forks[k].NoFork?
  }

  /** The first stage from `k` on that cannot start, or `n`. */
  function FirstFailure(n: nat, forks: seq<Fork>, pipes: seq<Call>, k: nat): (m: nat)
    requires k <= n <= |forks| && n <= |pipes|
    ensures k <= m <= n
    ensures forall t :: k <= t < m ==> !FailsAt(n, forks, pipes, t) && forks[t].Child?
    ensures m < n ==> FailsAt(n, forks, pipes, m)
    decreases n - k
  {
    if k == n || FailsAt(n, forks, pipes, k) then k else FirstFailure(n, forks, pipes, k + 1)
  }

  /** What `perror` prints for the stage that cannot start. */
  function FailureLine(n: nat, forks: seq<Fork>, pipes: seq<Call>, m: nat): Line
    requires m < n <= |forks| && n <= |pipes| && FailsAt(n, forks, pipes, m)
  {
    if m < n - 1 && pipes[m].Failed? then Perror("pipe", pipes[m].errno) else Perror("fork", forks[m].errno)
  }

  /** The stage loop of `execute_pipeline`: each non-last stage gets a pipe,
      each stage a fork; the first pid is the group of all of them. A
      failing pipe or fork stops the loop. */
  method LaunchStages(w: seq<string>, forks: seq<Fork>, pipes: seq<Call>)
    returns (launched: seq<Launch>, failure: Option<Line>)
    requires |Stages(w)| <= |forks| && |Stages(w)| <= |pipes|
    ensures var n := |Stages(w)|; var m := FirstFailure(n, forks, pipes, 0);
      && launched == LaunchesUpTo(Stages(w), forks, m)
      && failure == (if m < n then Some(FailureLine(n, forks, pipes, m)) else None)
  {
    ghost var spans := Stages(w);
    var pipeCount := CountPipes(w);
    StagesCount(w, 0);
    assert w[0..] == w;
    var numCmds := pipeCount + 1;
    launched, failure := [], None;
    var start := 0;
    var pgid := 0;
    var i := 0;
    while i < numCmds
      invariant failure == None && LaunchedUpTo(w, forks, pipes, numCmds, i, start, pgid, launched)
      decreases numCmds - i
    {
      var ok;
      ok, failure, i, start, pgid, launched := LaunchStep(w, forks, pipes, numCmds, i, start, pgid, launched);
      if !ok {
        return;
      }
    }
    FirstFailureAt(numCmds, forks, pipes, i);
  }

  /** The stages below `i` are launched, none of them failed, `start` is
      where stage `i` begins, and `pgid` is the first stage's pid once there
      is one. */
  ghost predicate LaunchedUpTo(w: seq<string>, forks: seq<Fork>, pipes: seq<Call>, n: nat,
                               i: nat, start: nat, pgid: int, launched: seq<Launch>)
  {
    && n == |Stages(w)| <= |forks| && n <= |pipes| && i <= n
    && (i < n ==> start == Stages(w)[i].start)
    && (forall k :: 0 <= k < i ==> !FailsAt(n, forks, pipes, k) && forks[k].Child?)
    && launched == LaunchesUpTo(Stages(w), forks, i)
    && pgid == (if i > 0 then forks[0].pid else 0)
  }

  /** One pass of the stage loop: the pipe, the fork and the record of
      stage `i`, or the message of the first failure. */
  method LaunchStep(w: seq<string>, forks: seq<Fork>, pipes: seq<Call>, n: nat,
                    i: nat, start: nat, pgid: int, launched: seq<Launch>)
    returns (ok: bool, failure: Option<Line>, i': nat, start': nat, pgid': int, launched': seq<Launch>)
    requires i < n && LaunchedUpTo(w, forks, pipes, n, i, start, pgid, launched)
    ensures ok ==> failure == None && i' == i + 1 && LaunchedUpTo(w, forks, pipes, n, i', start', pgid', launched')
    ensures !ok ==> var m := FirstFailure(n, forks, pipes, 0);
      m < n && launched' == LaunchesUpTo(Stages(w), forks, m) && failure == Some(FailureLine(n, forks, pipes, m))
  {
    ghost var spans := Stages(w);
    StageIsRun(w, i);
    var end := NextPipe(w, start, spans[i]);
    var isLast := i == n - 1;
    if !isLast && pipes[i].Failed? {
      FirstFailureAt(n, forks, pipes, i);
      return false, Some(Perror("pipe", pipes[i].errno)), i, start, pgid, launched;
    }
    if forks[i].NoFork? {
      FirstFailureAt(n, forks, pipes, i);
      return false, Some(Perror("fork", forks[i].errno)), i, start, pgid, launched;
    }
    var pid := forks[i].pid;
    pgid' := if pgid == 0 then pid else pgid;
    var step := Launch(pid, pgid', Span(start, end),
                       if i == 0 then InheritIn else PipeRead(i - 1),
                       if isLast then InheritOut else PipeWrite(i));
    assert step == StageLaunch(spans, forks, i);
    ok, failure, i', start', launched' := true, None, i + 1, end + 1, launched + [step];
  }

  /** The first failing stage is `i` when none before it fails and `i`
      fails or is the end. */
  lemma FirstFailureAt(n: nat, forks: seq<Fork>, pipes: seq<Call>, i: nat)
    requires i <= n <= |forks| && n <= |pipes|
    requires forall k :: 0 <= k < i ==> !FailsAt(n, forks, pipes, k)
    requires i < n ==> FailsAt(n, forks, pipes, i)
    ensures FirstFailure(n, forks, pipes, 0) == i
  {
    var m := FirstFailure(n, forks, pipes, 0);
  }

  /** Stage `k` seen on its own: a run without `|` that ends at a `|` or
      at the end, and the next stage starts just after it. */
  lemma StageIsRun(w: seq<string>, k: nat)
    requires k < |Stages(w)|
    ensures IsRun(w, Stages(w)[k])
    ensures k + 1 < |Stages(w)| ==> Stages(w)[k + 1].start == Stages(w)[k].end + 1
  {
    StageRunFrom(w, 0, k);
  }

  /** The inner scan for the end of the stage starting at `start`. */
  method NextPipe(w: seq<string>, start: nat, ghost span: Span) returns (end: nat)
    requires span.start == start && IsRun(w, span)
    ensures end == span.end
  {
    end := start;
    while end < |w| && w[end] != "|"
      invariant start <= end <= span.end
    {
      end := end + 1;
    }
  }

  /** The wiring plan: the first stage keeps the inherited input and the
      last the inherited output; every other stage reads the pipe the stage
      before it writes, and every stage but the last writes its own pipe;
      all share the first stage's pid as their group. */
  lemma WiringPlan(spans: seq<Span>, forks: seq<Fork>, m: nat)
    requires 0 < m <= |spans| <= |forks| && forall k :: 0 <= k < m ==> forks[k].Child?
    ensures var r := LaunchesUpTo(spans, forks, m);
      && r[0].stdin == InheritIn
      && (m == |spans| ==> r[m - 1].stdout == InheritOut)
      && (forall k :: 0 < k < m ==> r[k].stdin == PipeRead(k - 1))
      && (forall k :: 0 <= k < m - 1 ==> r[k].stdout == PipeWrite(k))
      && (forall k :: 0 <= k < m ==> r[k].pgid == r[0].pid && r[k].span == spans[k])
  {
  }

  // ---------------------------------------------------------------------
  // Waiting for the foreground group

  /** What one `waitpid(-pgid, &status, WUNTRACED)` reported. */
  datatype Event = StopEvent | EndEvent | WaitErr(errno: Errno)

  /** Whether the wait loop ends on a stop, with `remaining` processes still
      to finish. A finite event sequence that runs out ends the wait like
      ECHILD does. */
  function GroupWaitStops(events: seq<Event>, remaining: nat): bool
    decreases |events|
  {
    if remaining == 0 || events == [] then false
    else match events[0]
      case StopEvent => true
      case EndEvent => GroupWaitStops(events[1..], remaining - 1)
      case WaitErr(e) => if e == ECHILD then false else GroupWaitStops(events[1..], remaining)
  }

  /** The wait ends on a stop exactly when a stop is reported before all
      the processes have ended and before any ECHILD. */
  lemma {:induction false} GroupWaitStopsWhen(events: seq<Event>, n: nat)
    ensures GroupWaitStops(events, n) <==>
      exists k :: 0 <= k < |events| && events[k] == StopEvent
        && Count(events[..k], EndEvent) < n && WaitErr(ECHILD) !in events[..k]
    decreases |events|
  {
    if GroupWaitStops(events, n) {
      GroupWaitStopsSound(events, n);
    }
    if exists k :: 0 <= k < |events| && events[k] == StopEvent
        && Count(events[..k], EndEvent) < n && WaitErr(ECHILD) !in events[..k] {
      GroupWaitStopsComplete(events, n);
    }
  }

  lemma {:induction false} GroupWaitStopsSound(events: seq<Event>, n: nat)
    requires GroupWaitStops(events, n)
    ensures exists k ::
      && 0 <= k < |events| && events[k] == StopEvent
      && Count(events[..k], EndEvent) < n && WaitErr(ECHILD) !in events[..k]
    decreases |events|
  {
    if events[0] == StopEvent {
      assert events[..0] == [];
    } else {
      var rest := events[1..];
      var m := if events[0] == EndEvent then n - 1 else n;
      GroupWaitStopsSound(rest, m);
      var k :| 0 <= k < |rest| && rest[k] == StopEvent
        && Count(rest[..k], EndEvent) < m && WaitErr(ECHILD) !in rest[..k];
      PrefixCons(events, k + 1);
      assert events[k + 1] == StopEvent;
    }
  }

  lemma {:induction false} GroupWaitStopsComplete(events: seq<Event>, n: nat)
    requires exists k ::
      && 0 <= k < |events| && events[k] == StopEvent
      && Count(events[..k], EndEvent) < n && WaitErr(ECHILD) !in events[..k]
    ensures GroupWaitStops(events, n)
    decreases |events|
  {
    var k :| 0 <= k < |events| && events[k] == StopEvent
      && Count(events[..k], EndEvent) < n && WaitErr(ECHILD) !in events[..k];
    if k > 0 && events[0] != StopEvent {
      var rest := events[1..];
      var m := if events[0] == EndEvent then n - 1 else n;
      PrefixCons(events, k);
      assert rest[k - 1] == StopEvent;
      GroupWaitStopsComplete(rest, m);
    }
  }

  /** A prefix of at least one event is the first event and a prefix of the
      rest. */
  lemma PrefixCons(events: seq<Event>, k: nat)
    requires 1 <= k <= |events|
    ensures events[..k] == [events[0]] + events[1..][..k - 1]
    ensures Count(events[..k], EndEvent) == (if events[0] == EndEvent then 1 else 0) + Count(events[1..][..k - 1], EndEvent)
    ensures WaitErr(ECHILD) in events[..k] <==> events[0] == WaitErr(ECHILD) || WaitErr(ECHILD) in events[1..][..k - 1]
  {
    assert events[..k] == [events[0]] + events[1..][..k - 1];
    CountAppend([events[0]], events[1..][..k - 1], EndEvent);
  }

  /** The foreground wait loop, counting `processes_to_wait_for` down. */
  method WaitForGroup(events: seq<Event>, n: nat) returns (stopped: bool)
    ensures stopped == GroupWaitStops(events, n)
  {
    var remaining := n;
    var k := 0;
    stopped := false;
    while remaining > 0 && k < |events|
      invariant k <= |events|
      invariant GroupWaitStops(events[k..], remaining) == GroupWaitStops(events, n)
    {
      assert events[k..][1..] == events[k + 1..];
      if events[k] == StopEvent {
        stopped := true;
        return;
      } else if events[k] == EndEvent {
        remaining := remaining - 1;
      } else if events[k].errno == ECHILD {
        return;
      }
      k := k + 1;
    }
  }

  // ---------------------------------------------------------------------
  // The whole segment

  /** Everything one `execute_pipeline` does: its return value, its output,
      the table afterwards, the values written to `foreground_pid`, the
      terminal hand-overs, the stages forked, and the builtin it ran in the
      shell itself. */
  datatype Outcome = Outcome(
    ret: int, out: seq<Line>, jobs: seq<Job>, next: int,
    writes: seq<int>, grants: seq<Terminal>, launched: seq<Launch>, inShell: Option<BuiltinCall>)

  /** The notice printed when the foreground group stops: the number of
      the most recent job, which is the one just added unless the table was
      already full. */
  function StoppedNotice(jobs: seq<Job>, name: string): Line
    requires jobs != []
  {
    Err("\n[" + Decimal(jobs[|jobs| - 1].number) + "] Stopped " + name + "\n")
  }

  /** After the launch of group `pgid`: register it as a running job, or
      hand it the terminal, wait, register it if it stopped, and take the
      terminal back. `giveFirst` is whether the first hand-over is made. */
  function Settle(jobs: seq<Job>, next: int, pgid: int, name: string, background: bool,
                  interactive: bool, giveFirst: bool, stopped: bool, launched: seq<Launch>): Outcome
  {
    if background then
      Outcome(pgid, AddNotice(jobs, next, pgid, Running, interactive),
              Added(jobs, next, pgid, Some(name), Running), NextAfterAdd(jobs, next), [], [], launched, None)
    else
      var grants := (if giveFirst then [GroupOwns(pgid)] else []) + (if interactive then [ShellOwns] else []);
      if stopped then
        var after := Added(jobs, next, pgid, Some(name), Stopped);
        assert after != [];
        Outcome(pgid, [StoppedNotice(after, name)], after, NextAfterAdd(jobs, next),
                [pgid, NoForeground], grants, launched, None)
      else
        Outcome(pgid, [], jobs, next, [pgid, NoForeground], grants, launched, None)
  }

  /** A segment without `|`. */
  function SingleSpec(w: seq<string>, background: bool, name: string, jobs: seq<Job>, next: int,
                      interactive: bool, fork: Fork, events: seq<Event>): Outcome
  {
    var argv := ShellArgs(w, 0);
    if argv != [] && GetBuiltinType(Some(argv[0])) == SpecialBuiltin then
      if HasRedirection(w, 0) then
        Outcome(0, [Err("shell: redirection is not supported for " + argv[0] + "\n")], jobs, next, [], [], [], None)
      else
        Outcome(0, [], jobs, next, [], [], [], Some(ExecuteBuiltin(argv)))
    else if fork.NoFork? then
      Outcome(-1, [Perror("fork", fork.errno)], jobs, next, [], [], [], None)
    else
      var pid := fork.pid;
      Settle(jobs, next, pid, name, background, interactive, interactive,
             events != [] && events[0] == StopEvent,
             [Launch(pid, pid, Span(0, |w|), InheritIn, InheritOut)])
  }

  /** A segment with at least one `|`. */
  function MultiSpec(w: seq<string>, background: bool, name: string, jobs: seq<Job>, next: int,
                     interactive: bool, forks: seq<Fork>, pipes: seq<Call>, events: seq<Event>): Outcome
    requires |Stages(w)| <= |forks| && |Stages(w)| <= |pipes|
  {
    var n := |Stages(w)|;
    var m := FirstFailure(n, forks, pipes, 0);
    var launched := LaunchesUpTo(Stages(w), forks, m);
    if m < n then
      Outcome(-1, [FailureLine(n, forks, pipes, m)], jobs, next, [], [], launched, None)
    else
      Settle(jobs, next, forks[0].pid, name, background, interactive, interactive,
             GroupWaitStops(events, n), launched)
  }

  function PipelineSpec(w: seq<string>, background: bool, name: string, jobs: seq<Job>, next: int,
                        interactive: bool, forks: seq<Fork>, pipes: seq<Call>, events: seq<Event>): Outcome
    requires |Stages(w)| <= |forks| && |Stages(w)| <= |pipes|
  {
    if |w| == 0 then Outcome(-1, [], jobs, next, [], [], [], None)
    else if Count(w, "|") == 0 then SingleSpec(w, background, name, jobs, next, interactive, forks[0], events)
    else MultiSpec(w, background, name, jobs, next, interactive, forks, pipes, events)
  }

  /** The table and handle updates after launching group `pgid`. */
  method SettleGroup(table: JobTable, fg: Foreground, pgid: int, name: string, background: bool,
                     interactive: bool, giveFirst: bool, stopped: bool, ghost launched: seq<Launch>)
    returns (out: seq<Line>)
    requires table.Valid() && (giveFirst ==> interactive)
    modifies table, table.slots, fg
    ensures table.Valid() && table.slots == old(table.slots)
    ensures var o := Settle(old(table.Jobs()), old(table.nextNumber), pgid, name, background, interactive, giveFirst, stopped, launched);
      && out == o.out && table.Jobs() == o.jobs && table.nextNumber == o.next
      && fg.writes == old(fg.writes) + o.writes && fg.grants == old(fg.grants) + o.grants
      && fg.pid == (if o.writes == [] then old(fg.pid) else NoForeground)
      && fg.terminal == (if o.grants == [] then old(fg.terminal) else ShellOwns)
  {
    if background {
      out := table.Add(pgid, Some(name), Running, interactive);
      return;
    }
    out := HoldForeground(table, fg, pgid, name, interactive, giveFirst, stopped);
  }

  /** The foreground branch: hand over the terminal, register a stopped
      group, take the terminal back and clear the foreground pid. */
  method HoldForeground(table: JobTable, fg: Foreground, pgid: int, name: string,
                        interactive: bool, giveFirst: bool, stopped: bool)
    returns (out: seq<Line>)
    requires table.Valid()
    modifies table, table.slots, fg
    ensures table.Valid() && table.slots == old(table.slots)
    ensures fg.writes == old(fg.writes) + [pgid, NoForeground] && fg.pid == NoForeground
    ensures fg.grants == old(fg.grants) + ((if giveFirst then [GroupOwns(pgid)] else []) + (if interactive then [ShellOwns] else []))
    ensures fg.terminal == (if interactive then ShellOwns else if giveFirst then GroupOwns(pgid) else old(fg.terminal))
    ensures stopped ==>
      && table.Jobs() == Added(old(table.Jobs()), old(table.nextNumber), pgid, Some(name), Stopped)
      && table.nextNumber == NextAfterAdd(old(table.Jobs()), old(table.nextNumber))
      && table.Jobs() != [] && out == [StoppedNotice(table.Jobs(), name)]
    ensures !stopped ==> table.Jobs() == old(table.Jobs()) && table.nextNumber == old(table.nextNumber) && out == []
  {
    ghost var w0, g0 := fg.writes, fg.grants;
    HandOver(fg, pgid, giveFirst);
    ghost var g1 := fg.grants;
    out := MaybeRegister(table, pgid, name, interactive, stopped);
    ghost var jobs1, next1 := table.Jobs(), table.nextNumber;
    TakeBack(fg, interactive);
    assert table.Jobs() == jobs1 && table.nextNumber == next1;
    assert (w0 + [pgid]) + [NoForeground] == w0 + [pgid, NoForeground];
  }

  /** The start of the foreground branch: `foreground_pid` becomes the
      group, and the terminal goes to the group when `giveFirst` holds. */
  method HandOver(fg: Foreground, pgid: int, giveFirst: bool)
    modifies fg
    ensures fg.writes == old(fg.writes) + [pgid] && fg.pid == pgid
    ensures fg.grants == old(fg.grants) + (if giveFirst then [GroupOwns(pgid)] else [])
    ensures fg.terminal == (if giveFirst then GroupOwns(pgid) else old(fg.terminal))
  {
    fg.SetPid(pgid);
    if giveFirst {
      fg.GiveTerminal(GroupOwns(pgid));
    }
  }

  /** The end of the foreground branch: the shell takes the terminal back
      when interactive, and the foreground pid is cleared. */
  method TakeBack(fg: Foreground, interactive: bool)
    modifies fg
    ensures fg.writes == old(fg.writes) + [NoForeground] && fg.pid == NoForeground
    ensures fg.grants == old(fg.grants) + (if interactive then [ShellOwns] else [])
    ensures fg.terminal == (if interactive then ShellOwns else old(fg.terminal))
  {
    if interactive {
      fg.GiveTerminal(ShellOwns);
    }
    fg.SetPid(NoForeground);
  }

  /** `if (stopped) { add_job(...); ... }` of the foreground branch. */
  method MaybeRegister(table: JobTable, pgid: int, name: string, interactive: bool, stopped: bool)
    returns (out: seq<Line>)
    requires table.Valid()
    modifies table, table.slots
    ensures table.Valid() && table.slots == old(table.slots)
    ensures stopped ==>
      && table.Jobs() == Added(old(table.Jobs()), old(table.nextNumber), pgid, Some(name), Stopped)
      && table.nextNumber == NextAfterAdd(old(table.Jobs()), old(table.nextNumber))
      && table.Jobs() != [] && out == [StoppedNotice(table.Jobs(), name)]
    ensures !stopped ==> table.Jobs() == old(table.Jobs()) && table.nextNumber == old(table.nextNumber) && out == []
  {
    out := [];
    if stopped {
      out := RegisterStopped(table, pgid, name, interactive);
    }
  }

  /** Add the stopped group and print the notice with the number of the
      most recent job. */
  method RegisterStopped(table: JobTable, pgid: int, name: string, interactive: bool) returns (out: seq<Line>)
    requires table.Valid()
    modifies table, table.slots
    ensures table.Valid() && table.slots == old(table.slots)
    ensures table.Jobs() == Added(old(table.Jobs()), old(table.nextNumber), pgid, Some(name), Stopped)
    ensures table.nextNumber == NextAfterAdd(old(table.Jobs()), old(table.nextNumber))
    ensures table.Jobs() != [] && out == [StoppedNotice(table.Jobs(), name)]
  {
    var _ := table.Add(pgid, Some(name), Stopped, interactive);
    var recent := table.FindMostRecent();
    var job := table.slots[recent.value];
    out := [Err("\n[" + Decimal(job.number) + "] Stopped " + name + "\n")];
  }

  /** `execute_pipeline` on segment tokens `w`. `forks`, `pipes` and
      `events` are what the system answers, stage by stage and wait by
      wait. */
  method ExecutePipeline(w: seq<string>, background: bool, name: string,
                         table: JobTable, fg: Foreground, interactive: bool,
                         forks: seq<Fork>, pipes: seq<Call>, events: seq<Event>)
    returns (r: int, out: seq<Line>, launched: seq<Launch>, inShell: Option<BuiltinCall>)
    requires table.Valid() && |Stages(w)| <= |forks| && |Stages(w)| <= |pipes|
    modifies table, table.slots, fg
    ensures table.Valid() && table.slots == old(table.slots)
    ensures var o := PipelineSpec(w, background, name, old(table.Jobs()), old(table.nextNumber), interactive, forks, pipes, events);
      && r == o.ret && out == o.out && launched == o.launched && inShell == o.inShell
      && table.Jobs() == o.jobs && table.nextNumber == o.next
      && fg.writes == old(fg.writes) + o.writes && fg.grants == old(fg.grants) + o.grants
      && fg.pid == (if o.writes == [] then old(fg.pid) else NoForeground)
      && fg.terminal == (if o.grants == [] then old(fg.terminal) else ShellOwns)
  {
    if |w| == 0 {
      return -1, [], [], None;
    }
    var pipeCount := CountPipes(w);
    if pipeCount == 0 {
      r, out, launched, inShell := ExecuteSingle(w, background, name, table, fg, interactive, forks[0], events);
      return;
    }
    r, out, launched := ExecuteMulti(w, background, name, table, fg, interactive, forks, pipes, events);
    inShell := None;
  }

  method ExecuteSingle(w: seq<string>, background: bool, name: string,
                       table: JobTable, fg: Foreground, interactive: bool, fork: Fork, events: seq<Event>)
    returns (r: int, out: seq<Line>, launched: seq<Launch>, inShell: Option<BuiltinCall>)
    requires table.Valid()
    modifies table, table.slots, fg
    ensures table.Valid() && table.slots == old(table.slots)
    ensures var o := SingleSpec(w, background, name, old(table.Jobs()), old(table.nextNumber), interactive, fork, events);
      && r == o.ret && out == o.out && launched == o.launched && inShell == o.inShell
      && table.Jobs() == o.jobs && table.nextNumber == o.next
      && fg.writes == old(fg.writes) + o.writes && fg.grants == old(fg.grants) + o.grants
      && fg.pid == (if o.writes == [] then old(fg.pid) else NoForeground)
      && fg.terminal == (if o.grants == [] then old(fg.terminal) else ShellOwns)
  {
    var argv, has := ShellArgv(w);
    if |argv| > 0 && GetBuiltinType(Some(argv[0])) == SpecialBuiltin {
      if has {
        return 0, [Err("shell: redirection is not supported for " + argv[0] + "\n")], [], None;
      }
      return 0, [], [], Some(ExecuteBuiltin(argv));
    }
    if fork.NoFork? {
      return -1, [Perror("fork", fork.errno)], [], None;
    }
    var pid := fork.pid;
    launched := [Launch(pid, pid, Span(0, |w|), InheritIn, InheritOut)];
    var stopped := !background && |events| > 0 && events[0] == StopEvent;
    SingleForked(w, background, name, old(table.Jobs()), old(table.nextNumber), interactive, fork, events);
    out := SettleGroup(table, fg, pid, name, background, interactive, interactive, stopped, launched);
    r, inShell := pid, None;
  }

  /** A forked lone stage settles as Settle says. */
  lemma SingleForked(w: seq<string>, background: bool, name: string, jobs: seq<Job>, next: int,
                     interactive: bool, fork: Fork, events: seq<Event>)
    requires fork.Child? && !(ShellArgs(w, 0) != [] && GetBuiltinType(Some(ShellArgs(w, 0)[0])) == SpecialBuiltin)
    ensures SingleSpec(w, background, name, jobs, next, interactive, fork, events) ==
      Settle(jobs, next, fork.pid, name, background, interactive, interactive,
             !background && |events| > 0 && events[0] == StopEvent,
             [Launch(fork.pid, fork.pid, Span(0, |w|), InheritIn, InheritOut)])
  {
  }

  method ExecuteMulti(w: seq<string>, background: bool, name: string,
                      table: JobTable, fg: Foreground, interactive: bool,
                      forks: seq<Fork>, pipes: seq<Call>, events: seq<Event>)
    returns (r: int, out: seq<Line>, launched: seq<Launch>)
    requires table.Valid() && |Stages(w)| <= |forks| && |Stages(w)| <= |pipes|
    modifies table, table.slots, fg
    ensures table.Valid() && table.slots == old(table.slots)
    ensures var o := MultiSpec(w, background, name, old(table.Jobs()), old(table.nextNumber), interactive, forks, pipes, events);
      && r == o.ret && out == o.out && launched == o.launched && o.inShell == None
      && table.Jobs() == o.jobs && table.nextNumber == o.next
      && fg.writes == old(fg.writes) + o.writes && fg.grants == old(fg.grants) + o.grants
      && fg.pid == (if o.writes == [] then old(fg.pid) else NoForeground)
      && fg.terminal == (if o.grants == [] then old(fg.terminal) else ShellOwns)
  {
    var failure;
    launched, failure := LaunchStages(w, forks, pipes);
    if failure.Some? {
      return -1, [failure.value], launched;
    }
    MultiLaunched(w, background, name, old(table.Jobs()), old(table.nextNumber), interactive, forks, pipes, events);
    var pgid := launched[0].pgid;
    var stopped := false;
    if !background {
      stopped := WaitForGroup(events, |launched|);
    }
    out := SettleGroup(table, fg, pgid, name, background, interactive, interactive, stopped, launched);
    r := pgid;
  }

  /** Once every stage of a pipeline is launched, the group is the first
      stage's pid and the segment settles as Settle says. */
  lemma MultiLaunched(w: seq<string>, background: bool, name: string, jobs: seq<Job>, next: int,
                      interactive: bool, forks: seq<Fork>, pipes: seq<Call>, events: seq<Event>)
    requires |Stages(w)| <= |forks| && |Stages(w)| <= |pipes|
    requires FirstFailure(|Stages(w)|, forks, pipes, 0) >= |Stages(w)|
    ensures var n := |Stages(w)|;
      var launched := LaunchesUpTo(Stages(w), forks, FirstFailure(n, forks, pipes, 0));
      var pgid := forks[0].pid;
      var o := MultiSpec(w, background, name, jobs, next, interactive, forks, pipes, events);
      var settled := Settle(jobs, next, pgid, name, background, interactive, interactive,
                            !background && GroupWaitStops(events, n), launched);
      && |launched| == n && launched[0].pgid == pgid && pgid > 0
      && o == settled
  {
  }

  // ---------------------------------------------------------------------
  // Properties of a segment's run

  /** No tokens: -1 and nothing else. */
  lemma EmptySegment(background: bool, name: string, jobs: seq<Job>, next: int, interactive: bool,
                     forks: seq<Fork>, pipes: seq<Call>, events: seq<Event>)
    requires 1 <= |forks| && 1 <= |pipes|
    ensures PipelineSpec([], background, name, jobs, next, interactive, forks, pipes, events)
         == Outcome(-1, [], jobs, next, [], [], [], None)
  {
  }

  /** A lone special builtin runs in the shell and returns 0; no job is
      created and nothing is forked; with a redirection it is refused. */
  lemma SpecialBuiltinInShell(w: seq<string>, background: bool, name: string, jobs: seq<Job>, next: int,
                              interactive: bool, forks: seq<Fork>, pipes: seq<Call>, events: seq<Event>)
    requires |Stages(w)| <= |forks| && |Stages(w)| <= |pipes|
    requires "|" !in w && ShellArgs(w, 0) != [] && IsSpecialName(ShellArgs(w, 0)[0])
    ensures var o := PipelineSpec(w, background, name, jobs, next, interactive, forks, pipes, events);
      && o.ret == 0 && o.jobs == jobs && o.next == next && o.launched == [] && o.writes == []
      && (o.inShell.Some? <==> !exists k :: 0 <= k < |w| && Process.IsRedirection(w[k]))
      && (o.inShell.Some? ==> o.inShell == Some(ExecuteBuiltin(w)))
  {
    RedirectionPresent(w, 0);
    assert w != [];
    CountZero(w, "|");
    assert w[0..] == w;
  }

  /** A launched background group becomes one running job keyed by its
      group, appended to the table, and nothing waits for it. */
  lemma BackgroundRegisters(w: seq<string>, name: string, jobs: seq<Job>, next: int,
                            interactive: bool, forks: seq<Fork>, pipes: seq<Call>, events: seq<Event>)
    requires |Stages(w)| <= |forks| && |Stages(w)| <= |pipes|
    requires |jobs| < Capacity && forall k :: 0 <= k < |forks| ==> forks[k].Child?
    requires forall k :: 0 <= k < |pipes| ==> pipes[k].Succeeded?
    requires w != [] && (Count(w, "|") == 0 ==> ShellArgs(w, 0) == [] || !IsSpecialName(ShellArgs(w, 0)[0]))
    ensures var o := PipelineSpec(w, true, name, jobs, next, interactive, forks, pipes, events);
      && o.ret == forks[0].pid
      && o.jobs == jobs + [Job(next, forks[0].pid, StoredName(Some(name)), Running)]
      && o.writes == [] && o.grants == []
      && o.launched == LaunchesUpTo(Stages(w), forks, |Stages(w)|)
  {
    var n := |Stages(w)|;
    StagesCount(w, 0);
    assert w[0..] == w;
    if Count(w, "|") != 0 {
      assert FirstFailure(n, forks, pipes, 0) == n;
    }
  }

  /** In the foreground, `foreground_pid` holds the group during the wait
      and -1 afterwards; a job is added only when the group stopped, and it
      is a stopped job for that group. */
  lemma ForegroundWait(w: seq<string>, name: string, jobs: seq<Job>, next: int,
                       interactive: bool, forks: seq<Fork>, pipes: seq<Call>, events: seq<Event>)
    requires |Stages(w)| <= |forks| && |Stages(w)| <= |pipes|
    ensures var o := PipelineSpec(w, false, name, jobs, next, interactive, forks, pipes, events);
      && (o.writes == [] || o.writes == [o.ret, NoForeground])
      && (o.jobs == jobs || (|jobs| < Capacity && o.jobs == jobs + [Job(next, o.ret, StoredName(Some(name)), Stopped)]))
      && (o.grants == [] || o.grants[|o.grants| - 1] == ShellOwns)
  {
    if |w| != 0 {
      if Count(w, "|") == 0 {
        var fork := forks[0];
        if fork.Child? {
          SettleForeground(jobs, next, fork.pid, name, interactive, interactive,
                           events != [] && events[0] == StopEvent,
                           [Launch(fork.pid, fork.pid, Span(0, |w|), InheritIn, InheritOut)]);
        }
      } else {
        var n := |Stages(w)|;
        var m := FirstFailure(n, forks, pipes, 0);
        if m >= n {
          SettleForeground(jobs, next, forks[0].pid, name, interactive, interactive,
                           GroupWaitStops(events, n), LaunchesUpTo(Stages(w), forks, m));
        }
      }
    }
  }

  /** The foreground half of `Settle`. */
  lemma SettleForeground(jobs: seq<Job>, next: int, pgid: int, name: string, interactive: bool,
                         giveFirst: bool, stopped: bool, launched: seq<Launch>)
    requires giveFirst ==> interactive
    ensures var o := Settle(jobs, next, pgid, name, false, interactive, giveFirst, stopped, launched);
      && o.ret == pgid && o.writes == [pgid, NoForeground]
      && (o.jobs == jobs || (|jobs| < Capacity && o.jobs == jobs + [Job(next, pgid, StoredName(Some(name)), Stopped)]))
      && (o.grants == [] || o.grants[|o.grants| - 1] == ShellOwns)
  {
  }
}
