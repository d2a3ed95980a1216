/** What a forked child does before it becomes the command: it strips the
    redirections out of its tokens, opens the files they name, wires its
    standard input and output, and then runs a builtin, executes the
    program, or exits with a status that says why it could not. */
module Process {
  import opened Text
  import opened Builtins

  /** Where the child's standard input comes from. */
  datatype Input = InheritedIn | FromFile(path: string) | NullDevice

  /** Where the child's standard output goes. */
  datatype Output = InheritedOut | Truncate(path: string) | Append(path: string)

  /** How the file a redirection names is opened. */
  datatype OpenMode = ForReading | ForTruncating | ForAppending

  predicate IsRedirection(t: string) {
    t == "<" || t == ">" || t == ">>"
  }

  function ModeOf(op: string): OpenMode {
    if op == "<" then ForReading else if op == ">" then ForTruncating else ForAppending
  }

  /** The redirection scan of a stage: the arguments left, the last input
      and output redirection, and every file opened for writing (each is
      created, and truncated for `>`, even if a later one wins); or the
      message and status 1 of the first redirection that fails, with the
      files the redirections before it had already opened for writing. */
  datatype Plan =
    | Plan(args: seq<string>, input: Input, output: Output, written: seq<Output>)
    | Abort(line: Line, written: seq<Output>)

  function SyntaxError(op: string): Line {
    Err("Syntax error near `" + op + "`\n")
  }

  function OpenError(op: string): Line {
    if op == "<" then Out("No such file or directory\n") else Out("Unable to create file for writing\n")
  }

  function Target(op: string, path: string): Output {
    if op == ">" then Truncate(path) else Append(path)
  }

  /** The scan from position `i` of the stage's `count` tokens; the view has
      one more element, the one after the stage, which an operator in last
      position takes as its operand. Stated from the right, so the
      redirection that comes later overrides. */
  function PlanFrom(ts: seq<Option<string>>, count: nat, i: nat, canOpen: (string, OpenMode) -> bool): (r: Plan)
    requires count < |ts| && i <= count + 1
    ensures r.Plan? ==> |r.args| <= count + 1 - i && r.input != NullDevice
    decreases count + 1 - i
  {
    if i >= count || ts[i].None? then Plan([], InheritedIn, InheritedOut, [])
    else
      var t := ts[i].value;
      if !IsRedirection(t) then
        match PlanFrom(ts, count, i + 1, canOpen)
        case Abort(l, w) => Abort(l, w)
        case Plan(a, inp, out, w) => Plan([t] + a, inp, out, w)
      else if ts[i + 1].None? then Abort(SyntaxError(t), [])
      else
        var path := ts[i + 1].value;
        if !canOpen(path, ModeOf(t)) then Abort(OpenError(t), [])
        else
          match PlanFrom(ts, count, i + 2, canOpen)
          case Abort(l, w) => Abort(l, if t == "<" then w else [Target(t, path)] + w)
          case Plan(a, inp, out, w) =>
            if t == "<" then Plan(a, if inp == InheritedIn then FromFile(path) else inp, out, w)
            else Plan(a, inp, if out == InheritedOut then Target(t, path) else out, [Target(t, path)] + w)
  }

  /** The scan state after the tokens before position `i` (`acc`) followed
      by the scan of the rest. */
  function Then(acc: Plan, rest: Plan): Plan
    requires acc.Plan?
  {
    match rest
    case Abort(l, w) => Abort(l, acc.written + w)
    case Plan(a, inp, out, w) =>
      Plan(acc.args + a,
           if inp == InheritedIn then acc.input else inp,
           if out == InheritedOut then acc.output else out,
           acc.written + w)
  }

  /** How the child ends. */
  datatype Action =
    | RunBuiltin(argv: seq<string>)   // execute_builtin, then status 0
    | NoJobControl(line: Line)        // status 1
    | Exec(argv: seq<string>)         // the program replaces the child
    | NotFound(line: Line)            // status 127
    | NothingToRun                    // status 127, silently

  datatype ChildRun =
    | Aborted(line: Line, written: seq<Output>)  // status 1, before any wiring
    | Wired(input: Input, output: Output, written: seq<Output>, action: Action)

  /** The status the child exits with; `None` once the program has replaced it. */
  function ExitStatus(r: ChildRun): Option<int> {
    match r
    case Aborted(_, _) => Some(1)
    case Wired(_, _, _, a) =>
      match a
      case RunBuiltin(_) => Some(0)
      case NoJobControl(_) => Some(1)
      case Exec(_) => None
      case NotFound(_) => Some(127)
      case NothingToRun => Some(127)
  }

  /** The decisions after the scan: background stages without an input
      redirection read the null device (when it opens); a builtin runs in
      the child, except `fg`/`bg`, which need the shell's job table. */
  function Launch(p: Plan, background: bool, nullOpens: bool, execOk: bool): (r: ChildRun) {
    match p
    case Abort(l, w) => Aborted(l, w)
    case Plan(args, inp, out, w) =>
      var stdin := if background && inp == InheritedIn && nullOpens then NullDevice else inp;
      var action :=
        if args != [] && GetBuiltinType(Some(args[0])) != NotBuiltin then
          if args[0] == "fg" || args[0] == "bg" then NoJobControl(Err(args[0] + ": no job control\n"))
          else RunBuiltin(args)
        else if args != [] then
          if execOk then Exec(args) else NotFound(Err("Command not found!\n"))
        else NothingToRun;
      Wired(stdin, out, w, action)
  }

  /** One turn of the redirection loop at a redirection operator: the
      operand is read from the next slot, the file opened, and the matching
      descriptor replaced. */
  method Redirect(ts: seq<Option<string>>, count: nat, i: nat, canOpen: (string, OpenMode) -> bool,
                  acc: Plan) returns (next: Plan, j: nat)
    requires count < |ts| && i < count && ts[i].Some? && IsRedirection(ts[i].value) && acc.Plan?
    ensures j == i + 2 && (next.Plan? ==> next.args == acc.args)
    ensures Then(acc, PlanFrom(ts, count, i, canOpen)) == if next.Abort? then next else Then(next, PlanFrom(ts, count, j, canOpen))
  {
    var t := ts[i].value;
    j := i + 2;
    if ts[i + 1].None? {
      return Abort(SyntaxError(t), acc.written), j;
    }
    var path := ts[i + 1].value;
    if !canOpen(path, ModeOf(t)) {
      return Abort(OpenError(t), acc.written), j;
    }
    if t == "<" {
      next := acc.(input := FromFile(path));
    } else {
      next := acc.(output := Target(t, path), written := acc.written + [Target(t, path)]);
    }
  }

  /** The loop of `run_command_in_child` that fills the argument vector and
      the two descriptors; stops at `count` or at the first NULL. */
  method ScanRedirections(ts: seq<Option<string>>, count: nat, canOpen: (string, OpenMode) -> bool)
    returns (p: Plan)
    requires count < |ts|
    ensures p == PlanFrom(ts, count, 0, canOpen)
  {
    var acc := Plan([], InheritedIn, InheritedOut, []);
    var i := 0;
    while i < count && ts[i].Some?
      invariant i <= count + 1 && acc.Plan?
      invariant Then(acc, PlanFrom(ts, count, i, canOpen)) == PlanFrom(ts, count, 0, canOpen)
      decreases count + 1 - i
    {
      var t := ts[i].value;
      if IsRedirection(t) {
        var next, j := Redirect(ts, count, i, canOpen, acc);
        if next.Abort? {
          return next;
        }
        acc, i := next, j;
      } else {
        WordStep(ts, count, i, canOpen, acc);
        acc := acc.(args := acc.args + [t]);
        i := i + 1;
      }
    }
    p := acc;
  }

  lemma WordStep(ts: seq<Option<string>>, count: nat, i: nat, canOpen: (string, OpenMode) -> bool, acc: Plan)
    requires count < |ts| && i < count && ts[i].Some? && !IsRedirection(ts[i].value) && acc.Plan?
    ensures Then(acc, PlanFrom(ts, count, i, canOpen)) == Then(acc.(args := acc.args + [ts[i].value]), PlanFrom(ts, count, i + 1, canOpen))
  {
    match PlanFrom(ts, count, i + 1, canOpen)
    case Abort(_, _) =>
    case Plan(a, _, _, _) =>
      assert acc.args + ([ts[i].value] + a) == (acc.args + [ts[i].value]) + a;
  }

  /** `run_command_in_child`. `canOpen` says which `open` calls succeed,
      `nullOpens` whether the null device opens and `execOk` whether
      `execvp` finds the program. */
  method RunCommandInChild(ts: seq<Option<string>>, count: nat, background: bool,
                           canOpen: (string, OpenMode) -> bool, nullOpens: bool, execOk: bool)
    returns (r: ChildRun)
    requires count < |ts|
    ensures r == Launch(PlanFrom(ts, count, 0, canOpen), background, nullOpens, execOk)
  {
    var p := ScanRedirections(ts, count, canOpen);
    if p.Abort? {
      return Aborted(p.line, p.written);
    }
    var stdin := p.input;
    if background && p.input == InheritedIn && nullOpens {
      stdin := NullDevice;
    }
    var args := p.args;
    if |args| > 0 && GetBuiltinType(Some(args[0])) != NotBuiltin {
      if args[0] == "fg" || args[0] == "bg" {
        return Wired(stdin, p.output, p.written, NoJobControl(Err(args[0] + ": no job control\n")));
      }
      return Wired(stdin, p.output, p.written, RunBuiltin(args));
    }
    if |args| > 0 {
      if execOk {
        return Wired(stdin, p.output, p.written, Exec(args));
      }
      return Wired(stdin, p.output, p.written, NotFound(Err("Command not found!\n")));
    }
    return Wired(stdin, p.output, p.written, NothingToRun);
  }

  // ---------------------------------------------------------------------
  // Properties of the child's plan.

  /** The argument vector is the stage's tokens in order with each
      redirection operator and its operand removed: it holds no operator,
      and its tokens are those before the first NULL that are neither an
      operator nor an operand. */
  lemma {:induction false} ArgsAreStripped(ts: seq<Option<string>>, count: nat, i: nat, canOpen: (string, OpenMode) -> bool)
    requires count < |ts| && i <= count + 1
    requires PlanFrom(ts, count, i, canOpen).Plan?
    ensures forall a <- PlanFrom(ts, count, i, canOpen).args :: !IsRedirection(a)
    ensures PlanFrom(ts, count, i, canOpen).args == Stripped(ts, count, i)
    decreases count + 1 - i
  {
    if i < count && ts[i].Some? {
      if !IsRedirection(ts[i].value) {
        ArgsAreStripped(ts, count, i + 1, canOpen);
      } else {
        ArgsAreStripped(ts, count, i + 2, canOpen);
      }
    }
  }

  /** The argument vector by itself, independent of whether files open. */
  function Stripped(ts: seq<Option<string>>, count: nat, i: nat): seq<string>
    requires count < |ts| && i <= count + 1
    decreases count + 1 - i
  {
    if i >= count || ts[i].None? then []
    else if IsRedirection(ts[i].value) then Stripped(ts, count, i + 2)
    else [ts[i].value] + Stripped(ts, count, i + 1)
  }

  /** The output redirection that takes effect is the last: when stdout is
      redirected, some operator at position `k` names it and the scan after
      `k`'s operand redirects nothing. */
  lemma {:induction false} LastOutputWins(ts: seq<Option<string>>, count: nat, i: nat, canOpen: (string, OpenMode) -> bool)
    requires count < |ts| && i <= count + 1
    requires PlanFrom(ts, count, i, canOpen).Plan? && PlanFrom(ts, count, i, canOpen).output != InheritedOut
    ensures exists k :: (i <= k < count && ts[k].Some? && ts[k + 1].Some?
      && (ts[k].value == ">" || ts[k].value == ">>")
      && PlanFrom(ts, count, i, canOpen).output == Target(ts[k].value, ts[k + 1].value)
      && PlanFrom(ts, count, k + 2, canOpen).Plan?
      && PlanFrom(ts, count, k + 2, canOpen).output == InheritedOut)
    decreases count + 1 - i
  {
    var t := ts[i].value;
    if !IsRedirection(t) {
      LastOutputWins(ts, count, i + 1, canOpen);
    } else {
      var rest := PlanFrom(ts, count, i + 2, canOpen);
      if rest.output != InheritedOut {
        LastOutputWins(ts, count, i + 2, canOpen);
      } else {
        assert t != "<";
      }
    }
  }

  /** `>` opens its file for truncation and `>>` for appending; every file
      opened for writing is recorded, in order, whichever wins, and whether
      or not a later redirection makes the scan give up. */
  lemma {:induction false} WrittenFiles(ts: seq<Option<string>>, count: nat, i: nat, canOpen: (string, OpenMode) -> bool)
    requires count < |ts| && i <= count + 1
    ensures forall w <- PlanFrom(ts, count, i, canOpen).written :: w != InheritedOut && canOpen(w.path, if w.Truncate? then ForTruncating else ForAppending)
    ensures PlanFrom(ts, count, i, canOpen).Plan? ==>
      (PlanFrom(ts, count, i, canOpen).output == InheritedOut <==> PlanFrom(ts, count, i, canOpen).written == [])
    decreases count + 1 - i
  {
    if i < count && ts[i].Some? {
      if !IsRedirection(ts[i].value) {
        WrittenFiles(ts, count, i + 1, canOpen);
      } else {
        WrittenFiles(ts, count, i + 2, canOpen);
      }
    }
  }

  /** The scan from `i` gives up at the redirection operator at `k`: with the
      syntax message when no token follows it, with the `open` message when
      its file cannot be opened in that operator's mode; the files left
      opened for writing are exactly those of the scan stopped at `k`. */
  ghost predicate AbortsAt(ts: seq<Option<string>>, count: nat, i: nat, canOpen: (string, OpenMode) -> bool, k: nat)
    requires count < |ts| && i <= count + 1
  {
    && i <= k < count && ts[k].Some? && IsRedirection(ts[k].value)
    && PlanFrom(ts, count, i, canOpen).Abort?
    && ((ts[k + 1].None? && PlanFrom(ts, count, i, canOpen).line == SyntaxError(ts[k].value))
        || (ts[k + 1].Some? && !canOpen(ts[k + 1].value, ModeOf(ts[k].value))
            && PlanFrom(ts, count, i, canOpen).line == OpenError(ts[k].value)))
    && PlanFrom(ts, k, i, canOpen).Plan?
    && PlanFrom(ts, count, i, canOpen).written == PlanFrom(ts, k, i, canOpen).written
  }

  /** The scan gives up only at a redirection operator, as AbortsAt says. */
  lemma {:induction false} AbortCause(ts: seq<Option<string>>, count: nat, i: nat, canOpen: (string, OpenMode) -> bool)
    requires count < |ts| && i <= count + 1
    requires PlanFrom(ts, count, i, canOpen).Abort?
    ensures exists k :: AbortsAt(ts, count, i, canOpen, k)
    decreases count + 1 - i
  {
    var t := ts[i].value;
    if !IsRedirection(t) {
      AbortCause(ts, count, i + 1, canOpen);
      var k :| AbortsAt(ts, count, i + 1, canOpen, k);
      assert AbortsAt(ts, count, i, canOpen, k);
    } else if ts[i + 1].Some? && canOpen(ts[i + 1].value, ModeOf(t)) {
      AbortCause(ts, count, i + 2, canOpen);
      var k :| AbortsAt(ts, count, i + 2, canOpen, k);
      assert AbortsAt(ts, count, i, canOpen, k);
    } else {
      assert AbortsAt(ts, count, i, canOpen, i);
    }
  }

  /** `cmd > out < missing`: `out` is created and truncated before the
      input file fails to open, and the child exits with status 1 leaving
      it that way. */
  lemma AbortKeepsEarlierOutput()
    ensures var ts := [Some("cmd"), Some(">"), Some("out"), Some("<"), Some("missing"), None];
      var r := Launch(PlanFrom(ts, 5, 0, (path: string, m: OpenMode) => path != "missing"), false, true, true);
      r == Aborted(Out("No such file or directory\n"), [Truncate("out")]) && ExitStatus(r) == Some(1)
  {
  }

  /** The child's exit status: 1 for a failed redirection or `fg`/`bg`, 0
      after any other builtin, 127 when there is nothing to run or the
      program is not found, and no status once the program runs. */
  lemma ExitStatuses(p: Plan, background: bool, nullOpens: bool, execOk: bool)
    ensures var r := Launch(p, background, nullOpens, execOk);
      && (ExitStatus(r) == Some(1) <==> p.Abort? || (p.args != [] && (p.args[0] == "fg" || p.args[0] == "bg")))
      && (ExitStatus(r) == Some(0) <==> p.Plan? && p.args != [] && GetBuiltinType(Some(p.args[0])) != NotBuiltin && p.args[0] != "fg" && p.args[0] != "bg")
      && (ExitStatus(r) == Some(127) <==> p.Plan? && (p.args == [] || (GetBuiltinType(Some(p.args[0])) == NotBuiltin && !execOk)))
      && (ExitStatus(r) == None <==> p.Plan? && p.args != [] && GetBuiltinType(Some(p.args[0])) == NotBuiltin && execOk)
  {
  }

  /** Only standard input is redirected to the null device, only for a
      background stage, and only when no `<` gave it a file. */
  lemma BackgroundInput(ts: seq<Option<string>>, count: nat, canOpen: (string, OpenMode) -> bool, background: bool, execOk: bool)
    requires count < |ts| && PlanFrom(ts, count, 0, canOpen).Plan?
    ensures var p := PlanFrom(ts, count, 0, canOpen);
      var r := Launch(p, background, true, execOk);
      && r.output == p.output
      && (r.input == NullDevice <==> background && p.input == InheritedIn)
      && (p.input != InheritedIn ==> r.input == p.input)
  {
  }
}
