/** `fg` and `bg`: pick a job by number or the most recent one, and bring
    it to the foreground (handing it the terminal and waiting for it) or let
    a stopped job run on in the background. */
module JobControl {
  import opened Text
  import opened Jobs
  import opened Session

  /** The job the command names: `argv[1]` read by `atoi` when there are
      exactly two words, the most recent job otherwise. */
  function Selected(jobs: seq<Job>, argv: seq<string>): (r: Option<nat>)
    ensures r.Some? ==> r.value < |jobs|
    ensures |argv| != 2 ==> r == MostRecent(jobs)
  {
    if |argv| == 2 then IndexOfNumber(jobs, Atoi(argv[1])) else MostRecent(jobs)
  }

  /** Typing back the number the shell printed for a job selects that job. */
  lemma SelectedByPrintedNumber(jobs: seq<Job>, next: int, k: nat, cmd: string)
    requires WellFormed(jobs, next) && k < |jobs|
    ensures Selected(jobs, [cmd, Decimal(jobs[k].number)]) == Some(k)
  {
    DecimalRoundTrip(jobs[k].number);
    IndexOfNumberUnique(jobs, next, jobs[k].number, k);
  }

  // ---------------------------------------------------------------------
  // fg

  /** What the blocking `waitpid(-pgid, &status, WUNTRACED)` returned. */
  datatype FgWait = Reported(status: Status) | WaitError(errno: Errno)

  /** Everything one `fg` does: the table afterwards, the output, the values
      written to `foreground_pid`, the terminal hand-overs that took effect,
      and whether SIGCONT was delivered. */
  datatype FgOutcome = FgOutcome(
    jobs: seq<Job>, out: seq<Line>, writes: seq<int>, grants: seq<Terminal>, continued: bool)

  /** The table and notice after the wait on the job at `i` returned. */
  function AfterForegroundWait(jobs: seq<Job>, i: nat, wait: FgWait): (seq<Job>, seq<Line>)
    requires i < |jobs|
  {
    var job := jobs[i];
    match wait
    case Reported(StoppedBySignal) =>
      (jobs[i := job.(state := Stopped)], [Err("\n[" + Decimal(job.number) + "] Stopped " + job.name + "\n")])
    case Reported(Signaled) => (WithoutPgid(jobs, job.pgid), [Out("\n")])
    case Reported(Exited(_)) => (WithoutPgid(jobs, job.pgid), [])
    case Reported(Continued) => (jobs, [])
    case WaitError(e) => (if e == ECHILD then WithoutPgid(jobs, job.pgid) else jobs, [])
  }

  /** `fg_command` once it has found the job at `i`, given the outcomes of
      `tcsetpgrp` handing the terminal to the job, of `kill(-pgid,
      SIGCONT)`, and of the wait. */
  function FgOnJob(jobs: seq<Job>, i: nat, tcset: Call, cont: Call, wait: FgWait): FgOutcome
    requires i < |jobs|
  {
    var job := jobs[i];
    var shown := [Out(job.name + "\n")];
    if tcset.Failed? then
      FgOutcome(jobs, shown + [Perror("tcsetpgrp failed", tcset.errno)], [job.pgid, NoForeground], [], false)
    else if job.state.Stopped? && cont.Failed? then
      FgOutcome(jobs, shown + [Perror("kill failed", cont.errno)], [job.pgid, NoForeground],
                [GroupOwns(job.pgid), ShellOwns], false)
    else
      var (after, notice) := AfterForegroundWait(jobs, i, wait);
      FgOutcome(after, shown + notice, [job.pgid, NoForeground],
                [GroupOwns(job.pgid), ShellOwns], job.state.Stopped?)
  }

  /** `fg_command`: the argument checks, then the selected job. */
  function FgSpec(jobs: seq<Job>, argv: seq<string>, tcset: Call, cont: Call, wait: FgWait): FgOutcome {
    if |argv| > 2 then FgOutcome(jobs, [Err("Syntax: fg [job_number]\n")], [], [], false)
    else match Selected(jobs, argv)
      case None => FgOutcome(jobs, [Err("No such job\n")], [], [], false)
      case Some(i) => FgOnJob(jobs, i, tcset, cont, wait)
  }

  /** Whatever happens, `fg` leaves the shell in the foreground: a command
      that selected a job set `foreground_pid` to its group and then back to
      -1, and the terminal, if it was handed over, came back to the shell;
      one that did not select a job touched neither. */
  lemma FgRestoresForeground(jobs: seq<Job>, argv: seq<string>, tcset: Call, cont: Call, wait: FgWait)
    ensures var o := FgSpec(jobs, argv, tcset, cont, wait);
      && (|argv| <= 2 && Selected(jobs, argv).Some? ==>
            o.writes == [jobs[Selected(jobs, argv).value].pgid, NoForeground])
      && (|argv| > 2 || Selected(jobs, argv).None? ==> o.writes == [] && o.grants == [] && o.jobs == jobs)
      && (o.grants == [] || o.grants == [GroupOwns(o.writes[0]), ShellOwns])
      && (o.grants == [] ==> o.jobs == jobs && !o.continued)
  {
  }

  /** SIGCONT goes only to a job that was stopped. */
  lemma FgContinuesOnlyStopped(jobs: seq<Job>, argv: seq<string>, tcset: Call, cont: Call, wait: FgWait)
    ensures var o := FgSpec(jobs, argv, tcset, cont, wait);
      o.continued <==>
        |argv| <= 2 && Selected(jobs, argv).Some? && jobs[Selected(jobs, argv).value].state.Stopped? &&
        tcset.Succeeded? && cont.Succeeded?
  {
  }

  /** `fg` keeps the table's invariant. */
  lemma FgWellFormed(jobs: seq<Job>, next: int, argv: seq<string>, tcset: Call, cont: Call, wait: FgWait)
    requires WellFormed(jobs, next)
    ensures WellFormed(FgSpec(jobs, argv, tcset, cont, wait).jobs, next)
  {
    if |argv| <= 2 && Selected(jobs, argv).Some? {
      var i := Selected(jobs, argv).value;
      AfterWaitWellFormed(jobs, next, i, wait);
    }
  }

  lemma AfterWaitWellFormed(jobs: seq<Job>, next: int, i: nat, wait: FgWait)
    requires WellFormed(jobs, next) && i < |jobs|
    ensures WellFormed(AfterForegroundWait(jobs, i, wait).0, next)
  {
    match wait
    case Reported(StoppedBySignal) => RemarkedWellFormed(jobs, next, i, Stopped);
    case _ => WithoutPgidWellFormed(jobs, next, jobs[i].pgid);
  }

  /** A job that exits or is killed while in the foreground leaves the
      table, when no earlier entry shares its process group; one that stops
      stays, marked Stopped, and is announced with its number. */
  lemma FgWaitOutcome(jobs: seq<Job>, i: nat, tcset: Call, cont: Call, wait: FgWait)
    requires i < |jobs| && tcset.Succeeded? && (jobs[i].state.Running? || cont.Succeeded?)
    ensures var o := FgOnJob(jobs, i, tcset, cont, wait);
      && (wait == Reported(StoppedBySignal) ==>
            && o.jobs == jobs[i := jobs[i].(state := Stopped)]
            && o.out == [Out(jobs[i].name + "\n"),
                         Err("\n[" + Decimal(jobs[i].number) + "] Stopped " + jobs[i].name + "\n")])
      && ((wait.Reported? && (wait.status.Exited? || wait.status.Signaled?)) || wait == WaitError(ECHILD) ==>
            (forall k :: 0 <= k < i ==> jobs[k].pgid != jobs[i].pgid) ==> o.jobs == RemovedAt(jobs, i))
  {
    if forall k :: 0 <= k < i ==> jobs[k].pgid != jobs[i].pgid {
      assert FirstWithPgid(jobs, jobs[i].pgid) == Some(i) by {
        match FirstWithPgid(jobs, jobs[i].pgid)
        case None =>
        case Some(f) =>
      }
    }
  }

  /** The end of `fg_command`: what the wait on the job at `i` reported is
      applied to the table. */
  method ApplyForegroundWait(table: JobTable, i: nat, wait: FgWait) returns (notice: seq<Line>)
    requires table.Valid() && i < table.count
    modifies table, table.slots
    ensures table.Valid() && table.slots == old(table.slots) && table.nextNumber == old(table.nextNumber)
    ensures (table.Jobs(), notice) == AfterForegroundWait(old(table.Jobs()), i, wait)
  {
    var job := table.slots[i];
    notice := [];
    match wait {
      case Reported(StoppedBySignal) =>
        notice := [Err("\n[" + Decimal(job.number) + "] Stopped " + job.name + "\n")];
        table.SetState(i, Stopped);
      case Reported(Signaled) =>
        notice := [Out("\n")];
        table.RemoveByPgid(job.pgid);
      case Reported(Exited(_)) =>
        table.RemoveByPgid(job.pgid);
      case Reported(Continued) =>
      case WaitError(e) =>
        if e == ECHILD {
          table.RemoveByPgid(job.pgid);
        }
    }
  }

  /** `fg_command` after it has found the job at `i`. */
  method ForegroundJob(table: JobTable, fg: Foreground, i: nat, tcset: Call, cont: Call, wait: FgWait)
    returns (out: seq<Line>, continued: bool)
    requires table.Valid() && i < table.count
    modifies table, table.slots, fg
    ensures table.Valid() && table.slots == old(table.slots) && table.nextNumber == old(table.nextNumber)
    ensures var o := FgOnJob(old(table.Jobs()), i, tcset, cont, wait);
      && table.Jobs() == o.jobs && out == o.out && continued == o.continued
      && fg.writes == old(fg.writes) + o.writes && fg.grants == old(fg.grants) + o.grants
      && fg.pid == NoForeground
      && fg.terminal == (if o.grants == [] then old(fg.terminal) else ShellOwns)
  {
    var job := table.slots[i];
    ghost var w0, g0 := fg.writes, fg.grants;
    fg.SetPid(job.pgid);
    if tcset.Failed? {
      fg.SetPid(NoForeground);
      assert fg.writes == w0 + [job.pgid, NoForeground];
      return [Out(job.name + "\n"), Perror("tcsetpgrp failed", tcset.errno)], false;
    }
    fg.GiveTerminal(GroupOwns(job.pgid));
    var rest;
    rest, continued := ContinueAndWait(table, fg, i, cont, wait);
    assert fg.writes == w0 + [job.pgid, NoForeground] && fg.grants == g0 + [GroupOwns(job.pgid), ShellOwns];
    assert tcset == Succeeded;
    out := [Out(job.name + "\n")] + rest;
  }

  /** The rest of `fg` once the job holds the terminal: continue a stopped
      job, wait for it, then take the terminal back and clear the handle. */
  method ContinueAndWait(table: JobTable, fg: Foreground, i: nat, cont: Call, wait: FgWait)
    returns (rest: seq<Line>, continued: bool)
    requires table.Valid() && i < table.count
    modifies table, table.slots, fg
    ensures table.Valid() && table.slots == old(table.slots) && table.nextNumber == old(table.nextNumber)
    ensures var o := FgOnJob(old(table.Jobs()), i, Succeeded, cont, wait);
      && table.Jobs() == o.jobs && o.out == [Out(old(table.Jobs())[i].name + "\n")] + rest
      && continued == o.continued
    ensures fg.writes == old(fg.writes) + [NoForeground] && fg.grants == old(fg.grants) + [ShellOwns]
    ensures fg.pid == NoForeground && fg.terminal == ShellOwns
  {
    var job := table.slots[i];
    continued := false;
    if job.state.Stopped? {
      if cont.Failed? {
        rest := [Perror("kill failed", cont.errno)];
        ReturnTerminal(fg);
        return;
      }
      continued := true;
    }
    rest := ApplyForegroundWait(table, i, wait);
    ReturnTerminal(fg);
  }

  /** `tcsetpgrp(STDIN_FILENO, getpgrp()); foreground_pid = -1;` */
  method ReturnTerminal(fg: Foreground)
    modifies fg
    ensures fg.writes == old(fg.writes) + [NoForeground] && fg.grants == old(fg.grants) + [ShellOwns]
    ensures fg.pid == NoForeground && fg.terminal == ShellOwns
  {
    fg.GiveTerminal(ShellOwns);
    fg.SetPid(NoForeground);
  }

  /** `fg_command` on the job table and the foreground handle. */
  method Fg(table: JobTable, fg: Foreground, argv: seq<string>, tcset: Call, cont: Call, wait: FgWait)
    returns (out: seq<Line>, continued: bool)
    requires table.Valid()
    modifies table, table.slots, fg
    ensures table.Valid() && table.slots == old(table.slots) && table.nextNumber == old(table.nextNumber)
    ensures var o := FgSpec(old(table.Jobs()), argv, tcset, cont, wait);
      && table.Jobs() == o.jobs && out == o.out && continued == o.continued
      && fg.writes == old(fg.writes) + o.writes && fg.grants == old(fg.grants) + o.grants
      && fg.pid == (if o.writes == [] then old(fg.pid) else NoForeground)
      && fg.terminal == (if o.grants == [] then old(fg.terminal) else ShellOwns)
  {
    if |argv| > 2 {
      return [Err("Syntax: fg [job_number]\n")], false;
    }
    var sel := SelectJob(table, argv);
    if sel.None? {
      return [Err("No such job\n")], false;
    }
    FgOnSelected(table.Jobs(), argv, tcset, cont, wait);
    out, continued := ForegroundJob(table, fg, sel.value, tcset, cont, wait);
  }

  lemma FgOnSelected(jobs: seq<Job>, argv: seq<string>, tcset: Call, cont: Call, wait: FgWait)
    requires |argv| <= 2 && Selected(jobs, argv).Some?
    ensures FgSpec(jobs, argv, tcset, cont, wait) == FgOnJob(jobs, Selected(jobs, argv).value, tcset, cont, wait)
  {
  }

  /** The job both commands pick: `find_job_by_number(atoi(argv[1]))` with
      two words, `find_most_recent_job()` otherwise. */
  method SelectJob(table: JobTable, argv: seq<string>) returns (sel: Option<nat>)
    requires table.Valid()
    ensures sel == Selected(table.Jobs(), argv)
  {
    if |argv| == 2 {
      sel := table.FindByNumber(Atoi(argv[1]));
    } else {
      sel := table.FindMostRecent();
    }
  }

  // ---------------------------------------------------------------------
  // bg

  /** Everything one `bg` does: the table afterwards, the output, and
      whether SIGCONT was delivered. */
  datatype BgOutcome = BgOutcome(jobs: seq<Job>, out: seq<Line>, continued: bool)

  /** `bg_command`, given the outcome of `kill(-pgid, SIGCONT)`. */
  function BgSpec(jobs: seq<Job>, argv: seq<string>, cont: Call): BgOutcome {
    if |argv| > 2 then BgOutcome(jobs, [Err("Syntax: bg [job_number]\n")], false)
    else match Selected(jobs, argv)
      case None => BgOutcome(jobs, [Err("No such job\n")], false)
      case Some(i) =>
        var job := jobs[i];
        if job.state.Running? then BgOutcome(jobs, [Err("Job already running\n")], false)
        else if cont.Failed? then BgOutcome(jobs, [Perror("kill failed", cont.errno)], false)
        else BgOutcome(jobs[i := job.(state := Running)],
                       [Out("[" + Decimal(job.number) + "] " + job.name + " &\n")], true)
  }

  /** `bg` changes at most the state of the selected job, and only from
      Stopped to Running once SIGCONT was delivered; every other entry, the
      number and order of entries and the job's number, group and name are
      untouched. */
  lemma BgOnlyResumes(jobs: seq<Job>, next: int, argv: seq<string>, cont: Call)
    requires WellFormed(jobs, next)
    ensures var o := BgSpec(jobs, argv, cont);
      && WellFormed(o.jobs, next)
      && |o.jobs| == |jobs|
      && (forall k :: 0 <= k < |jobs| ==>
            o.jobs[k] == jobs[k] || (o.jobs[k] == jobs[k].(state := Running) && jobs[k].state.Stopped?))
      && (o.continued <==> o.jobs != jobs)
  {
    var o := BgSpec(jobs, argv, cont);
    if o.continued {
      var i := Selected(jobs, argv).value;
      assert o.jobs[i] != jobs[i];
      forall j | j in o.jobs ensures 1 <= j.number < next && |j.name| <= NameLimit {
        if j != o.jobs[i] { assert j in jobs; }
      }
    }
  }

  /** `bg_command` on the job table. */
  method Bg(table: JobTable, argv: seq<string>, cont: Call) returns (out: seq<Line>, continued: bool)
    requires table.Valid()
    modifies table.slots
    ensures table.Valid()
    ensures var o := BgSpec(old(table.Jobs()), argv, cont);
      table.Jobs() == o.jobs && out == o.out && continued == o.continued
  {
    if |argv| > 2 {
      return [Err("Syntax: bg [job_number]\n")], false;
    }
    var sel := SelectJob(table, argv);
    if sel.None? {
      return [Err("No such job\n")], false;
    }
    var i := sel.value;
    var job := table.slots[i];
    if job.state.Running? {
      return [Err("Job already running\n")], false;
    }
    if cont.Failed? {
      return [Perror("kill failed", cont.errno)], false;
    }
    table.SetState(i, Running);
    return [Out("[" + Decimal(job.number) + "] " + job.name + " &\n")], true;
  }
}
