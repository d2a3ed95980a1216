/** `ping` and the interrupt and stop handlers. `kill` is an oracle: it is
    given the target and the signal number and says whether the call
    succeeded. */
module Signals {
  import opened Text
  import opened Session

  const SIGINT: int := 2
  const SIGTSTP: int := 20

  /** C's `a % 32`: the remainder takes the sign of the dividend (the
      quotient is truncated toward zero), where Dafny's `%` is never
      negative. */
  function CRem32(a: int): (r: int)
    ensures a >= 0 ==> 0 <= r < 32
    ensures a < 0 ==> -32 < r <= 0
    ensures (a - r) % 32 == 0
  {
    if a >= 0 then a % 32 else -((-a) % 32)
  }

  /** The signal `ping` sends for the number it was given. */
  function ActualSignal(n: int): (s: int)
    ensures 0 <= s < 32
  {
    CRem32(CRem32(n) + 32)
  }

  /** The normalisation is reduction modulo 32: it picks the one signal in
      0..31 congruent to `n`. */
  lemma ActualSignalIsModulo(n: int)
    ensures ActualSignal(n) == n % 32
  {
    var r := CRem32(n);
    assert (n - r) % 32 == 0;
    var s := ActualSignal(n);
    assert (r + 32 - s) % 32 == 0;
    assert (n - s) % 32 == 0 by {
      assert n - s == (n - r) + (r + 32 - s) - 32;
    }
  }

  /** Numbers already in range are sent unchanged, and -1 becomes 31. */
  lemma ActualSignalExamples(n: int)
    ensures 0 <= n < 32 ==> ActualSignal(n) == n
    ensures ActualSignal(-1) == 31
  {
    ActualSignalIsModulo(n);
    ActualSignalIsModulo(-1);
  }

  /** `ping`: the signal sent and the message printed. The message reports
      the number as given, not the one sent. */
  method Ping(pid: int, n: int, kill: (int, int) -> Call) returns (sent: int, out: Line)
    ensures sent == ActualSignal(n)
    ensures kill(pid, sent).Succeeded? ==>
      out == Out("Sent signal " + Decimal(n) + " to process with pid " + Decimal(pid) + "\n")
    ensures kill(pid, sent) == Failed(ESRCH) ==> out == Err("No such process found\n")
    ensures kill(pid, sent).Failed? && kill(pid, sent).errno != ESRCH ==> out == Perror("kill failed", kill(pid, sent).errno)
  {
    sent := CRem32(CRem32(n) + 32);
    var result := kill(pid, sent);
    if result.Failed? {
      if result.errno == ESRCH {
        out := Err("No such process found\n");
      } else {
        out := Perror("kill failed", result.errno);
      }
    } else {
      out := Out("Sent signal " + Decimal(n) + " to process with pid " + Decimal(pid) + "\n");
    }
  }

  /** What a handler does: the group it signals, if any, and its message. */
  datatype Forwarded = Forwarded(target: Option<int>, out: seq<Line>)

  /** The forward-or-ignore rule shared by both handlers. */
  function Forward(fgPid: int, signal: int, prefix: string, kill: (int, int) -> Call): (f: Forwarded)
    ensures f.target.None? <==> fgPid == NoForeground
    ensures f.target.Some? ==> f.target.value == -fgPid
    ensures f.out != [] ==> f.target.Some? && kill(-fgPid, signal).Failed?
  {
    if fgPid == NoForeground then Forwarded(None, [])
    else
      var r := kill(-fgPid, signal);
      Forwarded(Some(-fgPid), if r.Failed? then [Perror(prefix, r.errno)] else [])
  }

  /** `handle_sigint`: reads `foreground_pid` and changes nothing. */
  method HandleSigint(fg: Foreground, kill: (int, int) -> Call) returns (f: Forwarded)
    ensures f == Forward(fg.pid, SIGINT, "kill failed in SIGINT handler", kill)
  {
    f := Forwarded(None, []);
    if fg.pid != NoForeground {
      var r := kill(-fg.pid, SIGINT);
      f := Forwarded(Some(-fg.pid), if r.Failed? then [Perror("kill failed in SIGINT handler", r.errno)] else []);
    }
  }

  /** `handle_sigtstp`. */
  method HandleSigtstp(fg: Foreground, kill: (int, int) -> Call) returns (f: Forwarded)
    ensures f == Forward(fg.pid, SIGTSTP, "kill failed in SIGTSTP handler", kill)
  {
    f := Forwarded(None, []);
    if fg.pid != NoForeground {
      var r := kill(-fg.pid, SIGTSTP);
      f := Forwarded(Some(-fg.pid), if r.Failed? then [Perror("kill failed in SIGTSTP handler", r.errno)] else []);
    }
  }
}
