/** The process-wide foreground handle: `foreground_pid`, the process group
    the interrupt and stop handlers forward to (-1 when the shell itself is in
    the foreground), together with the group that owns the terminal. */
module Session {

  /** Who `tcsetpgrp` last made the terminal's foreground process group. */
  datatype Terminal = ShellOwns | GroupOwns(pgid: int)

  const NoForeground: int := -1

  class Foreground {
    /** `foreground_pid`. */
    var pid: int
    var terminal: Terminal
    /** Every value ever written to `pid`, oldest first; lets contracts say
        what the handle held while a wait was in progress. */
    ghost var writes: seq<int>
    /** Every group handed the terminal by a `tcsetpgrp` that took effect,
        oldest first. */
    ghost var grants: seq<Terminal>

    constructor ()
      ensures pid == NoForeground && terminal == ShellOwns && writes == [] && grants == []
    {
      pid := NoForeground;
      terminal := ShellOwns;
      writes := [];
      grants := [];
    }

    method SetPid(p: int)
      modifies this
      ensures pid == p && writes == old(writes) + [p]
      ensures terminal == old(terminal) && grants == old(grants)
    {
      pid := p;
      writes := writes + [p];
    }

    /** A `tcsetpgrp` that succeeded. */
    method GiveTerminal(t: Terminal)
      modifies this
      ensures terminal == t && grants == old(grants) + [t]
      ensures pid == old(pid) && writes == old(writes)
    {
      terminal := t;
      grants := grants + [t];
    }
  }
}
