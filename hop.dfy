/** `hop`: change the working directory to home, to the previous directory
    (`-`) or to a path, remembering the directory left behind. `getcwd` and
    `chdir` are oracles: `getcwd` says whether the current directory could
    be read, `chdir(cwd, path)` gives the directory a change lands in, or
    `None` when it fails. */
module Hop {
  import opened Text

  /** `PATH_MAX - 1`: the longest path `strncpy` leaves in `target_path`. */
  const PathLimit: nat := 4095

  /** The process's working directory and `*prev_dir`. */
  class Directories {
    var cwd: string
    /** `*prev_dir`; `None` is NULL. */
    var prev: Option<string>

    constructor (start: string)
      ensures cwd == start && prev == None
    {
      cwd := start;
      prev := None;
    }

    /** `change_directory`. */
    method ChangeDirectory(path: string, getcwd: Call, chdir: (string, string) -> Option<string>)
      returns (ok: bool, out: seq<Line>)
      modifies this
      ensures var o := Changed(old(cwd), old(prev), path, getcwd, chdir);
        ok == o.ok && out == o.out && cwd == o.cwd && prev == o.prev
    {
      if getcwd.Failed? {
        return false, [Perror("getcwd failed", getcwd.errno)];
      }
      var oldDir := cwd;
      var landed := chdir(cwd, path);
      if landed.None? {
        return false, [Out("No such directory!\n")];
      }
      cwd := landed.value;
      prev := Some(oldDir);
      return true, [];
    }

    /** `hop`. */
    method Hop(args: seq<string>, home: string, getcwd: Call, chdir: (string, string) -> Option<string>)
      returns (ok: bool, out: seq<Line>)
      modifies this
      ensures var o := HopSpec(old(cwd), old(prev), args, home, getcwd, chdir);
        ok == o.ok && out == o.out && cwd == o.cwd && prev == o.prev
    {
      var target: string;
      if |args| == 0 {
        target := Prefix(home, PathLimit);
      } else if |args| == 1 {
        if args[0] == "-" {
          if prev.None? {
            return true, [];
          }
          target := Prefix(prev.value, PathLimit);
        } else {
          target := Prefix(args[0], PathLimit);
        }
      } else {
        return false, [Err("hop: too many arguments\n")];
      }
      ok, out := ChangeDirectory(target, getcwd, chdir);
    }
  }

  /** The result of a `hop` or a `change_directory`, and the directory
      state after it. */
  datatype HopOutcome = HopOutcome(ok: bool, out: seq<Line>, cwd: string, prev: Option<string>)

  function Changed(cwd: string, prev: Option<string>, path: string, getcwd: Call,
                   chdir: (string, string) -> Option<string>): (o: HopOutcome)
    ensures o.ok <==> getcwd.Succeeded? && chdir(cwd, path).Some?
    ensures o.ok ==> o.cwd == chdir(cwd, path).value && o.prev == Some(cwd) && o.out == []
    ensures !o.ok ==> o.cwd == cwd && o.prev == prev && |o.out| == 1
  {
    if getcwd.Failed? then HopOutcome(false, [Perror("getcwd failed", getcwd.errno)], cwd, prev)
    else if chdir(cwd, path).None? then HopOutcome(false, [Out("No such directory!\n")], cwd, prev)
    else HopOutcome(true, [], chdir(cwd, path).value, Some(cwd))
  }

  /** The directory `hop` aims at, if it aims at one. */
  function Target(prev: Option<string>, args: seq<string>, home: string): Option<string>
    requires |args| <= 1
  {
    if |args| == 0 then Some(Prefix(home, PathLimit))
    else if args[0] == "-" then (if prev.None? then None else Some(Prefix(prev.value, PathLimit)))
    else Some(Prefix(args[0], PathLimit))
  }

  function HopSpec(cwd: string, prev: Option<string>, args: seq<string>, home: string, getcwd: Call,
                   chdir: (string, string) -> Option<string>): (o: HopOutcome)
    ensures |args| > 1 ==> o == HopOutcome(false, [Err("hop: too many arguments\n")], cwd, prev)
    ensures args == ["-"] && prev.None? ==> o == HopOutcome(true, [], cwd, prev)
    ensures !o.ok ==> o.cwd == cwd && o.prev == prev
  {
    if |args| > 1 then HopOutcome(false, [Err("hop: too many arguments\n")], cwd, prev)
    else
      var t := Target(prev, args, home);
      if t.None? then HopOutcome(true, [], cwd, prev)
      else Changed(cwd, prev, t.value, getcwd, chdir)
  }

  /** Without arguments `hop` goes home, and a successful change remembers
      the directory it left. */
  lemma HopHome(cwd: string, prev: Option<string>, home: string, chdir: (string, string) -> Option<string>)
    requires |home| <= PathLimit && chdir(cwd, home) == Some(home)
    ensures HopSpec(cwd, prev, [], home, Succeeded, chdir) == HopOutcome(true, [], home, Some(cwd))
  {
  }

  /** Two `hop -` in a row come back to where they started, with the
      previous directory as it was, when both changes land where they aim
      and both paths fit `target_path`. */
  lemma HopBackTwice(a: string, b: string, home: string, chdir: (string, string) -> Option<string>)
    requires |a| <= PathLimit && |b| <= PathLimit
    requires chdir(a, b) == Some(b) && chdir(b, a) == Some(a)
    ensures var first := HopSpec(a, Some(b), ["-"], home, Succeeded, chdir);
      && first == HopOutcome(true, [], b, Some(a))
      && HopSpec(first.cwd, first.prev, ["-"], home, Succeeded, chdir) == HopOutcome(true, [], a, Some(b))
  {
  }
}
