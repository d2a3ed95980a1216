/** `reveal`: list a directory's entries in `strcmp` order, hiding those
    whose names start with `.` unless `-a` is given, one per line with
    `-l`. `getcwd` and `opendir` are oracles: `getcwd` gives the current
    directory or its error, `listing(path)` the entry names `readdir`
    returns, in its order, or `None` when the directory cannot be opened. */
module Reveal {
  import opened Text

  /** `sizeof(target_path) - 1`. */
  const PathLimit: nat := 4095

  /** An argument that is a flag cluster: `-` and at least one more
      character. */
  predicate IsFlagArg(a: string) {
    |a| > 1 && a[0] == '-'
  }

  /** Some flag cluster holds the letter `c` after its `-`. */
  predicate HasFlag(args: seq<string>, c: char) {
    exists i, j :: 0 <= i < |args| && IsFlagArg(args[i]) && 1 <= j < |args[i]| && args[i][j] == c
  }

  /** The arguments that are not flag clusters, in order. */
  function Operands(args: seq<string>): (r: seq<string>)
    ensures |r| <= |args|
  {
    if args == [] then []
    else (if IsFlagArg(args[0]) then [] else [args[0]]) + Operands(args[1..])
  }

  /** What the argument loop decides: a syntax error, or the two flags and
      the path argument (`None` for NULL). */
  datatype Options = BadSyntax | Options(showAll: bool, lineByLine: bool, path: Option<string>)

  function ParsedArgs(args: seq<string>): (o: Options)
    ensures o.BadSyntax? <==> |Operands(args)| > 1
  {
    var ps := Operands(args);
    if |ps| > 1 then BadSyntax
    else Options(HasFlag(args, 'a'), HasFlag(args, 'l'), if ps == [] then None else Some(ps[0]))
  }

  lemma {:induction false} OperandsAppend(a: seq<string>, b: seq<string>)
    ensures Operands(a + b) == Operands(a) + Operands(b)
  {
    if a == [] {
      assert a + b == b;
    } else {
      assert (a + b)[0] == a[0] && (a + b)[1..] == a[1..] + b;
      OperandsAppend(a[1..], b);
    }
  }

  lemma HasFlagAppend(a: seq<string>, b: seq<string>, c: char)
    ensures HasFlag(a + b, c) <==> HasFlag(a, c) || HasFlag(b, c)
  {
    if HasFlag(a + b, c) {
      var i, j :| 0 <= i < |a + b| && IsFlagArg((a + b)[i]) && 1 <= j < |(a + b)[i]| && (a + b)[i][j] == c;
      if i >= |a| {
        assert b[i - |a|] == (a + b)[i];
      }
    }
    if HasFlag(b, c) {
      var i, j :| 0 <= i < |b| && IsFlagArg(b[i]) && 1 <= j < |b[i]| && b[i][j] == c;
      assert (a + b)[|a| + i] == b[i];
    }
    if HasFlag(a, c) {
      var i, j :| 0 <= i < |a| && IsFlagArg(a[i]) && 1 <= j < |a[i]| && a[i][j] == c;
      assert (a + b)[i] == a[i];
    }
  }

  /** Where the flags stand among the arguments does not matter: swapping
      two runs of arguments gives the same options, since there is at most
      one path argument when there is no syntax error. */
  lemma ParsedArgsOrderFree(a: seq<string>, b: seq<string>)
    ensures ParsedArgs(a + b) == ParsedArgs(b + a)
  {
    OperandsAppend(a, b);
    OperandsAppend(b, a);
    HasFlagAppend(a, b, 'a');
    HasFlagAppend(b, a, 'a');
    HasFlagAppend(a, b, 'l');
    HasFlagAppend(b, a, 'l');
  }

  /** The flag loop of `reveal`. */
  method ParseArgs(args: seq<string>) returns (o: Options)
    ensures o == ParsedArgs(args)
  {
    var showAll, lineByLine := false, false;
    var path: Option<string> := None;
    var i := 0;
    assert args[..0] == [];
    while i < |args|
      invariant ArgsUpTo(args, i, showAll, lineByLine, path)
      decreases |args| - i
    {
      var bad;
      bad, i, showAll, lineByLine, path := ParseArg(args, i, showAll, lineByLine, path);
      if bad {
        return BadSyntax;
      }
    }
    ArgsDone(args, showAll, lineByLine, path);
    o := Options(showAll, lineByLine, path);
  }

  /** The loop has read the arguments below `i`: the flags seen so far and
      the one operand, if any. */
  predicate ArgsUpTo(args: seq<string>, i: nat, showAll: bool, lineByLine: bool, path: Option<string>) {
    && i <= |args|
    && showAll == HasFlag(args[..i], 'a') && lineByLine == HasFlag(args[..i], 'l')
    && Operands(args[..i]) == if path.None? then [] else [path.value]
  }

  /** One pass of the flag loop: scan a cluster, or take the path, or
      stop at a second path. */
  method ParseArg(args: seq<string>, i: nat, showAll: bool, lineByLine: bool, path: Option<string>)
    returns (bad: bool, next: nat, all: bool, long: bool, path': Option<string>)
    requires i < |args| && ArgsUpTo(args, i, showAll, lineByLine, path)
    ensures bad ==> |Operands(args)| > 1
    ensures !bad ==> next == i + 1 && ArgsUpTo(args, next, all, long, path')
  {
    ParseStep(args, i);
    var a := args[i];
    next, all, long, path' := i + 1, showAll, lineByLine, path;
    if |a| > 0 && a[0] == '-' && |a| > 1 {
      all, long := ScanCluster(a, showAll, lineByLine);
    } else {
      if path.Some? {
        OperandsGrow(args, i + 1);
        return true, next, all, long, path';
      }
      path' := Some(a);
    }
    bad := false;
  }

  lemma ArgsDone(args: seq<string>, showAll: bool, lineByLine: bool, path: Option<string>)
    requires ArgsUpTo(args, |args|, showAll, lineByLine, path)
    ensures ParsedArgs(args) == Options(showAll, lineByLine, path)
  {
    assert args[..|args|] == args;
  }

  /** One more argument: a flag cluster adds its letters, anything else is
      one more operand. */
  lemma ParseStep(args: seq<string>, i: nat)
    requires i < |args|
    ensures HasFlag(args[..i + 1], 'a') <==> HasFlag(args[..i], 'a') || (IsFlagArg(args[i]) && Follows(args[i], 'a'))
    ensures HasFlag(args[..i + 1], 'l') <==> HasFlag(args[..i], 'l') || (IsFlagArg(args[i]) && Follows(args[i], 'l'))
    ensures Operands(args[..i + 1]) == Operands(args[..i]) + (if IsFlagArg(args[i]) then [] else [args[i]])
  {
    assert args[..i + 1] == args[..i] + [args[i]];
    OperandsAppend(args[..i], [args[i]]);
    HasFlagAppend(args[..i], [args[i]], 'a');
    HasFlagAppend(args[..i], [args[i]], 'l');
    if IsFlagArg(args[i]) {
      FlagLetters([args[i]], 'a');
      FlagLetters([args[i]], 'l');
    } else {
      assert !HasFlag([args[i]], 'a') && !HasFlag([args[i]], 'l');
    }
  }

  /** Operands seen in a prefix stay operands of the whole line. */
  lemma OperandsGrow(args: seq<string>, i: nat)
    requires i <= |args|
    ensures |Operands(args)| >= |Operands(args[..i])|
  {
    OperandsAppend(args[..i], args[i..]);
    assert args[..i] + args[i..] == args;
  }

  /** `c` occurs in `a` after its first character. */
  predicate Follows(a: string, c: char) {
    exists k :: 1 <= k < |a| && a[k] == c
  }

  /** A single flag cluster holds a letter exactly when the letter follows
      its `-`. */
  lemma FlagLetters(args: seq<string>, c: char)
    requires |args| == 1 && IsFlagArg(args[0])
    ensures HasFlag(args, c) <==> Follows(args[0], c)
  {
    if Follows(args[0], c) {
      var k :| 1 <= k < |args[0]| && args[0][k] == c;
      assert args[0][k] == c;
    }
  }

  /** The letter loop over one flag cluster: `a` and `l` switch their flags
      on, every other letter is ignored. */
  method ScanCluster(a: string, showAll: bool, lineByLine: bool) returns (all: bool, long: bool)
    ensures all == (showAll || Follows(a, 'a'))
    ensures long == (lineByLine || Follows(a, 'l'))
  {
    all, long := showAll, lineByLine;
    var j := 1;
    while j < |a|
      invariant 1 <= j
      invariant all == (showAll || exists k :: 1 <= k < j && k < |a| && a[k] == 'a')
      invariant long == (lineByLine || exists k :: 1 <= k < j && k < |a| && a[k] == 'l')
    {
      if a[j] == 'a' {
        all := true;
      } else if a[j] == 'l' {
        long := true;
      }
      j := j + 1;
    }
  }

  /** The entries kept by the `readdir` loop, in `readdir` order. */
  function Visible(names: seq<string>, showAll: bool): seq<string> {
    if names == [] then []
    else (if !showAll && |names[0]| > 0 && names[0][0] == '.' then [] else [names[0]]) + Visible(names[1..], showAll)
  }

  /** Without `-a` exactly the names not starting with `.` are kept, each
      as often as it was listed. */
  lemma {:induction false} VisibleKeepsUnhidden(names: seq<string>, n: string)
    ensures multiset(Visible(names, false))[n] == if |n| > 0 && n[0] == '.' then 0 else multiset(names)[n]
  {
    if names != [] {
      VisibleKeepsUnhidden(names[1..], n);
      var head := if |names[0]| > 0 && names[0][0] == '.' then [] else [names[0]];
      assert Visible(names, false) == head + Visible(names[1..], false);
      assert multiset(Visible(names, false)) == multiset(head) + multiset(Visible(names[1..], false));
      assert names == [names[0]] + names[1..];
      assert multiset(names) == multiset{names[0]} + multiset(names[1..]);
    }
  }

  /** With `-a` every name is kept, in `readdir` order. */
  lemma {:induction false} VisibleAll(names: seq<string>)
    ensures Visible(names, true) == names
  {
    if names != [] {
      VisibleAll(names[1..]);
    }
  }

  /** The `readdir` loop: skip hidden names unless `-a`, keep the rest. */
  method Collect(names: seq<string>, showAll: bool) returns (kept: seq<string>)
    ensures kept == Visible(names, showAll)
  {
    kept := [];
    var i: nat := 0;
    assert names[0..] == names;
    while i < |names|
      invariant CollectedUpTo(names, showAll, i, kept)
      decreases |names| - i
    {
      i, kept := CollectOne(names, showAll, i, kept);
    }
    assert names[i..] == [];
  }

  /** The entries below `i` have been read and the visible ones kept. */
  predicate CollectedUpTo(names: seq<string>, showAll: bool, i: nat, kept: seq<string>) {
    i <= |names| && kept + Visible(names[i..], showAll) == Visible(names, showAll)
  }

  /** One `readdir` call: keep the entry unless it is hidden and `-a` is off. */
  method CollectOne(names: seq<string>, showAll: bool, i: nat, kept: seq<string>) returns (next: nat, kept': seq<string>)
    requires i < |names| && CollectedUpTo(names, showAll, i, kept)
    ensures next == i + 1 && CollectedUpTo(names, showAll, next, kept')
  {
    VisibleStep(names, i, showAll);
    next := i + 1;
    if !showAll && |names[i]| > 0 && names[i][0] == '.' {
      kept' := kept;
    } else {
      KeptStep(kept, names[i], Visible(names[i + 1..], showAll));
      kept' := kept + [names[i]];
    }
  }

  lemma VisibleStep(names: seq<string>, i: nat, showAll: bool)
    requires i < |names|
    ensures Visible(names[i..], showAll) ==
      (if !showAll && |names[i]| > 0 && names[i][0] == '.' then [] else [names[i]]) + Visible(names[i + 1..], showAll)
  {
    assert names[i..][0] == names[i] && names[i..][1..] == names[i + 1..];
  }

  lemma KeptStep(kept: seq<string>, n: string, rest: seq<string>)
    ensures kept + ([n] + rest) == (kept + [n]) + rest
  {
  }

  function Identity(s: string): string {
    s
  }

  /** The printed listing: each name and a newline with `-l`; otherwise each
      name and two spaces, and one newline at the end of a non-empty list. */
  function Listing(names: seq<string>, lineByLine: bool): string {
    if lineByLine then Joined(names, "\n")
    else Joined(names, "  ") + (if names == [] then "" else "\n")
  }

  /** Each name followed by `sep`. */
  function Joined(names: seq<string>, sep: string): string {
    if names == [] then "" else names[0] + sep + Joined(names[1..], sep)
  }

  /** The newlines of a listing: one per name with `-l`, one in all
      otherwise (none for an empty list), when no name holds a newline. */
  lemma ListingNewlines(names: seq<string>, lineByLine: bool)
    requires forall k :: 0 <= k < |names| ==> '\n' !in names[k]
    ensures Count(Listing(names, lineByLine), '\n') == if lineByLine then |names| else if names == [] then 0 else 1
  {
    if lineByLine {
      JoinedNewlines(names, "\n", 1);
    } else {
      JoinedNewlines(names, "  ", 0);
      if names != [] {
        CountAppend(Joined(names, "  "), "\n", '\n');
      }
    }
  }

  /** `sep` holds `per` newlines (`per` is 0 or 1) and no name holds one. */
  lemma {:induction false} JoinedNewlines(names: seq<string>, sep: string, per: nat)
    requires forall k :: 0 <= k < |names| ==> '\n' !in names[k]
    requires per <= 1 && Count(sep, '\n') == per
    ensures Count(Joined(names, sep), '\n') == if per == 0 then 0 else |names|
    decreases |names|
  {
    if names != [] {
      JoinedNewlines(names[1..], sep, per);
      var rest := Joined(names[1..], sep);
      assert Joined(names, sep) == names[0] + sep + rest;
      CountAppend(names[0], sep, '\n');
      CountAppend(names[0] + sep, rest, '\n');
      CountZero(names[0], '\n');
    }
  }

  /** What `reveal` prints and returns. */
  datatype RevealOutcome = RevealOutcome(ok: bool, out: seq<Line>)

  /** The directory `reveal` lists, or the failure that stops it. */
  function TargetPath(path: Option<string>, prev: Option<string>, getcwd: Result): (r: Either)
  {
    if path.None? then
      if getcwd.CwdFailed? then Stop(Perror("reveal: getcwd", getcwd.errno)) else Path(getcwd.cwd)
    else if path.value == "-" then
      if prev.None? then Stop(Out("No such directory!\n")) else Path(Prefix(prev.value, PathLimit))
    else Path(Prefix(path.value, PathLimit))
  }

  /** What `getcwd` returned. */
  datatype Result = Cwd(cwd: string) | CwdFailed(errno: Errno)

  datatype Either = Path(path: string) | Stop(line: Line)

  function RevealSpec(args: seq<string>, prev: Option<string>, getcwd: Result,
                      listing: string -> Option<seq<string>>): (o: RevealOutcome)
    ensures ParsedArgs(args).BadSyntax? ==> o == RevealOutcome(false, [Out("reveal: Invalid Syntax!\n")])
    ensures o.ok ==> |o.out| == 1 && o.out[0].Out?
  {
    var opts := ParsedArgs(args);
    if opts.BadSyntax? then RevealOutcome(false, [Out("reveal: Invalid Syntax!\n")])
    else
      var t := TargetPath(opts.path, prev, getcwd);
      if t.Stop? then RevealOutcome(false, [t.line])
      else if listing(t.path).None? then RevealOutcome(false, [Out("No such directory!\n")])
      else
        var names := SortBy(Visible(listing(t.path).value, opts.showAll), Identity);
        RevealOutcome(true, [Out(Listing(names, opts.lineByLine))])
  }

  /** With `-l` a successful listing prints one line per visible entry,
      and without it a single line for a non-empty directory, when no entry
      name holds a newline. */
  lemma RevealLineCount(names: seq<string>, showAll: bool, lineByLine: bool)
    requires forall k :: 0 <= k < |names| ==> '\n' !in names[k]
    ensures var shown := SortBy(Visible(names, showAll), Identity);
      Count(Listing(shown, lineByLine), '\n') ==
        if lineByLine then |Visible(names, showAll)| else if Visible(names, showAll) == [] then 0 else 1
  {
    var kept := Visible(names, showAll);
    var shown := SortBy(kept, Identity);
    VisibleNoNewline(names, showAll);
    PermutedNoNewline(kept, shown);
    assert |shown| == |multiset(shown)| == |kept|;
    ListingNewlines(shown, lineByLine);
  }

  lemma {:induction false} VisibleNoNewline(names: seq<string>, showAll: bool)
    requires forall k :: 0 <= k < |names| ==> '\n' !in names[k]
    ensures forall k :: 0 <= k < |Visible(names, showAll)| ==> '\n' !in Visible(names, showAll)[k]
  {
    if names != [] {
      VisibleNoNewline(names[1..], showAll);
    }
  }

  lemma PermutedNoNewline(a: seq<string>, b: seq<string>)
    requires forall k :: 0 <= k < |a| ==> '\n' !in a[k]
    requires multiset(a) == multiset(b)
    ensures forall k :: 0 <= k < |b| ==> '\n' !in b[k]
  {
    forall k | 0 <= k < |b|
      ensures '\n' !in b[k]
    {
      assert b[k] in multiset(a);
      var j :| 0 <= j < |a| && a[j] == b[k];
    }
  }

  /** `reveal`. */
  method RevealCommand(args: seq<string>, prev: Option<string>, getcwd: Result,
                       listing: string -> Option<seq<string>>) returns (ok: bool, out: seq<Line>)
    ensures RevealOutcome(ok, out) == RevealSpec(args, prev, getcwd, listing)
  {
    var opts := ParseArgs(args);
    if opts.BadSyntax? {
      return false, [Out("reveal: Invalid Syntax!\n")];
    }
    var t := TargetPath(opts.path, prev, getcwd);
    if t.Stop? {
      return false, [t.line];
    }
    var target := t.path;
    var entries := listing(target);
    if entries.None? {
      return false, [Out("No such directory!\n")];
    }
    var kept := Collect(entries.value, opts.showAll);
    var names := SortBy(kept, Identity);
    return true, [Out(Listing(names, opts.lineByLine))];
  }
}
