/** The read loop of `main` for one line, and the prompt. The home directory
    is the working directory at startup, not `$HOME`; the user and host
    names are given, and `getcwd` is an oracle that says whether the
    current directory could be read. */
module Shell {
  import opened Text
  import Parser
  import History
  import Jobs
  import Executor

  /** `MAX_BUFFER_SIZE`, the size of every path and prompt buffer. */
  const BufferSize: nat := 4096

  /** The path the prompt shows: `~` and the rest when the home directory
      is a prefix of the working directory as a plain string, the working
      directory itself otherwise. */
  function PromptPath(cwd: string, home: string): (p: string)
    ensures home <= cwd ==> |p| == |cwd| - |home| + 1 && p[0] == '~' && home + p[1..] == cwd
    ensures !(home <= cwd) ==> p == cwd
  {
    if home <= cwd then "~" + cwd[|home|..] else cwd
  }

  /** `<user@host:path> `. */
  function Prompt(user: string, host: string, cwd: string, home: string): string {
    "<" + user + "@" + host + ":" + PromptPath(cwd, home) + "> "
  }

  /** What `display_prompt` writes: the prompt, or the `getcwd` error. */
  function DisplayPrompt(user: string, host: string, cwd: string, home: string, getcwd: Call): (l: Line)
    ensures l.Out? <==> getcwd.Succeeded?
    ensures l.Out? ==> |l.text| >= 4 && l.text[0] == '<' && l.text[|l.text| - 2..] == "> "
  {
    if getcwd.Failed? then Perror("getcwd failed", getcwd.errno)
    else Out(Prompt(user, host, cwd, home))
  }

  /** A token after `~` expansion: a leading `~` becomes the home directory,
      the result cut to what `snprintf` leaves in a 4096-byte buffer. */
  function Expand(t: string, home: string): (r: string)
    ensures (t == [] || t[0] != '~') ==> r == t
    ensures t != [] && t[0] == '~' && |home| <= BufferSize - 1 ==> home <= r
    ensures |r| <= BufferSize - 1 || r == t
  {
    if t != [] && t[0] == '~' then Prefix(home + t[1..], BufferSize - 1) else t
  }

  /** Expanding the path the prompt shows gives back the working directory:
      the abbreviation and the expansion are inverse whenever the prompt
      abbreviates and the path fits the buffer. */
  lemma ExpandPromptPath(cwd: string, home: string)
    requires home <= cwd && |cwd| <= BufferSize - 1
    ensures Expand(PromptPath(cwd, home), home) == cwd
  {
    var p := PromptPath(cwd, home);
    assert p[1..] == cwd[|home|..];
    assert home + cwd[|home|..] == cwd;
  }

  /** The line cut at its first newline. */
  function Cleaned(line: string): (r: string)
    ensures r <= line && '\n' !in r
    ensures |r| < |line| ==> line[|r|] == '\n'
  {
    if line == [] || line[0] == '\n' then [] else [line[0]] + Cleaned(line[1..])
  }

  /** Cleaning a clean line changes nothing. */
  lemma CleanedIdempotent(line: string)
    ensures Cleaned(Cleaned(line)) == Cleaned(line)
  {
    CleanedOfClean(Cleaned(line));
  }

  lemma {:induction false} CleanedOfClean(s: string)
    requires '\n' !in s
    ensures Cleaned(s) == s
  {
    if s != [] {
      CleanedOfClean(s[1..]);
    }
  }

  /** Empty, or made only of space, tab, CR and LF. */
  predicate IsBlankLine(s: string) {
    forall i :: 0 <= i < |s| ==> IsBlank(s[i])
  }

  /** What the loop does with a line it has read. */
  datatype Plan = Skip | Invalid | Run(tokens: seq<string>)

  function PlanFor(line: string, home: string): (p: Plan)
    requires Parser.TokensFit(Parser.Trimmed(Cleaned(line)))
    ensures p.Skip? <==> IsBlankLine(Cleaned(line))
    ensures p.Run? ==> |p.tokens| == |Parser.Tokens(Cleaned(line))| <= Parser.MaxTokens
  {
    var c := Cleaned(line);
    if IsBlankLine(c) then Skip
    else if !(Parser.Trimmed(c) == [] || Parser.Grammatical(Parser.Tokens(Parser.Trimmed(c)))) then Invalid
    else Run(ExpandAll(Parser.Tokens(c), home))
  }

  function ExpandAll(ts: seq<string>, home: string): (r: seq<string>)
    ensures |r| == |ts|
  {
    seq(|ts|, k requires 0 <= k < |ts| => Expand(ts[k], home))
  }

  /** The `expanded_args` loop: each token expanded, then a NULL. */
  method ExpandTokens(tokens: seq<string>, home: string) returns (expanded: array<Option<string>>)
    ensures fresh(expanded) && expanded.Length == |tokens| + 1
    ensures forall k :: 0 <= k < |tokens| ==> expanded[k] == Some(Expand(tokens[k], home))
    ensures expanded[|tokens|] == None
  {
    expanded := new Option<string>[|tokens| + 1](_ => None);
    var i := 0;
    while i < |tokens|
      invariant i <= |tokens|
      invariant forall k :: 0 <= k < i ==> expanded[k] == Some(Expand(tokens[k], home))
      invariant expanded[|tokens|] == None
    {
      var t := tokens[i];
      if |t| > 0 && t[0] == '~' {
        expanded[i] := Some(Prefix(home + t[1..], BufferSize - 1));
      } else {
        expanded[i] := Some(t);
      }
      i := i + 1;
    }
  }

  /** What one pass of the loop reports: the plan it followed, the messages
      it printed, and the segments handed to `execute_pipeline`. */
  datatype Pass = Pass(plan: Plan, out: seq<Line>, segments: seq<Executor.Segment>)

  /** One pass of the read loop after `getline`: clean, skip a blank line,
      log, validate, tokenize, expand and execute. `results` are the wait
      results of the interactive poll in `execute`, one per job. */
  method ProcessLine(line: string, home: string, history: History.Log, table: Jobs.JobTable,
                     results: seq<Jobs.WaitResult>, interactive: bool) returns (pass: Pass)
    requires '\0' !in line
    requires Parser.TokensFit(Parser.Trimmed(Cleaned(line))) && Parser.TokensFit(Cleaned(line))
    requires history.Valid() && table.Valid() && (interactive ==> |results| == table.count)
    modifies history, history.entries, table, table.slots
    ensures pass.plan == PlanFor(line, home)
    ensures history.Valid() && history.entries == old(history.entries)
    ensures table.Valid() && table.slots == old(table.slots) && table.nextNumber == old(table.nextNumber)
    ensures pass.plan.Skip? ==> history.Entries() == old(history.Entries())
    ensures !pass.plan.Skip? ==> history.Entries() == History.Recorded(old(history.Entries()), Cleaned(line))
    ensures pass.plan.Invalid? ==> pass.out == [Out("Invalid Syntax!\n")]
    ensures pass.plan.Run? && pass.plan.tokens != [] ==> pass.segments == Executor.Split(pass.plan.tokens)
    ensures pass.plan.Run? && pass.plan.tokens != [] && interactive ==>
      table.Jobs() == Jobs.Polled(old(table.Jobs()), results, |results|)
      && pass.out == Jobs.PollNotices(old(table.Jobs()), results, true, |results|)
    ensures !(pass.plan.Run? && pass.plan.tokens != [] && interactive) ==> table.Jobs() == old(table.Jobs())
    ensures !pass.plan.Invalid? && !(pass.plan.Run? && pass.plan.tokens != [] && interactive) ==> pass.out == []
    ensures !(pass.plan.Run? && pass.plan.tokens != []) ==> pass.segments == []
  {
    var clean := Cleaned(line);
    if IsBlankLine(clean) {
      return Pass(Skip, [], []);
    }
    history.Add(clean);
    assert '\0' !in clean;
    var ok := Parser.ParseInput(clean);
    if !ok {
      return Pass(Invalid, [Out("Invalid Syntax!\n")], []);
    }
    var args, out, segments := RunLine(clean, home, table, results, interactive);
    pass := Pass(Run(args), out, segments);
  }

  /** Tokenize a valid line, expand `~` and hand the tokens to `execute`
      when there are any. */
  method RunLine(clean: string, home: string, table: Jobs.JobTable,
                 results: seq<Jobs.WaitResult>, interactive: bool)
    returns (args: seq<string>, out: seq<Line>, segments: seq<Executor.Segment>)
    requires Parser.TokensFit(clean)
    requires table.Valid() && (interactive ==> |results| == table.count)
    modifies table, table.slots
    ensures args == ExpandAll(Parser.Tokens(clean), home)
    ensures table.Valid() && table.slots == old(table.slots) && table.nextNumber == old(table.nextNumber)
    ensures args != [] ==> segments == Executor.Split(args)
    ensures args != [] && interactive ==>
      table.Jobs() == Jobs.Polled(old(table.Jobs()), results, |results|)
      && out == Jobs.PollNotices(old(table.Jobs()), results, true, |results|)
    ensures !(args != [] && interactive) ==> table.Jobs() == old(table.Jobs()) && out == []
    ensures args == [] ==> segments == []
  {
    var tokens := Parser.TokenizeInput(clean);
    var expanded := ExpandTokens(tokens, home);
    args := ExpandAll(tokens, home);
    if |tokens| == 0 {
      return args, [], [];
    }
    assert Executor.Values(expanded[..|tokens|]) == args;
    var _, cut, notices := Executor.Execute(expanded, |tokens|, table, results, interactive);
    out, segments := notices, cut;
  }
}
