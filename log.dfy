/** The command history behind the `log` builtin: at most fifteen lines,
    oldest first, kept in a fixed array that is shifted when full. */
module History {
  import opened Text
  import Parser

  /** `MAX_HISTORY_SIZE`. */
  const MaxHistory: nat := 15

  // ---------------------------------------------------------------------
  // Which commands are recorded

  /** The end of the field starting at `i`: the next character of `d`,
      or the end. */
  function FieldEnd(s: string, i: nat, d: set<char>): (k: nat)
    requires i <= |s|
    ensures i <= k <= |s|
    ensures forall t :: i <= t < k ==> s[t] !in d
    ensures k < |s| ==> s[k] in d
  {
    ScanTo(s, i, c => c in d)
  }

  /** The fields `strtok_r` returns for delimiter set `d`: the maximal
      non-empty runs of characters outside `d`, in order. */
  function Fields(s: string, d: set<char>): (r: seq<string>)
    ensures forall k :: 0 <= k < |r| ==> r[k] != [] && forall c <- r[k] :: c !in d
    decreases |s|
  {
    if s == [] then []
    else if s[0] in d then Fields(s[1..], d)
    else
      var e := FieldEnd(s, 0, d);
      [s[..e]] + Fields(s[e..], d)
  }

  const SegmentDelims: set<char> := {';', '&'}
  const StageDelims: set<char> := {'|'}

  /** The first index from `i` on that is not white space, or the end. */
  function SpaceEnd(s: string, i: nat): (k: nat)
    requires i <= |s|
    ensures i <= k <= |s|
    ensures forall t :: i <= t < k ==> IsSpace(s[t])
    ensures k < |s| ==> !IsSpace(s[k])
  {
    ScanTo(s, i, c => !IsSpace(c))
  }

  /** The first index from `i` on that is white space, or the end. */
  function WordEnd(s: string, i: nat): (k: nat)
    requires i <= |s|
    ensures i <= k <= |s|
    ensures forall t :: i <= t < k ==> !IsSpace(s[t])
    ensures k < |s| ==> IsSpace(s[k])
  {
    ScanTo(s, i, IsSpace)
  }

  /** The first white-space-delimited word of a stage. */
  function FirstWord(p: string): string {
    var a := SpaceEnd(p, 0);
    p[a..WordEnd(p, a)]
  }

  /** Some `|`-stage of segment `g` starts with the word `log`. */
  predicate StageSaysLog(g: string) {
    exists j :: 0 <= j < |Fields(g, StageDelims)| && FirstWord(Fields(g, StageDelims)[j]) == "log"
  }

  /** Some stage of some `;`/`&` segment of the command starts with `log`. */
  predicate MentionsLog(command: string) {
    exists i :: 0 <= i < |Fields(command, SegmentDelims)| && StageSaysLog(Fields(command, SegmentDelims)[i])
  }

  /** The history after `add_to_log(command)`: unchanged for a command
      that runs `log` or repeats the newest entry; otherwise the command is
      appended, the oldest entry dropped first when the history is full. */
  function Recorded(h: seq<string>, command: string): (r: seq<string>)
    ensures |h| <= MaxHistory ==> |r| <= MaxHistory
    ensures MentionsLog(command) || (h != [] && h[|h| - 1] == command) ==> r == h
    ensures !MentionsLog(command) ==> r != [] && r[|r| - 1] == command
    ensures r == h || r == h + [command] || (|h| >= MaxHistory && r == h[1..] + [command])
  {
    if MentionsLog(command) then h
    else if h != [] && h[|h| - 1] == command then h
    else if |h| >= MaxHistory then h[1..] + [command]
    else h + [command]
  }

  /** Recording the same command twice in a row records it once. */
  lemma RecordedIdempotent(h: seq<string>, command: string)
    ensures Recorded(Recorded(h, command), command) == Recorded(h, command)
  {
    if !MentionsLog(command) {
      var r := Recorded(h, command);
      assert r[|r| - 1] == command;
    }
  }

  /** A recorded command is entry 1 of `log execute`, and the entries that
      stay keep their order: entry `n` becomes entry `n + 1`. */
  lemma RecordedNumbering(h: seq<string>, command: string, n: nat)
    requires |h| <= MaxHistory && !MentionsLog(command) && (h == [] || h[|h| - 1] != command)
    requires 1 <= n <= |h| && (n < |h| || |h| < MaxHistory)
    ensures var r := Recorded(h, command);
      && Newest(r, 1) == command
      && n + 1 <= |r| && Newest(r, n + 1) == Newest(h, n)
  {
  }

  /** Entry `n` counted from the newest, as `log execute n` addresses it. */
  function Newest(h: seq<string>, n: nat): string
    requires 1 <= n <= |h|
  {
    h[|h| - n]
  }

  // ---------------------------------------------------------------------
  // The history file

  /** The first newline from `i` on, or the end. */
  function LineEnd(s: string, i: nat): (k: nat)
    requires i <= |s|
    ensures i <= k <= |s|
    ensures forall t :: i <= t < k ==> s[t] != '\n'
    ensures k < |s| ==> s[k] == '\n'
  {
    ScanTo(s, i, c => c == '\n')
  }

  /** The lines `getline` reads from the file, each cut at its newline. */
  function FileLines(text: string): (r: seq<string>)
    ensures forall k :: 0 <= k < |r| ==> '\n' !in r[k]
    decreases |text|
  {
    if text == [] then []
    else
      var e := LineEnd(text, 0);
      if e < |text| then [text[..e]] + FileLines(text[e + 1..]) else [text[..e]]
  }

  lemma {:induction false} LineEndShift(s: string, p: nat, j: nat)
    requires p + j <= |s|
    ensures LineEnd(s[p..], j) == LineEnd(s, p + j) - p
    decreases |s| - p - j
  {
    if p + j < |s| && s[p + j] != '\n' {
      LineEndShift(s, p, j + 1);
    }
  }

  /** What `save_history` writes: each entry followed by a newline. */
  function SavedText(h: seq<string>): string {
    if h == [] then [] else h[0] + "\n" + SavedText(h[1..])
  }

  /** Loading what was saved gives the history back, as long as no entry
      holds a newline. */
  lemma {:induction false} LoadSaved(h: seq<string>)
    requires forall k :: 0 <= k < |h| ==> '\n' !in h[k]
    ensures FileLines(SavedText(h)) == h
  {
    if h != [] {
      FileLinesCons(h[0], SavedText(h[1..]));
      LoadSaved(h[1..]);
    }
  }

  /** A line without a newline, the newline and the rest read back as that
      line followed by the lines of the rest. */
  lemma FileLinesCons(a: string, rest: string)
    requires '\n' !in a
    ensures FileLines(a + "\n" + rest) == [a] + FileLines(rest)
  {
    var text := a + "\n" + rest;
    var e := LineEnd(text, 0);
    assert forall t :: 0 <= t < |a| ==> text[t] == a[t];
    assert text[|a|] == '\n';
    assert e == |a|;
    assert text[..e] == a;
    assert text[e + 1..] == rest;
  }

  /** The first `n` elements of `s`, or all of them. */
  function Take(s: seq<string>, n: nat): (r: seq<string>)
    ensures |r| == Min(|s|, n) && r <= s
  {
    if |s| <= n then s else s[..n]
  }

  // ---------------------------------------------------------------------
  // `log execute`

  /** What `execute_from_history` does with index `n`. */
  datatype Recall =
    | BadIndex        // outside 1..count
    | NoTokens        // the entry has no tokens
    | LogRefused      // the entry starts with `log`
    | Run(tokens: seq<string>)

  function RecallFrom(h: seq<string>, n: int): (r: Recall)
    ensures r.BadIndex? <==> !(1 <= n <= |h|)
    ensures r.Run? ==> r.tokens == Parser.Tokens(Newest(h, n)) && r.tokens != [] && r.tokens[0] != "log"
  {
    if !(1 <= n <= |h|) then BadIndex
    else
      var tokens := Parser.Tokens(Newest(h, n));
      if tokens == [] then NoTokens
      else if tokens[0] == "log" then LogRefused
      else Run(tokens)
  }

  function RecallMessage(r: Recall): seq<Line> {
    match r
    case BadIndex => [Err("Invalid history index.\n")]
    case LogRefused => [Err("Cannot execute 'log' command from history.\n")]
    case _ => []
  }

  /** The two checks for `log` differ: `add_to_log` looks at white-space
      words, the replay at tokens, so `log>x` is recorded and then refused
      by `log execute 1`. */
  lemma ReplayCanRefuse()
    ensures Recorded([], "log>x") == ["log>x"]
    ensures RecallFrom(["log>x"], 1) == LogRefused
  {
    NotRecordedAsLog();
    ScannedAsLog();
  }

  lemma NotRecordedAsLog()
    ensures !MentionsLog("log>x")
  {
    var c := "log>x";
    WholeField(c, SegmentDelims);
    WholeField(c, StageDelims);
    WholeWord(c);
  }

  /** A string without delimiters is one field. */
  lemma WholeField(c: string, d: set<char>)
    requires c != [] && forall t :: 0 <= t < |c| ==> c[t] !in d
    ensures Fields(c, d) == [c]
  {
    var e := FieldEnd(c, 0, d);
    assert c[..e] == c && c[e..] == [];
  }

  /** A string without white space is its own first word. */
  lemma WholeWord(c: string)
    requires c != [] && forall t :: 0 <= t < |c| ==> !IsSpace(c[t])
    ensures FirstWord(c) == c
  {
    assert SpaceEnd(c, 0) == 0;
    assert c[0..|c|] == c;
  }

  lemma ScannedAsLog()
    ensures var t := Parser.Tokens("log>x"); t != [] && t[0] == "log"
  {
    var c := "log>x";
    assert Parser.WordEnd(c, 0) == 3;
    assert Parser.NextToken(c, 0) == (c[0..3], 3);
    assert c[0..3] == "log";
    assert Parser.Tokens(c) == ["log"] + Parser.Lex(c, 3, Parser.MaxTokens - 1);
  }

  // ---------------------------------------------------------------------
  // `log` itself

  /** The outcome of one `log` call: its return value, its output, the
      history afterwards and the token line it hands to `execute`. */
  datatype LogOutcome = LogOutcome(ok: bool, out: seq<Line>, history: seq<string>, run: Option<seq<string>>)

  function HistoryLines(h: seq<string>): (r: seq<Line>)
    ensures |r| == |h| && forall k :: 0 <= k < |h| ==> r[k] == Out(h[k] + "\n")
  {
    if h == [] then [] else [Out(h[0] + "\n")] + HistoryLines(h[1..])
  }

  /** `handle_log_command`. */
  function LogCommand(h: seq<string>, args: seq<string>): (o: LogOutcome)
    ensures o.ok <==> |args| == 0 || args == ["purge"] || (|args| == 2 && args[0] == "execute")
    ensures o.history == (if args == ["purge"] then [] else h)
    ensures o.run.Some? ==> |args| == 2 && RecallFrom(h, Atoi(args[1])) == Run(o.run.value)
  {
    if |args| == 0 then LogOutcome(true, HistoryLines(h), h, None)
    else if |args| == 1 && args[0] == "purge" then LogOutcome(true, [], [], None)
    else if |args| == 2 && args[0] == "execute" then
      var r := RecallFrom(h, Atoi(args[1]));
      LogOutcome(true, RecallMessage(r), h, if r.Run? then Some(r.tokens) else None)
    else LogOutcome(false, [Err("log: Invalid Syntax!\n")], h, None)
  }

  // ---------------------------------------------------------------------
  // The history array, updated in place

  class Log {
    /** `history`. */
    var entries: array<string>
    /** `history_count`. */
    var count: nat

    ghost predicate Valid()
      reads this
    {
      entries.Length == MaxHistory && count <= MaxHistory
    }

    /** The entries, oldest first. */
    function Entries(): seq<string>
      reads this, entries
      requires count <= entries.Length
    {
      entries[..count]
    }

    constructor ()
      ensures Valid() && fresh(entries) && Entries() == []
    {
      entries := new string[MaxHistory](_ => "");
      count := 0;
    }

    /** The nested `strtok_r` loops of `add_to_log`. */
    static method FindLog(command: string) returns (found: bool)
      ensures found == MentionsLog(command)
    {
      var segments := Fields(command, SegmentDelims);
      found := false;
      var i := 0;
      while i < |segments| && !found
        invariant 0 <= i <= |segments|
        invariant found ==> MentionsLog(command)
        invariant !found ==> forall k :: 0 <= k < i ==> !StageSaysLog(segments[k])
      {
        var stages := Fields(segments[i], StageDelims);
        var j := 0;
        while j < |stages| && !found
          invariant 0 <= j <= |stages|
          invariant found ==> StageSaysLog(segments[i])
          invariant !found ==> forall k :: 0 <= k < j ==> FirstWord(stages[k]) != "log"
        {
          var word := FirstWordOf(stages[j]);
          if word == "log" {
            found := true;
          }
          j := j + 1;
        }
        i := i + 1;
      }
    }

    /** The two pointer walks that isolate a stage's first word. */
    static method FirstWordOf(p: string) returns (word: string)
      ensures word == FirstWord(p)
    {
      var first := 0;
      while first < |p| && IsSpace(p[first])
        invariant first <= |p| && SpaceEnd(p, first) == SpaceEnd(p, 0)
      {
        first := first + 1;
      }
      var end := first;
      while end < |p| && !IsSpace(p[end])
        invariant first <= end <= |p|
        invariant WordEnd(p, end) == WordEnd(p, first)
      {
        end := end + 1;
      }
      word := p[first..end];
    }

    /** `add_to_log`. */
    method Add(command: string)
      requires Valid()
      modifies this, entries
      ensures Valid() && entries == old(entries)
      ensures Entries() == Recorded(old(Entries()), command)
    {
      ghost var h := Entries();
      var found := FindLog(command);
      if found {
        return;
      }
      if count > 0 && entries[count - 1] == command {
        return;
      }
      if count >= MaxHistory {
        assert h == entries[..];
        ShiftDown();
        ghost var shifted := entries[..MaxHistory - 1];
        entries[MaxHistory - 1] := command;
        assert entries[..MaxHistory - 1] == shifted == h[1..];
        assert Entries() == entries[..MaxHistory - 1] + [command];
      } else {
        entries[count] := command;
        count := count + 1;
      }
    }

    /** The shift of a full history: every entry moves down one slot. */
    method ShiftDown()
      requires Valid() && count == MaxHistory
      modifies entries
      ensures entries[..MaxHistory - 1] == old(entries[1..])
    {
      ghost var before := entries[..];
      var i := 1;
      while i < MaxHistory
        invariant 1 <= i <= MaxHistory
        invariant forall k :: 0 <= k < i - 1 ==> entries[k] == before[k + 1]
        invariant forall k :: i - 1 <= k < MaxHistory ==> entries[k] == before[k]
      {
        entries[i - 1] := entries[i];
        i := i + 1;
      }
      ShiftedDown(before, entries[..]);
    }

    static lemma ShiftedDown(before: seq<string>, after: seq<string>)
      requires |before| == |after| == MaxHistory
      requires forall k :: 0 <= k < MaxHistory - 1 ==> after[k] == before[k + 1]
      ensures after[..MaxHistory - 1] == before[1..]
    {
    }

    /** `print_history`. */
    method Print() returns (out: seq<Line>)
      requires Valid()
      ensures out == HistoryLines(Entries())
    {
      out := [];
      var i := 0;
      while i < count
        invariant i <= count && |out| == i
        invariant forall k :: 0 <= k < i ==> out[k] == Out(entries[k] + "\n")
      {
        out := out + [Out(entries[i] + "\n")];
        i := i + 1;
      }
    }

    /** `purge_history`. */
    method Purge()
      requires Valid()
      modifies this, entries
      ensures Valid() && entries == old(entries) && Entries() == []
    {
      var i := 0;
      while i < count
        modifies entries
        invariant i <= count
      {
        entries[i] := "";
        i := i + 1;
      }
      count := 0;
    }

    /** `execute_from_history`: the token line it hands to `execute`, and
        its message. */
    method ExecuteFromHistory(index: int) returns (r: Recall, out: seq<Line>)
      requires Valid()
      requires 1 <= index <= count ==> Parser.TokensFit(Newest(Entries(), index))
      ensures r == RecallFrom(Entries(), index) && out == RecallMessage(r)
    {
      if index > 0 && index <= count {
        var command := entries[count - index];
        assert command == Newest(Entries(), index);
        var tokens := Parser.TokenizeInput(command);
        assert RecallFrom(Entries(), index) == if tokens == [] then NoTokens else if tokens[0] == "log" then LogRefused else Run(tokens);
        if |tokens| > 0 {
          if tokens[0] == "log" {
            r := LogRefused;
          } else {
            r := Run(tokens);
          }
        } else {
          r := NoTokens;
        }
      } else {
        r := BadIndex;
      }
      out := RecallMessage(r);
    }

    /** `handle_log_command`. */
    method HandleLogCommand(args: seq<string>) returns (ok: bool, out: seq<Line>, run: Option<seq<string>>)
      requires Valid()
      requires |args| == 2 && args[0] == "execute" && 1 <= Atoi(args[1]) <= count ==>
        Parser.TokensFit(Newest(Entries(), Atoi(args[1])))
      modifies this, entries
      ensures Valid() && entries == old(entries)
      ensures LogCommand(old(Entries()), args) == LogOutcome(ok, out, Entries(), run)
    {
      if |args| == 0 {
        out := Print();
        return true, out, None;
      } else if |args| == 1 && args[0] == "purge" {
        Purge();
        return true, [], None;
      } else if |args| == 2 && args[0] == "execute" {
        var r;
        r, out := ExecuteFromHistory(Atoi(args[1]));
        return true, out, if r.Run? then Some(r.tokens) else None;
      }
      return false, [Err("log: Invalid Syntax!\n")], None;
    }

    /** The reading loop of `load_history` over the file's text: every line
        is read, but only while the history has room is it kept. */
    method Load(text: string)
      requires Valid()
      modifies this, entries
      ensures Valid() && entries == old(entries)
      ensures Entries() == Take(old(Entries()) + FileLines(text), MaxHistory)
    {
      ghost var orig := Entries();
      ghost var read: seq<string> := [];
      var p := 0;
      assert text[0..] == text;
      while p < |text|
        invariant entries == old(entries) && LoadedUpTo(text, orig, p, read)
        decreases |text| - p
      {
        p, read := LoadLine(text, p, orig, read);
      }
      assert text[p..] == [];
    }

    /** `read` are the lines before position `p`, and the history holds
        what fits of the entries before the load followed by them. */
    ghost predicate LoadedUpTo(text: string, orig: seq<string>, p: nat, read: seq<string>)
      reads this, entries
    {
      && p <= |text| && Valid()
      && read + FileLines(text[p..]) == FileLines(text)
      && Entries() == Take(orig + read, MaxHistory)
    }

    /** One `getline` of `load_history`: the line from `p`, kept if there is room. */
    method LoadLine(text: string, p: nat, ghost orig: seq<string>, ghost read: seq<string>)
      returns (next: nat, ghost read': seq<string>)
      requires p < |text| && LoadedUpTo(text, orig, p, read)
      modifies this, entries
      ensures entries == old(entries) && p < next && LoadedUpTo(text, orig, next, read')
    {
      var e := p;
      while e < |text| && text[e] != '\n'
        invariant p <= e <= |text|
        invariant LineEnd(text, e) == LineEnd(text, p)
      {
        e := e + 1;
      }
      var line := text[p..e];
      LineStep(text, p, e);
      next := if e < |text| then e + 1 else e;
      read' := read + [line];
      assert read + FileLines(text[p..]) == read' + FileLines(text[next..]);
      Keep(line, orig + read);
      assert orig + read' == (orig + read) + [line];
    }

    /** The `history_count < MAX_HISTORY_SIZE` test of `load_history`. */
    method Keep(line: string, ghost seen: seq<string>)
      requires Valid() && Entries() == Take(seen, MaxHistory)
      modifies this, entries
      ensures Valid() && entries == old(entries)
      ensures Entries() == Take(seen + [line], MaxHistory)
    {
      if count < MaxHistory {
        entries[count] := line;
        count := count + 1;
      }
    }

    /** One line of the file in terms of the text left to read. */
    static lemma LineStep(text: string, p: nat, e: nat)
      requires p < |text| && e == LineEnd(text, p)
      ensures FileLines(text[p..]) == [text[p..e]] + FileLines(text[(if e < |text| then e + 1 else e)..])
    {
      LineEndShift(text, p, 0);
      if e < |text| {
        LineStepMiddle(text, p, e);
      } else {
        LineStepLast(text, p);
        assert text[p..e] == text[p..];
      }
    }

    /** A line ended by a newline: the rest of the file follows it. */
    static lemma LineStepMiddle(text: string, p: nat, e: nat)
      requires p <= e < |text| && e - p == LineEnd(text[p..], 0)
      ensures FileLines(text[p..]) == [text[p..e]] + FileLines(text[e + 1..])
    {
      var t := text[p..];
      assert t[..e - p] == text[p..e];
      assert t[e - p + 1..] == text[e + 1..];
    }

    /** The last line, without a newline: nothing follows it. */
    static lemma LineStepLast(text: string, p: nat)
      requires p < |text| && |text| - p == LineEnd(text[p..], 0)
      ensures FileLines(text[p..]) == [text[p..]] + FileLines(text[|text|..])
    {
      assert text[|text|..] == [];
      assert text[p..][..|text| - p] == text[p..];
    }
  }
}
