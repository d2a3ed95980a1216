/** `execute`: a token line is cut at each `;` or `&` into segments that are
    run one after the other, a segment ended by `&` in the background. The
    separators are overwritten with NULL in the caller's token array, so
    each segment is followed there by a NULL. */
module Executor {
  import opened Text
  import opened Jobs
  import opened Parser

  /** One segment handed to `execute_pipeline`: its tokens, whether it runs
      in the background, the job name it is given, and whether a separator
      ended it (only a trailing segment is unterminated). */
  datatype Segment = Segment(tokens: seq<string>, background: bool, name: string, terminated: bool)

  /** The separator that ended a segment, if any. */
  function Ending(g: Segment): seq<string> {
    if !g.terminated then [] else if g.background then ["&"] else [";"]
  }

  /** The segments written back out, each followed by its separator. */
  function Joined(gs: seq<Segment>): seq<string> {
    if gs == [] then [] else gs[0].tokens + Ending(gs[0]) + Joined(gs[1..])
  }

  /** The segments of `ts[s..]`, where the tokens `ts[s..i]` are already
      known to hold no separator. */
  function SplitFrom(ts: seq<string>, s: nat, i: nat): seq<Segment>
    requires s <= i <= |ts|
    decreases |ts| - i
  {
    if i == |ts| then
      if s < |ts| then [Segment(ts[s..], false, ts[s], false)] else []
    else if IsSeparator(ts[i]) then
      [Segment(ts[s..i], ts[i] == "&", if s < i then ts[s] else "", true)] + SplitFrom(ts, i + 1, i + 1)
    else SplitFrom(ts, s, i + 1)
  }

  /** The segments of a token line, left to right. */
  function Split(ts: seq<string>): seq<Segment> {
    SplitFrom(ts, 0, 0)
  }

  /** A NULL-terminated token array as strings; a NULL never occurs below the
      token count. */
  function Values(a: seq<Option<string>>): (r: seq<string>)
    ensures |r| == |a|
    ensures forall k :: 0 <= k < |a| && a[k].Some? ==> r[k] == a[k].value
  {
    seq(|a|, k requires 0 <= k < |a| => if a[k].Some? then a[k].value else "")
  }

  /** The token array after `execute`: separators below `count` are NULL,
      everything else as it was. */
  function Nulled(a: seq<Option<string>>, count: nat): (r: seq<Option<string>>)
    requires count <= |a|
  {
    seq(|a|, k requires 0 <= k < |a| =>
      if k < count && a[k].Some? && IsSeparator(a[k].value) then None else a[k])
  }

  /** Writing the segments back out, each with its separator, gives the
      line again: the segments partition the tokens, in order. */
  lemma {:induction false} SplitJoined(ts: seq<string>, s: nat, i: nat)
    requires s <= i <= |ts|
    requires forall k :: s <= k < i ==> !IsSeparator(ts[k])
    ensures Joined(SplitFrom(ts, s, i)) == ts[s..]
    decreases |ts| - i
  {
    if i == |ts| {
      LastJoined(ts, s);
    } else if IsSeparator(ts[i]) {
      SplitJoined(ts, i + 1, i + 1);
      SeparatorJoined(ts, s, i);
      SliceAround(ts, s, i);
    } else {
      SplitJoined(ts, s, i + 1);
    }
  }

  /** The unterminated last segment is written back as it stands. */
  lemma LastJoined(ts: seq<string>, s: nat)
    requires s <= |ts|
    ensures Joined(SplitFrom(ts, s, |ts|)) == ts[s..]
  {
    if s < |ts| {
      var g := Segment(ts[s..], false, ts[s], false);
      assert Joined([g]) == ts[s..] + Joined([]);
    }
  }

  lemma SliceAround(ts: seq<string>, s: nat, i: nat)
    requires s <= i < |ts|
    ensures ts[s..] == ts[s..i] + [ts[i]] + ts[i + 1..]
  {
  }

  /** A separator at `i` closes the segment `ts[s..i]`, and writing it back
      out puts the separator after the segment's tokens. */
  lemma SeparatorJoined(ts: seq<string>, s: nat, i: nat)
    requires s <= i < |ts| && IsSeparator(ts[i])
    ensures Joined(SplitFrom(ts, s, i)) == ts[s..i] + [ts[i]] + Joined(SplitFrom(ts, i + 1, i + 1))
  {
    var g := Segment(ts[s..i], ts[i] == "&", if s < i then ts[s] else "", true);
    var rest := SplitFrom(ts, i + 1, i + 1);
    assert SplitFrom(ts, s, i) == [g] + rest;
    assert ([g] + rest)[1..] == rest;
    assert Ending(g) == [ts[i]];
  }

  /** A segment is a run of non-separator tokens named after its first
      token, or "" when it is empty; an unterminated one is a non-empty
      foreground run. */
  predicate SegmentShape(g: Segment) {
    && (forall t :: 0 <= t < |g.tokens| ==> !IsSeparator(g.tokens[t]))
    && g.name == (if g.tokens == [] then "" else g.tokens[0])
    && (!g.terminated ==> g.tokens != [] && !g.background)
  }

  /** Every segment has that shape, and only the last may be unterminated. */
  lemma {:induction false} SplitShape(ts: seq<string>, s: nat, i: nat)
    requires s <= i <= |ts|
    requires forall k :: s <= k < i ==> !IsSeparator(ts[k])
    ensures forall k :: 0 <= k < |SplitFrom(ts, s, i)| ==> SegmentShape(SplitFrom(ts, s, i)[k])
    ensures forall k :: 0 <= k < |SplitFrom(ts, s, i)| - 1 ==> SplitFrom(ts, s, i)[k].terminated
    decreases |ts| - i
  {
    if i < |ts| {
      if IsSeparator(ts[i]) {
        SplitShape(ts, i + 1, i + 1);
        var g := Segment(ts[s..i], ts[i] == "&", if s < i then ts[s] else "", true);
        var rest := SplitFrom(ts, i + 1, i + 1);
        assert SplitFrom(ts, s, i) == [g] + rest;
        assert forall t :: 0 <= t < |g.tokens| ==> g.tokens[t] == ts[s + t];
        assert SegmentShape(g);
      } else {
        SplitShape(ts, s, i + 1);
      }
    } else if s < |ts| {
      var g := Segment(ts[s..], false, ts[s], false);
      assert forall t :: 0 <= t < |g.tokens| ==> g.tokens[t] == ts[s + t];
      assert SegmentShape(g);
    }
  }

  /** `execute`. `results` are the wait results the interactive poll gets,
      one per job in the table. The segments are returned in the order
      `execute_pipeline` is called on them; each is followed by a NULL in
      the array. */
  method Execute(tokens: array<Option<string>>, count: nat, table: JobTable,
                 results: seq<WaitResult>, interactive: bool)
    returns (ok: bool, segments: seq<Segment>, notices: seq<Line>)
    requires count <= tokens.Length && forall k :: 0 <= k < count ==> tokens[k].Some?
    requires table.Valid() && (interactive ==> |results| == table.count)
    modifies tokens, table, table.slots
    ensures ok <==> count > 0
    ensures table.Valid() && table.slots == old(table.slots) && table.nextNumber == old(table.nextNumber)
    ensures !ok ==> tokens[..] == old(tokens[..]) && table.Jobs() == old(table.Jobs()) && notices == [] && segments == []
    ensures ok ==> segments == Split(Values(old(tokens[..count])))
    ensures ok ==> tokens[..] == Nulled(old(tokens[..]), count)
    ensures ok && interactive ==>
      table.Jobs() == Polled(old(table.Jobs()), results, |results|)
      && notices == PollNotices(old(table.Jobs()), results, true, |results|)
    ensures ok && !interactive ==> table.Jobs() == old(table.Jobs()) && notices == []
  {
    if count == 0 {
      return false, [], [];
    }
    ok, notices := true, [];
    if interactive {
      notices := table.Poll(results, true);
    }
    segments := CutSegments(tokens, count);
  }

  /** The separator loop of `execute`. */
  method CutSegments(tokens: array<Option<string>>, count: nat) returns (segments: seq<Segment>)
    requires count <= tokens.Length && forall k :: 0 <= k < count ==> tokens[k].Some?
    modifies tokens
    ensures segments == Split(Values(old(tokens[..count])))
    ensures tokens[..] == Nulled(old(tokens[..]), count)
  {
    ghost var before := tokens[..];
    ghost var ts := Values(tokens[..count]);
    segments := [];
    var cmdStart: nat := 0;
    var i: nat := 0;
    CutStart(before, count, ts);
    while i < count
      invariant CutUpTo(before, count, ts, i, cmdStart, segments, tokens[..])
    {
      i, cmdStart, segments := CutStep(tokens, count, i, cmdStart, segments, before, ts);
    }
    if cmdStart < count {
      var g := SegmentAt(tokens, cmdStart, count, false, false);
      LastStep(before, count, ts, cmdStart, g);
      segments := segments + [g];
    }
  }

  /** The loop of `execute` has looked at the tokens below `i`: it has cut
      `segments`, the current segment starts at `s`, and the separators
      below `i` are NULL. */
  ghost predicate CutUpTo(before: seq<Option<string>>, count: nat, ts: seq<string>, i: nat, s: nat,
                          segments: seq<Segment>, cur: seq<Option<string>>)
  {
    && count <= |before| && (forall k :: 0 <= k < count ==> before[k].Some?) && ts == Values(before[..count])
    && s <= i <= count && (forall k :: s <= k < i ==> !IsSeparator(ts[k]))
    && segments + SplitFrom(ts, s, i) == Split(ts)
    && cur == Nulled(before, i)
  }

  lemma CutStart(before: seq<Option<string>>, count: nat, ts: seq<string>)
    requires count <= |before| && (forall k :: 0 <= k < count ==> before[k].Some?) && ts == Values(before[..count])
    ensures CutUpTo(before, count, ts, 0, 0, [], before)
  {
    assert Nulled(before, 0) == before;
  }

  /** One pass of the separator loop. */
  method CutStep(tokens: array<Option<string>>, count: nat, i: nat, s: nat, segments: seq<Segment>,
                 ghost before: seq<Option<string>>, ghost ts: seq<string>)
    returns (i': nat, s': nat, segments': seq<Segment>)
    requires i < count && CutUpTo(before, count, ts, i, s, segments, tokens[..])
    modifies tokens
    ensures i' == i + 1 && CutUpTo(before, count, ts, i', s', segments', tokens[..])
  {
    NulledAt(before, count, i);
    var t := tokens[i].value;
    NulledStep(before, count, i);
    if t == ";" || t == "&" {
      tokens[i] := None;
      var g := SegmentAt(tokens, s, i, t == "&", true);
      SeparatorStep(before, count, ts, s, i, g);
      CutAfterSeparator(ts, s, i, segments, g);
      segments', s' := segments + [g], i + 1;
    } else {
      segments', s' := segments, s;
    }
    i' := i + 1;
  }

  lemma NulledAt(before: seq<Option<string>>, count: nat, i: nat)
    requires i < count <= |before| && before[i].Some?
    ensures Nulled(before, i)[i] == before[i]
  {
  }

  lemma CutAfterSeparator(ts: seq<string>, s: nat, i: nat, segments: seq<Segment>, g: Segment)
    requires s <= i < |ts| && segments + SplitFrom(ts, s, i) == Split(ts)
    requires SplitFrom(ts, s, i) == [g] + SplitFrom(ts, i + 1, i + 1)
    ensures (segments + [g]) + SplitFrom(ts, i + 1, i + 1) == Split(ts)
  {
  }

  /** The segment `[s, e)` as the loop reads it back from the array. */
  method SegmentAt(tokens: array<Option<string>>, s: nat, e: nat, background: bool, terminated: bool)
    returns (g: Segment)
    requires s <= e <= tokens.Length
    ensures g.tokens == Values(tokens[s..e]) && g.background == background && g.terminated == terminated
    ensures g.name == if s < e && tokens[s].Some? then tokens[s].value else ""
  {
    var name := if s < e && tokens[s].Some? then tokens[s].value else "";
    g := Segment(Values(tokens[s..e]), background, name, terminated);
  }

  lemma NulledStep(before: seq<Option<string>>, count: nat, i: nat)
    requires i < count <= |before| && before[i].Some?
    ensures Nulled(before, i + 1) ==
      if IsSeparator(before[i].value) then Nulled(before, i)[i := None] else Nulled(before, i)
  {
  }

  lemma SeparatorStep(before: seq<Option<string>>, count: nat, ts: seq<string>, s: nat, i: nat, g: Segment)
    requires count <= |before| && forall k :: 0 <= k < count ==> before[k].Some?
    requires ts == Values(before[..count]) && s <= i < count && IsSeparator(ts[i])
    requires forall k :: s <= k < i ==> !IsSeparator(ts[k])
    requires g.tokens == Values(Nulled(before, i + 1)[s..i]) && g.background == (ts[i] == "&") && g.terminated
    requires g.name == if s < i && Nulled(before, i + 1)[s].Some? then Nulled(before, i + 1)[s].value else ""
    ensures SplitFrom(ts, s, i) == [g] + SplitFrom(ts, i + 1, i + 1)
  {
    assert g.tokens == ts[s..i];
  }

  lemma LastStep(before: seq<Option<string>>, count: nat, ts: seq<string>, s: nat, g: Segment)
    requires count <= |before| && forall k :: 0 <= k < count ==> before[k].Some?
    requires ts == Values(before[..count]) && s < count
    requires forall k :: s <= k < count ==> !IsSeparator(ts[k])
    requires g.tokens == Values(Nulled(before, count)[s..count]) && !g.background && !g.terminated
    requires g.name == if Nulled(before, count)[s].Some? then Nulled(before, count)[s].value else ""
    ensures SplitFrom(ts, s, count) == [g]
  {
    assert g.tokens == ts[s..];
  }
}
