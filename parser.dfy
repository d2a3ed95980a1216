/** The input line's syntax: the whitespace trimmer (with its off-by-start
    end computation kept as written), the token classes, the tokenizer and
    the grammar check `parse_input` applies before a line may run. */
module Parser {
  import opened Text

  const MaxTokens: nat := 100
  /** `token_buffer` holds 255 characters and the NUL. */
  const MaxTokenLength: nat := 256

  predicate IsOperatorChar(c: char) {
    c == '|' || c == '&' || c == '>' || c == '<' || c == ';'
  }

  // ---------------------------------------------------------------------
  // trim_whitespace

  /** The number of blanks `start` walks past. */
  function LeadingBlanks(s: string): (k: nat)
    ensures k <= |s|
    ensures forall i :: 0 <= i < k ==> IsBlank(s[i])
    ensures k < |s| ==> !IsBlank(s[k])
  {
    if s != [] && IsBlank(s[0]) then 1 + LeadingBlanks(s[1..]) else 0
  }

  /** Where `end` stops: it moves left from `e` over blanks while it is
      still past `lo`. */
  function ShrinkEnd(s: string, lo: nat, e: int): (r: int)
    requires -1 <= e < |s|
    ensures -1 <= r <= e
    ensures r > lo ==> !IsBlank(s[r])
    ensures r < e ==> r >= lo
    ensures forall i :: r < i <= e ==> IsBlank(s[i])
    decreases e + 1
  {
    if e > lo && IsBlank(s[e]) then ShrinkEnd(s, lo, e - 1) else e
  }

  /** What `trim_whitespace` leaves in its buffer. `end` starts at
      `str + strlen(start) - 1`, an offset from the beginning of the buffer
      rather than from `start`, so each leading blank also costs a character
      at the end; when the terminator lands before `start` the whole
      remainder survives. */
  function Trimmed(s: string): (r: string)
    ensures |r| <= |s|
  {
    if s == [] then []
    else
      var k := LeadingBlanks(s);
      var e := ShrinkEnd(s, k, |s| - k - 1);
      if e + 1 >= k then s[k..e + 1] else s[k..]
  }

  /** On a string that does not start with a blank, trimming removes exactly
      the trailing run of blanks. */
  lemma TrimmedWithoutLeadingBlank(s: string)
    requires s == [] || !IsBlank(s[0])
    ensures Trimmed(s) <= s
    ensures forall i :: |Trimmed(s)| <= i < |s| ==> IsBlank(s[i])
    ensures s != [] ==> Trimmed(s) != [] && !IsBlank(Trimmed(s)[|Trimmed(s)| - 1])
  {
    if s != [] {
      assert LeadingBlanks(s) == 0;
      var e := ShrinkEnd(s, 0, |s| - 1);
      assert e >= 0;
    }
  }

  /** With `k >= 1` leading blanks and a non-blank character `k + 1` places
      from the end, trimming also drops the last `k` characters: " ls"
      becomes "l". */
  lemma TrimmedLosesTail(s: string, k: nat)
    requires 1 <= k && 2 * k <= |s|
    requires LeadingBlanks(s) == k && !IsBlank(s[|s| - k - 1])
    ensures Trimmed(s) == s[k..|s| - k]
  {
  }

  /** `trim_whitespace` on a NUL-terminated buffer holding `n` characters:
      the result is moved to the front of the same buffer; its new length is
      returned. */
  method TrimWhitespace(buf: array<char>, n: nat) returns (m: nat)
    requires n < buf.Length && buf[n] == '\0'
    requires forall i :: 0 <= i < n ==> buf[i] != '\0'
    modifies buf
    ensures m <= n && buf[m] == '\0'
    ensures buf[..m] == Trimmed(old(buf[..n]))
  {
    ghost var s := buf[..n];
    if n == 0 {
      return 0;
    }
    var start, end := TrimBounds(buf, n);
    buf[end + 1] := '\0';
    // strlen(start): up to the terminator just written, or the old one.
    var len := if end + 1 >= start then end + 1 - start else n - start;
    TrimmedInBuffer(s, buf[..], start, end, len);
    MoveToFront(buf, start, len);
    m := len;
  }

  /** After the terminator is written at `end + 1`, the trimmed string is
      the one that starts at `start` and runs to the first terminator. */
  lemma TrimmedInBuffer(s: string, b: seq<char>, start: nat, end: int, len: nat)
    requires 0 < |s| < |b| && b[|s|] == '\0'
    requires start == LeadingBlanks(s) && end == ShrinkEnd(s, start, |s| - start - 1)
    requires b[end + 1] == '\0' && forall i :: 0 <= i < |s| && i != end + 1 ==> b[i] == s[i]
    requires len == if end + 1 >= start then end + 1 - start else |s| - start
    ensures start + len < |b| && b[start..start + len] == Trimmed(s) && b[start + len] == '\0'
  {
    TrimmedIs(s, start, end);
    var stop := if end + 1 >= start then end + 1 else |s|;
    SameSlice(s, b, start, stop, end + 1);
  }

  lemma TrimmedIs(s: string, start: nat, end: int)
    requires s != [] && start == LeadingBlanks(s) && end == ShrinkEnd(s, start, |s| - start - 1)
    ensures Trimmed(s) == if end + 1 >= start then s[start..end + 1] else s[start..]
  {
  }

  /** A slice of the buffer that avoids the written position `w` is the
      same slice of the string. */
  lemma SameSlice(s: string, b: seq<char>, from: nat, to: nat, w: int)
    requires from <= to <= |s| <= |b| && (w < from || to <= w)
    requires forall i :: 0 <= i < |s| && i != w ==> b[i] == s[i]
    ensures b[from..to] == s[from..to]
  {
  }

  /** The two pointer walks of `trim_whitespace`: `start` past the leading
      blanks, then `end` back over trailing blanks. */
  method TrimBounds(buf: array<char>, n: nat) returns (start: nat, end: int)
    requires 0 < n < buf.Length && buf[n] == '\0'
    ensures start == LeadingBlanks(buf[..n])
    ensures end == ShrinkEnd(buf[..n], start, n - start - 1)
  {
    ghost var s := buf[..n];
    start := 0;
    while buf[start] == ' ' || buf[start] == '\t' || buf[start] == '\n' || buf[start] == '\r'
      invariant 0 <= start <= n
      invariant forall i :: 0 <= i < start ==> IsBlank(s[i])
      decreases n - start
    {
      start := start + 1;
    }
    LeadingBlanksUnique(s, start);
    end := n - start - 1;
    while end > start && (buf[end] == ' ' || buf[end] == '\t' || buf[end] == '\n' || buf[end] == '\r')
      invariant -1 <= end < n
      invariant ShrinkEnd(s, start, end) == ShrinkEnd(s, start, n - start - 1)
    {
      assert IsBlank(s[end]);
      end := end - 1;
    }
  }

  /** `memmove(str, str + from, len + 1)`. */
  method MoveToFront(buf: array<char>, from: nat, len: nat)
    requires from + len < buf.Length
    modifies buf
    ensures buf[..len] == old(buf[from..from + len]) && buf[len] == old(buf[from + len])
  {
    ghost var mid := buf[..];
    var j := 0;
    while j <= len
      invariant 0 <= j <= len + 1
      invariant forall t :: 0 <= t < j ==> buf[t] == mid[from + t]
      invariant forall t :: j <= t < buf.Length ==> buf[t] == mid[t]
    {
      buf[j] := buf[from + j];
      j := j + 1;
    }
    MovedFront(mid, buf[..], from, len);
  }

  lemma MovedFront(before: seq<char>, after: seq<char>, from: nat, len: nat)
    requires from + len < |before| && len < |after|
    requires forall t :: 0 <= t <= len ==> after[t] == before[from + t]
    ensures after[..len] == before[from..from + len] && after[len] == before[from + len]
  {
  }

  lemma LeadingBlanksUnique(s: string, k: nat)
    requires k <= |s| && (forall i :: 0 <= i < k ==> IsBlank(s[i])) && (k < |s| ==> !IsBlank(s[k]))
    ensures LeadingBlanks(s) == k
  {
  }

  // ---------------------------------------------------------------------
  // Token classes

  /** `strpbrk(token, "|&><;")`: the first position of an operator character. */
  function FirstOperatorChar(t: string): (r: Option<nat>)
    ensures r.Some? ==> r.value < |t| && IsOperatorChar(t[r.value])
    ensures r.Some? ==> forall i :: 0 <= i < r.value ==> !IsOperatorChar(t[i])
  {
    if t == [] then None
    else if IsOperatorChar(t[0]) then Some(0)
    else match FirstOperatorChar(t[1..])
      case None => None
      case Some(i) => Some(i + 1)
  }

  /** `is_command_or_arg`: a non-NULL, non-empty token with no operator character. */
  predicate IsCommandOrArg(t: Option<string>) {
    t.Some? && |t.value| > 0 && FirstOperatorChar(t.value).None?
  }

  /** The words of the grammar. */
  predicate IsWord(t: string) {
    |t| > 0 && forall c <- t :: !IsOperatorChar(c)
  }

  lemma {:induction false} CommandOrArgIsWord(t: Option<string>)
    ensures IsCommandOrArg(t) <==> t.Some? && IsWord(t.value)
  {
    if t.Some? && t.value != [] {
      NoOperatorChar(t.value);
    }
  }

  lemma {:induction false} NoOperatorChar(t: string)
    ensures FirstOperatorChar(t).None? <==> forall c <- t :: !IsOperatorChar(c)
    decreases |t|
  {
    if t != [] {
      NoOperatorChar(t[1..]);
      assert forall c <- t :: c == t[0] || c in t[1..];
    }
  }

  /** `is_valid_operator`. */
  predicate IsOperator(t: string) {
    t == "|" || t == ";" || t == "<" || t == ">" || t == ">>" || t == "&"
  }

  predicate IsRedirection(t: string) {
    t == "<" || t == ">" || t == ">>"
  }

  predicate IsSeparator(t: string) {
    t == ";" || t == "&"
  }

  /** A token that ends a command group: a pipe or a separator. */
  predicate IsBreak(t: string) {
    t == "|" || IsSeparator(t)
  }

  /** No token is both a word and an operator. */
  lemma OperatorsAreNotWords(t: string)
    requires IsOperator(t)
    ensures !IsWord(t) && !IsCommandOrArg(Some(t))
  {
    assert IsOperatorChar(t[0]);
    CommandOrArgIsWord(Some(t));
  }

  // ---------------------------------------------------------------------
  // tokenize_input

  /** Where a quoted token's text ends: at the closing quote or the end. */
  function QuoteEnd(s: string, i: nat): (r: nat)
    requires i <= |s|
    ensures i <= r <= |s|
    ensures forall t :: i <= t < r ==> s[t] != '"'
    ensures r < |s| ==> s[r] == '"'
  {
    ScanTo(s, i, c => c == '"')
  }

  /** Where a word ends: at a blank, an operator character or the end. */
  function WordEnd(s: string, i: nat): (r: nat)
    requires i <= |s|
    ensures i <= r <= |s|
    ensures forall t :: i <= t < r ==> !IsBlank(s[t]) && !IsOperatorChar(s[t])
    ensures r < |s| ==> IsBlank(s[r]) || IsOperatorChar(s[r])
  {
    ScanTo(s, i, c => IsBlank(c) || IsOperatorChar(c))
  }

  /** One token starting at the non-blank position `i`, and the position
      scanning resumes from. */
  function NextToken(s: string, i: nat): (r: (string, nat))
    requires i < |s| && !IsBlank(s[i])
    ensures i < r.1 <= |s|
  {
    if s[i] == '>' && i + 1 < |s| && s[i + 1] == '>' then (">>", i + 2)
    else if IsOperatorChar(s[i]) then ([s[i]], i + 1)
    else if s[i] == '"' then
      var e := QuoteEnd(s, i + 1);
      (s[i + 1..e], if e < |s| then e + 1 else e)
    else
      var e := WordEnd(s, i);
      (s[i..e], e)
  }

  /** A quoted token is the text up to the next `"`, verbatim (possibly
      empty, possibly holding operators or blanks); the closing quote is
      consumed, and without one the token runs to the end of the line. */
  lemma QuotedToken(s: string, i: nat)
    requires i < |s| && s[i] == '"'
    ensures var (tok, j) := NextToken(s, i);
      && '"' !in tok && i + 1 + |tok| <= |s| && tok == s[i + 1..i + 1 + |tok|]
      && (i + 1 + |tok| < |s| ==> s[i + 1 + |tok|] == '"' && j == i + 2 + |tok|)
      && (i + 1 + |tok| == |s| ==> j == |s|)
  {
  }

  /** An unquoted token is taken verbatim from the line: `>>` as one token,
      any other operator character on its own, and otherwise a word that
      runs up to a blank, an operator character or the end. */
  lemma UnquotedToken(s: string, i: nat)
    requires i < |s| && !IsBlank(s[i]) && s[i] != '"'
    ensures var (tok, j) := NextToken(s, i);
      && tok == s[i..j]
      && (IsOperatorChar(s[i]) ==> IsOperator(tok) && (|tok| == 2 <==> s[i] == '>' && i + 1 < |s| && s[i + 1] == '>'))
      && (!IsOperatorChar(s[i]) ==> IsWord(tok) && (j < |s| ==> IsBlank(s[j]) || IsOperatorChar(s[j])))
  {
    var (tok, j) := NextToken(s, i);
    if !IsOperatorChar(s[i]) {
      assert forall c <- tok :: !IsOperatorChar(c);
    }
  }

  /** The tokens scanned from position `i` with room for `room` more. */
  function Lex(s: string, i: nat, room: nat): (r: seq<string>)
    requires i <= |s|
    ensures |r| <= room
    decreases |s| - i
  {
    if room == 0 || i == |s| then []
    else if IsBlank(s[i]) then Lex(s, i + 1, room)
    else
      var (t, j) := NextToken(s, i);
      [t] + Lex(s, j, room - 1)
  }

  /** The tokens `tokenize_input` produces from a line: at most 100. */
  function Tokens(line: string): (r: seq<string>)
    ensures |r| <= MaxTokens
  {
    Lex(line, 0, MaxTokens)
  }

  /** Every token fits `token_buffer`. */
  predicate TokensFit(line: string) {
    forall t <- Tokens(line) :: |t| < MaxTokenLength
  }

  /** One pass of the token loop from a non-blank position. */
  method ScanToken(line: string, current: nat) returns (token: string, next: nat)
    requires current < |line| && !IsBlank(line[current])
    ensures (token, next) == NextToken(line, current)
  {
    if line[current] == '>' && current + 1 < |line| && line[current + 1] == '>' {
      return ">>", current + 2;
    }
    if IsOperatorChar(line[current]) {
      return [line[current]], current + 1;
    }
    next := current;
    if line[current] == '"' {
      next := next + 1;
      var tokenStart := next;
      while next < |line| && line[next] != '"'
        invariant tokenStart <= next <= |line|
        invariant QuoteEnd(line, next) == QuoteEnd(line, tokenStart)
      {
        next := next + 1;
      }
      token := line[tokenStart..next];
      if next < |line| {
        next := next + 1;
      }
      return;
    }
    while next < |line| && !IsBlank(line[next]) && !IsOperatorChar(line[next])
      invariant current <= next <= |line|
      invariant WordEnd(line, next) == WordEnd(line, current)
    {
      next := next + 1;
    }
    token := line[current..next];
  }

  /** `tokenize_input`. */
  method TokenizeInput(line: string) returns (tokens: seq<string>)
    requires TokensFit(line)
    ensures tokens == Tokens(line)
  {
    tokens := [];
    var current := 0;
    while current < |line| && |tokens| < MaxTokens
      invariant LexedUpTo(line, current, tokens)
      decreases |line| - current
    {
      current, tokens := LexStep(line, current, tokens);
    }
    LexedAll(line, current, tokens);
  }

  /** `tokens` followed by the tokens from `current` on, with the room
      left, are the tokens of the line. */
  predicate LexedUpTo(line: string, current: nat, tokens: seq<string>) {
    && current <= |line| && |tokens| <= MaxTokens
    && tokens + Lex(line, current, MaxTokens - |tokens|) == Tokens(line)
  }

  /** One pass of the token loop: skip a blank or take a token. */
  method LexStep(line: string, current: nat, tokens: seq<string>) returns (next: nat, tokens': seq<string>)
    requires current < |line| && |tokens| < MaxTokens && LexedUpTo(line, current, tokens)
    ensures current < next && LexedUpTo(line, next, tokens')
  {
    if IsBlank(line[current]) {
      return current + 1, tokens;
    }
    var token;
    token, next := ScanToken(line, current);
    tokens' := tokens + [token];
    LexTaken(line, current, tokens, token, next);
  }

  lemma LexTaken(line: string, current: nat, tokens: seq<string>, token: string, next: nat)
    requires current < |line| && |tokens| < MaxTokens && !IsBlank(line[current])
    requires (token, next) == NextToken(line, current)
    requires LexedUpTo(line, current, tokens)
    ensures LexedUpTo(line, next, tokens + [token])
  {
    var room := MaxTokens - |tokens|;
    assert Lex(line, current, room) == [token] + Lex(line, next, room - 1);
  }

  lemma LexedAll(line: string, current: nat, tokens: seq<string>)
    requires LexedUpTo(line, current, tokens) && !(current < |line| && |tokens| < MaxTokens)
    ensures tokens == Tokens(line)
  {
  }

  /** A token scanned from quote-free input is a word or an operator with no
      blank in it, and is exactly the input it was scanned from. */
  lemma QuoteFreeToken(s: string, i: nat)
    requires i < |s| && !IsBlank(s[i]) && (forall t :: i <= t < |s| ==> s[t] != '"')
    ensures var (tok, j) := NextToken(s, i);
      && (IsWord(tok) || IsOperator(tok))
      && (forall c <- tok :: !IsBlank(c))
      && tok == s[i..j]
  {
    var (tok, j) := NextToken(s, i);
    if !IsOperatorChar(s[i]) {
      assert forall c <- tok :: !IsBlank(c) && !IsOperatorChar(c);
    }
  }

  /** Tokens of a line without quotes are each a word or an operator, and
      none holds a blank. */
  lemma {:induction false} QuoteFreeTokens(s: string, i: nat, room: nat)
    requires i <= |s| && (forall t :: i <= t < |s| ==> s[t] != '"')
    ensures forall tok <- Lex(s, i, room) :: (IsWord(tok) || IsOperator(tok)) && forall c <- tok :: !IsBlank(c)
    decreases |s| - i
  {
    if room == 0 || i == |s| {
    } else if IsBlank(s[i]) {
      QuoteFreeTokens(s, i + 1, room);
    } else {
      QuoteFreeToken(s, i);
      QuoteFreeTokens(s, NextToken(s, i).1, room - 1);
    }
  }

  /** The characters of `s` that are not blanks, in order. */
  function WithoutBlanks(s: string): (r: string)
    ensures |r| <= |s|
  {
    if s == [] then [] else (if IsBlank(s[0]) then [] else [s[0]]) + WithoutBlanks(s[1..])
  }

  lemma {:induction false} WithoutBlanksAppend(a: string, b: string)
    ensures WithoutBlanks(a + b) == WithoutBlanks(a) + WithoutBlanks(b)
    decreases |a|
  {
    if a != [] {
      assert (a + b)[1..] == a[1..] + b;
      WithoutBlanksAppend(a[1..], b);
    } else {
      assert a + b == b;
    }
  }

  lemma {:induction false} WithoutBlanksNoBlank(a: string)
    requires forall c <- a :: !IsBlank(c)
    ensures WithoutBlanks(a) == a
    decreases |a|
  {
    if a != [] {
      WithoutBlanksNoBlank(a[1..]);
    }
  }

  function Concat(ts: seq<string>): string {
    if ts == [] then [] else ts[0] + Concat(ts[1..])
  }

  /** For quote-free input that yields fewer tokens than there is room for,
      the tokens put together are the input with its blanks removed. */
  lemma {:induction false} TokensConcatenate(s: string, i: nat, room: nat)
    requires i <= |s| && (forall t :: i <= t < |s| ==> s[t] != '"')
    requires |Lex(s, i, room)| < room
    ensures Concat(Lex(s, i, room)) == WithoutBlanks(s[i..])
    decreases |s| - i
  {
    if i < |s| {
      if IsBlank(s[i]) {
        assert s[i..] == [s[i]] + s[i + 1..];
        TokensConcatenate(s, i + 1, room);
      } else {
        var (tok, j) := NextToken(s, i);
        LexedToken(s, i, room);
        TokensConcatenate(s, j, room - 1);
        WithoutBlanksToken(s, i);
      }
    }
  }

  /** A token at `i` comes first and the rest is lexed from where it ends. */
  lemma LexedToken(s: string, i: nat, room: nat)
    requires i < |s| && !IsBlank(s[i]) && 0 < room
    ensures var (tok, j) := NextToken(s, i);
      && Lex(s, i, room) == [tok] + Lex(s, j, room - 1)
      && Concat(Lex(s, i, room)) == tok + Concat(Lex(s, j, room - 1))
  {
    var (tok, j) := NextToken(s, i);
    var rest := Lex(s, j, room - 1);
    assert ([tok] + rest)[1..] == rest;
  }

  /** In quote-free text a token is the text up to where it ends, blanks
      removed. */
  lemma WithoutBlanksToken(s: string, i: nat)
    requires i < |s| && !IsBlank(s[i]) && (forall t :: i <= t < |s| ==> s[t] != '"')
    ensures var (tok, j) := NextToken(s, i);
      WithoutBlanks(s[i..]) == tok + WithoutBlanks(s[j..])
  {
    var (tok, j) := NextToken(s, i);
    QuoteFreeToken(s, i);
    assert s[i..] == tok + s[j..];
    WithoutBlanksAppend(tok, s[j..]);
    WithoutBlanksNoBlank(tok);
  }

  // ---------------------------------------------------------------------
  // validate_atomic_command and parse_input

  /** `validate_atomic_command(tokens, start, end)`: a non-empty range that
      starts with a word, in which every redirection is followed, within the
      range, by a word. */
  predicate AtomicValid(tokens: seq<string>, start: int, end: int)
    requires 0 <= start <= end + 1 <= |tokens|
  {
    && start <= end
    && IsWord(tokens[start])
    && forall i :: start <= i <= end && IsRedirection(tokens[i]) ==> i + 1 <= end && IsWord(tokens[i + 1])
  }

  method ValidateAtomicCommand(tokens: seq<string>, start: int, end: int) returns (ok: bool)
    requires 0 <= start <= end + 1 <= |tokens|
    ensures ok <==> AtomicValid(tokens, start, end)
  {
    if start > end {
      return false;
    }
    var first := IsCommandOrArg(Some(tokens[start]));
    CommandOrArgIsWord(Some(tokens[start]));
    if !first {
      return false;
    }
    var i := start;
    while i <= end
      invariant start <= i <= end + 1
      invariant forall k :: start <= k < i && IsRedirection(tokens[k]) ==> k + 1 <= end && IsWord(tokens[k + 1])
    {
      var t := tokens[i];
      if t == "<" || t == ">" || t == ">>" {
        if i + 1 > end {
          return false;
        }
        CommandOrArgIsWord(Some(tokens[i + 1]));
        if !IsCommandOrArg(Some(tokens[i + 1])) {
          return false;
        }
      }
      i := i + 1;
    }
    return true;
  }

  /** Where the command group holding position `i` starts: just after the
      last pipe or separator before `i`. */
  function GroupStart(tokens: seq<string>, i: nat): (r: nat)
    requires i <= |tokens|
    ensures r <= i
    ensures forall k :: r <= k < i ==> !IsBreak(tokens[k])
    ensures r > 0 ==> IsBreak(tokens[r - 1])
  {
    if i == 0 then 0 else if IsBreak(tokens[i - 1]) then i else GroupStart(tokens, i - 1)
  }

  /** What `parse_input` demands of the token at position `i`: a pipe
      closes a valid group and is followed by a non-operator; a separator
      closes a valid group and is last or followed by a non-operator; any
      other token is a word or an operator. */
  predicate PositionOk(tokens: seq<string>, i: nat)
    requires i < |tokens|
  {
    var t := tokens[i];
    if t == "|" then
      AtomicValid(tokens, GroupStart(tokens, i), i - 1) && i + 1 < |tokens| && !IsOperator(tokens[i + 1])
    else if IsSeparator(t) then
      AtomicValid(tokens, GroupStart(tokens, i), i - 1) && (i + 1 < |tokens| ==> !IsOperator(tokens[i + 1]))
    else
      IsWord(t) || IsOperator(t)
  }

  /** Every position before `m` is acceptable. */
  predicate PositionsOk(tokens: seq<string>, m: nat)
    requires m <= |tokens|
  {
    forall i :: 0 <= i < m ==> PositionOk(tokens, i)
  }

  lemma PositionsOkSnoc(tokens: seq<string>, m: nat)
    requires m < |tokens|
    ensures PositionsOk(tokens, m + 1) <==> PositionsOk(tokens, m) && PositionOk(tokens, m)
  {
  }

  /** The grammar `parse_input` accepts: every position is acceptable and a
      final unterminated group is valid. */
  predicate Grammatical(tokens: seq<string>) {
    && PositionsOk(tokens, |tokens|)
    && (GroupStart(tokens, |tokens|) < |tokens| ==> AtomicValid(tokens, GroupStart(tokens, |tokens|), |tokens| - 1))
  }

  /** The group loop of `parse_input` over a token list. */
  method CheckGroups(tokens: seq<string>) returns (ok: bool)
    ensures ok <==> Grammatical(tokens)
  {
    var n := |tokens|;
    var cmdStart := 0;
    var i := 0;
    while i < n
      invariant CheckedUpTo(tokens, i, cmdStart)
    {
      var t := tokens[i];
      var fine := CheckToken(tokens, i, cmdStart);
      if !fine {
        Ungrammatical(tokens, i);
        return false;
      }
      CheckedStep(tokens, i, cmdStart);
      if IsSeparator(t) && i == n - 1 {
        i := n;
        cmdStart := n;
        break;
      }
      if IsBreak(t) {
        cmdStart := i + 1;
      }
      i := i + 1;
    }
    CheckedAll(tokens, cmdStart);
    if cmdStart < n {
      ok := ValidateAtomicCommand(tokens, cmdStart, n - 1);
    } else {
      ok := true;
    }
  }

  /** The positions before `i` are acceptable and the group holding `i`
      starts at `cmdStart`. */
  predicate CheckedUpTo(tokens: seq<string>, i: nat, cmdStart: nat) {
    && i <= |tokens| && cmdStart == GroupStart(tokens, i)
    && PositionsOk(tokens, i)
  }

  lemma CheckedStep(tokens: seq<string>, i: nat, cmdStart: nat)
    requires CheckedUpTo(tokens, i, cmdStart) && i < |tokens| && PositionOk(tokens, i)
    ensures CheckedUpTo(tokens, i + 1, if IsBreak(tokens[i]) then i + 1 else cmdStart)
  {
  }

  lemma CheckedAll(tokens: seq<string>, cmdStart: nat)
    requires CheckedUpTo(tokens, |tokens|, cmdStart)
    ensures Grammatical(tokens) <==> (cmdStart < |tokens| ==> AtomicValid(tokens, cmdStart, |tokens| - 1))
  {
  }

  /** The checks of the loop body for the token at `i`. */
  method CheckToken(tokens: seq<string>, i: nat, cmdStart: nat) returns (ok: bool)
    requires i < |tokens| && cmdStart == GroupStart(tokens, i)
    ensures ok <==> PositionOk(tokens, i)
  {
    var n := |tokens|;
    var t := tokens[i];
    if t == "|" {
      var v := ValidateAtomicCommand(tokens, cmdStart, i - 1);
      ok := v && i + 1 < n && !IsOperator(tokens[i + 1]);
    } else if t == ";" || t == "&" {
      var v := ValidateAtomicCommand(tokens, cmdStart, i - 1);
      if !v {
        return false;
      }
      if i == n - 1 {
        return true;
      }
      ok := !(IsOperator(tokens[i + 1]) || tokens[i + 1] == "|");
    } else {
      CommandOrArgIsWord(Some(t));
      ok := IsCommandOrArg(Some(t)) || IsOperator(t);
    }
  }

  /** `parse_input`: trim a copy of the line; a line that trims to nothing
      is valid; otherwise its tokens must be grammatical. */
  method ParseInput(line: string) returns (ok: bool)
    requires '\0' !in line && TokensFit(Trimmed(line))
    ensures ok <==> Trimmed(line) == [] || Grammatical(Tokens(Trimmed(line)))
  {
    var buf := new char[|line| + 1];
    forall i | 0 <= i < |line| {
      buf[i] := line[i];
    }
    buf[|line|] := '\0';
    assert buf[..|line|] == line;
    var m := TrimWhitespace(buf, |line|);
    var trimmed := buf[..m];
    if m == 0 {
      return true;
    }
    var tokens := TokenizeInput(trimmed);
    if |tokens| == 0 {
      assert Grammatical(tokens);
      return true;
    }
    ok := CheckGroups(tokens);
  }

  // ---------------------------------------------------------------------
  // What the grammar rules out and allows.

  /** A pipe at the end of the line, or followed by an operator, makes it
      invalid; so does a separator followed by an operator, and a token that
      is neither a word nor an operator (such as the quoted `"a|b"`). */
  lemma Ungrammatical(tokens: seq<string>, i: nat)
    requires i < |tokens|
    ensures tokens[i] == "|" && (i + 1 == |tokens| || IsOperator(tokens[i + 1])) ==> !Grammatical(tokens)
    ensures IsSeparator(tokens[i]) && i + 1 < |tokens| && IsOperator(tokens[i + 1]) ==> !Grammatical(tokens)
    ensures !IsWord(tokens[i]) && !IsOperator(tokens[i]) ==> !Grammatical(tokens)
  {
    if Grammatical(tokens) {
      assert PositionOk(tokens, i);
    }
  }

  /** A trailing `;` or `&` after a complete group changes nothing. */
  lemma {:induction false} TrailingSeparator(tokens: seq<string>, sep: string)
    requires IsSeparator(sep) && GroupStart(tokens, |tokens|) < |tokens|
    ensures Grammatical(tokens + [sep]) <==> Grammatical(tokens)
  {
    var t := tokens + [sep];
    var n := |tokens|;
    EarlierPositionsExtend(tokens, sep);
    LastSeparatorOk(tokens, sep);
    PositionsOkSnoc(t, n);
    assert GroupStart(t, n + 1) == n + 1;
  }

  /** Appending a token leaves the verdict on every earlier position as it was. */
  lemma EarlierPositionsExtend(tokens: seq<string>, sep: string)
    requires IsSeparator(sep) && GroupStart(tokens, |tokens|) < |tokens|
    ensures PositionsOk(tokens + [sep], |tokens|) <==> PositionsOk(tokens, |tokens|)
  {
    var t := tokens + [sep];
    forall i | 0 <= i < |tokens|
      ensures PositionOk(t, i) <==> PositionOk(tokens, i)
    {
      PositionExtends(tokens, sep, i);
    }
  }

  lemma PositionExtends(tokens: seq<string>, sep: string, i: nat)
    requires IsSeparator(sep) && GroupStart(tokens, |tokens|) < |tokens| && i < |tokens|
    ensures PositionOk(tokens + [sep], i) <==> PositionOk(tokens, i)
  {
    var t := tokens + [sep];
    assert t[..|tokens|] == tokens;
    GroupStartPrefix(tokens, t, i);
    AtomicValidExtends(tokens, sep, GroupStart(tokens, i), i - 1);
    assert t[i] == tokens[i];
    if i + 1 < |tokens| {
      assert t[i + 1] == tokens[i + 1];
    } else {
      assert GroupStart(tokens, |tokens|) == if IsBreak(tokens[i]) then |tokens| else GroupStart(tokens, i);
      assert !IsBreak(tokens[i]);
    }
  }

  /** A separator appended at the end is acceptable exactly when the group it closes is valid. */
  lemma LastSeparatorOk(tokens: seq<string>, sep: string)
    requires IsSeparator(sep)
    ensures PositionOk(tokens + [sep], |tokens|) <==> AtomicValid(tokens, GroupStart(tokens, |tokens|), |tokens| - 1)
  {
    var n := |tokens|;
    GroupStartExtends(tokens, sep);
    AtomicValidExtends(tokens, sep, GroupStart(tokens, n), n - 1);
  }

  lemma AtomicValidExtends(tokens: seq<string>, x: string, start: int, end: int)
    requires 0 <= start <= end + 1 <= |tokens|
    ensures AtomicValid(tokens + [x], start, end) <==> AtomicValid(tokens, start, end)
  {
    assert forall k :: start <= k <= end ==> (tokens + [x])[k] == tokens[k];
  }

  lemma {:induction false} GroupStartExtends(tokens: seq<string>, x: string)
    ensures forall i :: 0 <= i <= |tokens| ==> GroupStart(tokens + [x], i) == GroupStart(tokens, i)
  {
    var t := tokens + [x];
    forall i | 0 <= i <= |tokens| ensures GroupStart(t, i) == GroupStart(tokens, i) {
      GroupStartPrefix(tokens, t, i);
    }
  }

  lemma {:induction false} GroupStartPrefix(a: seq<string>, b: seq<string>, i: nat)
    requires i <= |a| <= |b| && a == b[..|a|]
    ensures GroupStart(b, i) == GroupStart(a, i)
    decreases i
  {
    if i > 0 {
      assert b[i - 1] == a[i - 1];
      GroupStartPrefix(a, b, i - 1);
    }
  }
}
