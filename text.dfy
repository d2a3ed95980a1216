/** Character classes, decimal conversion, `strcmp` order and a sort keyed
    by a string: the pieces of the C library the shell leans on, stated once
    for every other module. A C string is modelled as the characters before
    its terminating NUL, one `char` per byte: every length limit counts
    bytes, and `StrLe` orders them as `strcmp` does, as unsigned bytes. */
module Text {

  datatype Option<T> = None | Some(value: T)

  /** One chunk of terminal output and the stream it is written to. */
  datatype Line = Out(text: string) | Err(text: string)

  /** The `errno` values whose handling the shell distinguishes; any other
      is carried with its `strerror` text. */
  datatype Errno = ESRCH | ECHILD | ENOENT | EPERM | Other(message: string)

  /** The outcome of a system call whose only result is success or `-1`. */
  datatype Call = Succeeded | Failed(errno: Errno)

  /** `strerror` in the C locale for the values named above. */
  function Strerror(e: Errno): string {
    match e
    case ESRCH => "No such process"
    case ECHILD => "No child processes"
    case ENOENT => "No such file or directory"
    case EPERM => "Operation not permitted"
    case Other(m) => m
  }

  /** What `perror(prefix)` writes to standard error. */
  function Perror(prefix: string, e: Errno): Line {
    Err(prefix + ": " + Strerror(e) + "\n")
  }

  /** The four characters the shell treats as blanks: space, tab, LF, CR. */
  predicate IsBlank(c: char) {
    c == ' ' || c == '\t' || c == '\n' || c == '\r'
  }

  /** `isspace` in the C locale: the blanks plus vertical tab and form feed. */
  predicate IsSpace(c: char) {
    IsBlank(c) || c == '\U{0B}' || c == '\U{0C}'
  }

  predicate IsDigit(c: char) {
    '0' <= c <= '9'
  }

  function Min(a: int, b: int): int {
    if a <= b then a else b
  }

  /** The first at most `n` characters of `s`, as `strncpy` into an
      `n + 1`-byte buffer followed by a terminating NUL leaves them. */
  function Prefix(s: string, n: nat): (r: string)
    ensures |r| == Min(|s|, n)
    ensures r <= s
    ensures |s| <= n ==> r == s
  {
    if |s| <= n then s else s[..n]
  }

  /** The number of elements of `s` equal to `x`. */
  function Count<T(==)>(s: seq<T>, x: T): (n: nat)
    ensures n <= |s|
  {
    if s == [] then 0 else Count(s[..|s| - 1], x) + (if s[|s| - 1] == x then 1 else 0)
  }

  /** No occurrence is counted exactly when there is none. */
  lemma {:induction false} CountZero<T>(s: seq<T>, x: T)
    ensures Count(s, x) == 0 <==> x !in s
  {
    if s != [] {
      var p := s[..|s| - 1];
      CountZero(p, x);
      assert s == p + [s[|s| - 1]];
    }
  }

  lemma {:induction false} CountAppend<T>(a: seq<T>, b: seq<T>, x: T)
    ensures Count(a + b, x) == Count(a, x) + Count(b, x)
    decreases |b|
  {
    if b == [] {
      assert a + b == a;
    } else {
      assert (a + b)[..|a + b| - 1] == a + b[..|b| - 1];
      CountAppend(a, b[..|b| - 1], x);
    }
  }

  // ---------------------------------------------------------------------
  // Scanning

  /** The first index from `i` on whose character satisfies `stop`, or the
      end: the pointer walk `while (*p && !stop(*p)) p++;` every scanner of
      the shell performs. */
  function ScanTo(s: string, i: nat, stop: char -> bool): (k: nat)
    requires i <= |s|
    ensures i <= k <= |s|
    ensures forall t :: i <= t < k ==> !stop(s[t])
    ensures k < |s| ==> stop(s[k])
    decreases |s| - i
  {
    if i == |s| || stop(s[i]) then i else ScanTo(s, i + 1, stop)
  }

  // ---------------------------------------------------------------------
  // Decimal numbers: printf's %d and atoi/strtol's base-10 parse.

  function DigitChar(d: nat): (c: char)
    requires d < 10
    ensures IsDigit(c) && c as int - '0' as int == d
  {
    ('0' as int + d) as char
  }

  /** The decimal digits of `n`, most significant first, without leading zeros. */
  function NatDigits(n: nat): (s: string)
    ensures |s| >= 1
    ensures forall c <- s :: IsDigit(c)
    decreases n
  {
    if n < 10 then [DigitChar(n)] else NatDigits(n / 10) + [DigitChar(n % 10)]
  }

  /** What printf("%d", n) prints. */
  function Decimal(n: int): (s: string)
    ensures |s| >= 1
    ensures n >= 0 ==> IsDigit(s[0])
    ensures n < 0 ==> s[0] == '-'
  {
    if n < 0 then "-" + NatDigits(-n) else NatDigits(n)
  }

  function DigitValue(c: char): nat
    requires IsDigit(c)
  {
    c as int - '0' as int
  }

  /** The value of a run of decimal digits. */
  function DigitsValue(s: string): (v: nat)
    requires forall c <- s :: IsDigit(c)
  {
    if s == [] then 0 else DigitsValue(s[..|s| - 1]) * 10 + DigitValue(s[|s| - 1])
  }

  /** The longest prefix of `s` made of digits. */
  function DigitRun(s: string): (r: string)
    ensures r <= s
    ensures forall c <- r :: IsDigit(c)
    ensures |r| < |s| ==> !IsDigit(s[|r|])
  {
    if s != [] && IsDigit(s[0]) then [s[0]] + DigitRun(s[1..]) else []
  }

  /** `s` with its leading `isspace` characters removed. */
  function SkipSpace(s: string): (r: string)
    ensures r == [] || !IsSpace(r[0])
    ensures |r| <= |s| && r == s[|s| - |r|..]
  {
    if s != [] && IsSpace(s[0]) then SkipSpace(s[1..]) else s
  }

  /** The number `atoi` and `strtol(s, NULL, 10)` read: leading white
      space, an optional sign, then as many digits as follow; no digits
      gives 0. It is read as an unbounded integer; `Strtol` adds the
      saturation of `strtol`. */
  function Atoi(s: string): (v: int) {
    var t := SkipSpace(s);
    if t != [] && t[0] == '-' then -(DigitsValue(DigitRun(t[1..])) as int)
    else if t != [] && t[0] == '+' then DigitsValue(DigitRun(t[1..]))
    else DigitsValue(DigitRun(t))
  }

  const LongMin: int := -0x8000_0000_0000_0000
  const LongMax: int := 0x7fff_ffff_ffff_ffff
  const IntMin: int := -0x8000_0000
  const IntMax: int := 0x7fff_ffff

  /** `strtol(s, NULL, 10)` with a 64-bit `long`: the number read, held at
      `LONG_MIN` or `LONG_MAX` when it does not fit. */
  function Strtol(s: string): (v: int)
    ensures LongMin <= v <= LongMax
    ensures LongMin <= Atoi(s) <= LongMax ==> v == Atoi(s)
    ensures v == LongMax <==> Atoi(s) >= LongMax
    ensures v == LongMin <==> Atoi(s) <= LongMin
  {
    var n := Atoi(s);
    if n > LongMax then LongMax else if n < LongMin then LongMin else n
  }

  /** The cast of an integer to a 32-bit `int`: the one value in the
      `int` range that agrees with `n` modulo 2^32 (two's complement). */
  function ToInt32(n: int): (r: int)
    ensures IntMin <= r <= IntMax
    ensures (n - r) % 0x1_0000_0000 == 0
  {
    var m := n % 0x1_0000_0000;
    if m > IntMax then m - 0x1_0000_0000 else m
  }

  /** The cast keeps every value of the `int` range and nothing else. */
  lemma ToInt32Keeps(n: int)
    ensures ToInt32(n) == n <==> IntMin <= n <= IntMax
  {
    var r := ToInt32(n);
    if IntMin <= n <= IntMax {
      assert (n - r) % 0x1_0000_0000 == 0 && -0x1_0000_0000 < n - r < 0x1_0000_0000;
    }
  }

  /** `(int)strtol(s, NULL, 10)`: saturated to `long`, then truncated. */
  function StrtolInt(s: string): (v: int)
    ensures IntMin <= v <= IntMax
  {
    ToInt32(Strtol(s))
  }

  /** A number in the `int` range comes through `(int)strtol` unchanged. */
  lemma StrtolIntInRange(s: string)
    requires IntMin <= Atoi(s) <= IntMax
    ensures StrtolInt(s) == Atoi(s)
  {
    ToInt32Keeps(Atoi(s));
  }

  /** The cast on the values that show wrapping: 2^32 + 2 gives 2,
      `LONG_MAX` gives -1 and `LONG_MIN` gives 0. */
  lemma ToInt32Wraps()
    ensures ToInt32(0x1_0000_0002) == 2
    ensures ToInt32(LongMax) == -1
    ensures ToInt32(LongMin) == 0
  {
    assert 0x1_0000_0002 % 0x1_0000_0000 == 2;
    assert LongMax % 0x1_0000_0000 == 0xffff_ffff;
    assert LongMin % 0x1_0000_0000 == 0;
  }

  /** Outside the `int` range the conversion wraps and saturates: a text
      that reads as 2^32 + 2 gives 2, one that reads as `LONG_MAX` + 1 is
      held at `LONG_MAX` and gives -1, and one that reads as `LONG_MIN` - 1
      is held at `LONG_MIN` and gives 0. */
  lemma StrtolIntOutOfRange(s: string)
    ensures Atoi(s) == 0x1_0000_0002 ==> StrtolInt(s) == 2
    ensures Atoi(s) == LongMax + 1 ==> StrtolInt(s) == -1
    ensures Atoi(s) == LongMin - 1 ==> StrtolInt(s) == 0
  {
    var v := Strtol(s);
    assert Atoi(s) == 0x1_0000_0002 ==> v == 0x1_0000_0002;
    assert Atoi(s) == LongMax + 1 ==> v == LongMax;
    assert Atoi(s) == LongMin - 1 ==> v == LongMin;
    ToInt32Wraps();
  }

  /** The printed decimal of any number `n` converts as `n` saturated to
      `long` and then cast to `int`. */
  lemma StrtolIntOfDecimal(n: int)
    ensures StrtolInt(Decimal(n)) == ToInt32(if n > LongMax then LongMax else if n < LongMin then LongMin else n)
  {
    DecimalRoundTrip(n);
  }

  lemma {:induction false} DigitRunOfDigits(s: string)
    requires forall c <- s :: IsDigit(c)
    ensures DigitRun(s) == s
    decreases |s|
  {
    if s != [] {
      DigitRunOfDigits(s[1..]);
    }
  }

  lemma {:induction false} NatDigitsValue(n: nat)
    ensures DigitsValue(NatDigits(n)) == n
    decreases n
  {
    if n >= 10 {
      var s := NatDigits(n);
      assert s[..|s| - 1] == NatDigits(n / 10);
      NatDigitsValue(n / 10);
    }
  }

  /** Parsing what printf("%d") printed gives the number back: a job number
      shown as `[n]` and typed back to `fg n` names job n. */
  lemma DecimalRoundTrip(n: int)
    ensures Atoi(Decimal(n)) == n
  {
    var m: nat := if n < 0 then -n else n;
    var d := NatDigits(m);
    NatDigitsValue(m);
    DigitRunOfDigits(d);
    var s := Decimal(n);
    assert !IsSpace(s[0]);
    assert SkipSpace(s) == s;
    if n < 0 {
      assert s[1..] == d;
    }
  }

  // ---------------------------------------------------------------------
  // strcmp order and sorting by a string key.

  /** `strcmp(a, b) <= 0`: `a` is a prefix of `b`, or is smaller at the
      first position where they differ. */
  predicate StrLe(a: string, b: string) {
    a == [] || (b != [] && (a[0] < b[0] || (a[0] == b[0] && StrLe(a[1..], b[1..]))))
  }

  lemma {:induction false} StrLeTotal(a: string, b: string)
    ensures StrLe(a, b) || StrLe(b, a)
    decreases |a|
  {
    if a != [] && b != [] && a[0] == b[0] {
      StrLeTotal(a[1..], b[1..]);
    }
  }

  lemma {:induction false} StrLeTransitive(a: string, b: string, c: string)
    requires StrLe(a, b) && StrLe(b, c)
    ensures StrLe(a, c)
    decreases |a|
  {
    if a != [] && a[0] == b[0] && b[0] == c[0] {
      StrLeTransitive(a[1..], b[1..], c[1..]);
    }
  }

  lemma {:induction false} StrLeAntisymmetric(a: string, b: string)
    requires StrLe(a, b) && StrLe(b, a)
    ensures a == b
    decreases |a|
  {
    if a != [] {
      StrLeAntisymmetric(a[1..], b[1..]);
    }
  }

  /** Every pair of elements is in `strcmp` order of its key. */
  predicate SortedBy<T>(s: seq<T>, key: T -> string) {
    forall i, j :: 0 <= i < j < |s| ==> StrLe(key(s[i]), key(s[j]))
  }

  function InsertBy<T>(x: T, s: seq<T>, key: T -> string): (r: seq<T>)
    ensures multiset(r) == multiset(s) + multiset{x}
    ensures |r| == |s| + 1
  {
    if s == [] then [x]
    else if StrLe(key(x), key(s[0])) then [x] + s
    else
      assert s == [s[0]] + s[1..];
      [s[0]] + InsertBy(x, s[1..], key)
  }

  lemma {:induction false} InsertBySorted<T>(x: T, s: seq<T>, key: T -> string)
    requires SortedBy(s, key)
    ensures SortedBy(InsertBy(x, s, key), key)
    decreases |s|
  {
    if s == [] {
    } else if StrLe(key(x), key(s[0])) {
      InsertFrontSorted(x, s, key);
    } else {
      StrLeTotal(key(x), key(s[0]));
      InsertBySorted(x, s[1..], key);
      InsertBelowHead(x, s, key);
      ConsSorted(s[0], InsertBy(x, s[1..], key), key);
    }
  }

  lemma InsertFrontSorted<T>(x: T, s: seq<T>, key: T -> string)
    requires SortedBy(s, key) && s != [] && StrLe(key(x), key(s[0]))
    ensures SortedBy([x] + s, key)
  {
    var r := [x] + s;
    forall i, j | 0 <= i < j < |r| ensures StrLe(key(r[i]), key(r[j])) {
      if i == 0 && j > 1 {
        StrLeTransitive(key(x), key(s[0]), key(s[j - 1]));
      }
    }
  }

  /** Inserting into the tail of a sorted sequence something that sorts
      after its head leaves everything at or after the head. */
  lemma InsertBelowHead<T>(x: T, s: seq<T>, key: T -> string)
    requires SortedBy(s, key) && s != [] && StrLe(key(s[0]), key(x))
    ensures forall y <- InsertBy(x, s[1..], key) :: StrLe(key(s[0]), key(y))
  {
    var t := InsertBy(x, s[1..], key);
    forall y | y in t ensures StrLe(key(s[0]), key(y)) {
      assert y in multiset(t);
      assert y in multiset(s[1..]) || y == x;
      if y != x {
        var k :| 0 <= k < |s[1..]| && s[1..][k] == y;
        assert s[k + 1] == y;
      }
    }
  }

  lemma ConsSorted<T>(h: T, t: seq<T>, key: T -> string)
    requires SortedBy(t, key) && forall y <- t :: StrLe(key(h), key(y))
    ensures SortedBy([h] + t, key)
  {
    var r := [h] + t;
    forall i, j | 0 <= i < j < |r| ensures StrLe(key(r[i]), key(r[j])) {
      if i > 0 {
        assert r[i] == t[i - 1] && r[j] == t[j - 1];
      } else {
        assert r[j] == t[j - 1];
      }
    }
  }

  function SortBy<T>(s: seq<T>, key: T -> string): (r: seq<T>)
    ensures multiset(r) == multiset(s)
    ensures SortedBy(r, key)
  {
    if s == [] then []
    else
      var t := SortBy(s[1..], key);
      InsertBySorted(s[0], t, key);
      assert s == [s[0]] + s[1..];
      InsertBy(s[0], t, key)
  }
}
