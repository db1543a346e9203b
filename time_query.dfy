/**
 * `parse_time_query` of app.py (lines 148-178): a scanner that recognises
 * `last <digits> (second|minute|hour)s?` anywhere in the query, ignoring
 * the case of letters, and failing that
 * `between <dd>:<dd> and <dd>:<dd>` anywhere, with exact case.
 * Times are integer wall-clock seconds counted from `datetime.min`
 * (0001-01-01 00:00:00), the earliest value a `datetime` can hold; `now`
 * is the reading of the clock.
 */
module TimeQuery {
  import opened Options

  const SecondsPerDay: int := 86400

  /** `datetime.max` (9999-12-31 23:59:59) in seconds from `datetime.min`. */
  const MaxTime: int := 315537897599

  datatype Unit = Second | Minute | Hour

  /** The length of one unit, as `timedelta(seconds|minutes|hours=1)`. */
  function UnitSeconds(u: Unit): nat
  {
    match u
    case Second => 1
    case Minute => 60
    case Hour => 3600
  }

  /** The unit as `group(2).lower()` spells it. */
  function UnitWord(u: Unit): string
  {
    match u
    case Second => "second"
    case Minute => "minute"
    case Hour => "hour"
  }

  /** An `HH:MM` text read as two two-digit numbers. */
  datatype Clock = Clock(hour: nat, minute: nat)

  /** What `strptime(..., "%H:%M")` accepts. */
  predicate ValidClock(c: Clock)
  {
    c.hour < 24 && c.minute < 60
  }

  function ClockSeconds(c: Clock): nat
  {
    c.hour * 3600 + c.minute * 60
  }

  /**
   * The outcome of parsing: an interval, `None` (no grammar matched), the
   * ValueError that `strptime` raises for an `HH:MM` out of range, or the
   * OverflowError that `now - delta` raises when the start would fall
   * before `datetime.min`.
   */
  datatype ParseResult = Range(start: int, end: int) | NoMatch | InvalidTime | OutOfRange

  predicate IsDigit(c: char)
  {
    '0' <= c <= '9'
  }

  function DigitValue(c: char): nat
    requires IsDigit(c)
  {
    c as int - '0' as int
  }

  function DigitChar(d: nat): (c: char)
    requires d < 10
    ensures IsDigit(c) && DigitValue(c) == d
  {
    ('0' as int + d) as char
  }

  /** ASCII lower-casing, the case folding of `re.IGNORECASE` on these letters. */
  function ToLower(c: char): char
  {
    if 'A' <= c <= 'Z' then (c as int + 32) as char else c
  }

  predicate AllDigits(s: string)
  {
    forall k :: 0 <= k < |s| ==> IsDigit(s[k])
  }

  /** The exact text w occurs in s at position i. */
  predicate HasAt(s: string, i: nat, w: string)
  {
    i + |w| <= |s| && forall k :: 0 <= k < |w| ==> s[i + k] == w[k]
  }

  /** The character c occurs in s at position i. */
  predicate CharAt(s: string, i: nat, c: char)
  {
    i < |s| && s[i] == c
  }

  /** The lower-case letter c occurs in s at position i, in either case. */
  predicate LetterAt(s: string, i: nat, c: char)
  {
    i < |s| && ToLower(s[i]) == c
  }

  /** `last ` at position i, ignoring case. */
  predicate LastAt(s: string, i: nat)
  {
    LetterAt(s, i, 'l') && LetterAt(s, i + 1, 'a') && LetterAt(s, i + 2, 's') && LetterAt(s, i + 3, 't') && CharAt(s, i + 4, ' ')
  }

  /** The word of unit u at position i, ignoring case. */
  predicate WordAt(s: string, i: nat, u: Unit)
  {
    match u
    case Second =>
      LetterAt(s, i, 's') && LetterAt(s, i + 1, 'e') && LetterAt(s, i + 2, 'c') &&
      LetterAt(s, i + 3, 'o') && LetterAt(s, i + 4, 'n') && LetterAt(s, i + 5, 'd')
    case Minute =>
      LetterAt(s, i, 'm') && LetterAt(s, i + 1, 'i') && LetterAt(s, i + 2, 'n') &&
      LetterAt(s, i + 3, 'u') && LetterAt(s, i + 4, 't') && LetterAt(s, i + 5, 'e')
    case Hour =>
      LetterAt(s, i, 'h') && LetterAt(s, i + 1, 'o') && LetterAt(s, i + 2, 'u') && LetterAt(s, i + 3, 'r')
  }

  /** `between ` at position i, with exact case. */
  predicate BetweenAt(s: string, i: nat)
  {
    CharAt(s, i, 'b') && CharAt(s, i + 1, 'e') && CharAt(s, i + 2, 't') && CharAt(s, i + 3, 'w') &&
    CharAt(s, i + 4, 'e') && CharAt(s, i + 5, 'e') && CharAt(s, i + 6, 'n') && CharAt(s, i + 7, ' ')
  }

  /** ` and ` at position i, with exact case. */
  predicate AndAt(s: string, i: nat)
  {
    CharAt(s, i, ' ') && CharAt(s, i + 1, 'a') && CharAt(s, i + 2, 'n') && CharAt(s, i + 3, 'd') && CharAt(s, i + 4, ' ')
  }

  /** The length of the longest run of digits in s from position i on (`\d+`, greedy). */
  function DigitRun(s: string, i: nat): (n: nat)
    requires i <= |s|
    ensures i + n <= |s|
    ensures forall k :: i <= k < i + n ==> IsDigit(s[k])
    ensures i + n == |s| || !IsDigit(s[i + n])
    decreases |s| - i
  {
    if i < |s| && IsDigit(s[i]) then 1 + DigitRun(s, i + 1) else 0
  }

  /** `int(d)` of a decimal digit string, leading zeros allowed. */
  function Decimal(d: string): nat
    requires AllDigits(d)
    decreases |d|
  {
    if d == [] then 0 else 10 * Decimal(d[..|d| - 1]) + DigitValue(d[|d| - 1])
  }

  /** `str(n)`: the decimal digits of n without leading zeros. */
  function ShowNat(n: nat): (d: string)
    ensures d != [] && AllDigits(d)
    ensures n >= 10 <==> |d| > 1
  {
    (if n < 10 then [] else ShowNat(n / 10)) + [DigitChar(n % 10)]
  }

  /** Appending a digit shifts the value one decimal place. */
  lemma DecimalSnoc(h: string, c: char)
    requires AllDigits(h) && IsDigit(c)
    ensures AllDigits(h + [c]) && Decimal(h + [c]) == 10 * Decimal(h) + DigitValue(c)
  {
    assert (h + [c])[..|h|] == h;
  }

  /** `int(str(n)) == n`. */
  lemma {:induction false} DecimalShowNat(n: nat)
    ensures Decimal(ShowNat(n)) == n
  {
    if n >= 10 {
      var h, c := ShowNat(n / 10), DigitChar(n % 10);
      assert ShowNat(n) == h + [c];
      DecimalSnoc(h, c);
      DecimalShowNat(n / 10);
    } else {
      assert ShowNat(n) == [DigitChar(n)];
    }
  }

  /** Which alternative of `(second|minute|hour)` starts at position i, if any. */
  function UnitAt(s: string, i: nat): (r: Option<Unit>)
    ensures r.Some? ==> WordAt(s, i, r.value)
    ensures r.None? ==> !WordAt(s, i, Second) && !WordAt(s, i, Minute) && !WordAt(s, i, Hour)
  {
    if WordAt(s, i, Second) then Some(Second)
    else if WordAt(s, i, Minute) then Some(Minute)
    else if WordAt(s, i, Hour) then Some(Hour)
    else None
  }

  /**
   * `last (\d+) (second|minute|hour)s?` matches at position i, ignoring case.
   * The optional plural `s` can always be skipped, so it does not decide the match.
   */
  predicate RelativeAt(s: string, i: nat)
  {
    LastAt(s, i) && RelativeTailAt(s, i + 5)
  }

  /** `(\d+) (second|minute|hour)` at position j, right after `last `. */
  predicate RelativeTailAt(s: string, j: nat)
    requires j <= |s|
  {
    var n := DigitRun(s, j);
    n > 0 && CharAt(s, j + n, ' ') && UnitAt(s, j + n + 1).Some?
  }

  /** The two groups of the relative pattern matched at position i: the digit text and the unit. */
  function RelativeGroups(s: string, i: nat): (g: (string, Unit))
    requires RelativeAt(s, i)
    ensures g.0 != [] && AllDigits(g.0)
  {
    var n := DigitRun(s, i + 5);
    (s[i + 5..i + 5 + n], UnitAt(s, i + 5 + n + 1).value)
  }

  /** `\d{2}:\d{2}` at position i. */
  predicate ClockTextAt(s: string, i: nat)
  {
    i + 5 <= |s| && IsDigit(s[i]) && IsDigit(s[i + 1]) && s[i + 2] == ':' && IsDigit(s[i + 3]) && IsDigit(s[i + 4])
  }

  function ClockAt(s: string, i: nat): Clock
    requires ClockTextAt(s, i)
  {
    Clock(10 * DigitValue(s[i]) + DigitValue(s[i + 1]), 10 * DigitValue(s[i + 3]) + DigitValue(s[i + 4]))
  }

  /** `between (\d{2}:\d{2}) and (\d{2}:\d{2})` matches at position i, with exact case. */
  predicate AbsoluteAt(s: string, i: nat)
  {
    BetweenAt(s, i) && ClockTextAt(s, i + 8) && AndAt(s, i + 13) && ClockTextAt(s, i + 18)
  }

  datatype Pattern = Relative | Absolute

  predicate MatchesAt(p: Pattern, s: string, i: nat)
  {
    match p
    case Relative => RelativeAt(s, i)
    case Absolute => AbsoluteAt(s, i)
  }

  /** `re.search` from position i: the leftmost position at which p matches. */
  function Search(p: Pattern, s: string, i: nat): (r: Option<nat>)
    ensures r.Some? ==> i <= r.value < |s| && MatchesAt(p, s, r.value)
    ensures r.Some? ==> forall q :: i <= q < r.value ==> !MatchesAt(p, s, q)
    ensures r.None? ==> forall q: nat :: i <= q ==> !MatchesAt(p, s, q)
    decreases |s| - i
  {
    if i >= |s| then None
    else if MatchesAt(p, s, i) then Some(i)
    else Search(p, s, i + 1)
  }

  /** A search from the start that finds nothing means the pattern matches nowhere. */
  lemma SearchFailsEverywhere(p: Pattern, s: string)
    requires Search(p, s, 0).None?
    ensures p == Relative ==> forall q: nat :: !RelativeAt(s, q)
    ensures p == Absolute ==> forall q: nat :: !AbsoluteAt(s, q)
  {
    forall q: nat
      ensures p == Relative ==> !RelativeAt(s, q)
      ensures p == Absolute ==> !AbsoluteAt(s, q)
    {
      assert !MatchesAt(p, s, q);
    }
  }

  /** The start of the calendar day of a wall-clock reading (`now.date()`). */
  function Midnight(now: int): (m: int)
    ensures m <= now < m + SecondsPerDay
    ensures m % SecondsPerDay == 0
  {
    now - now % SecondsPerDay
  }

  /** The interval named by the between grammar matched at position p. */
  function AbsoluteRange(s: string, p: nat, now: int): ParseResult
    requires AbsoluteAt(s, p)
  {
    var a, b := ClockAt(s, p + 8), ClockAt(s, p + 18);
    if !ValidClock(a) || !ValidClock(b) then InvalidTime
    else
      var start, end := Midnight(now) + ClockSeconds(a), Midnight(now) + ClockSeconds(b);
      if end < start then Range(start, end + SecondsPerDay) else Range(start, end)
  }

  /**
   * `end_time - delta` for a span of `span` seconds: the interval reaching
   * back from now, or the overflow when it would start before `datetime.min`.
   */
  function RelativeRange(now: int, span: nat): (r: ParseResult)
    ensures r.Range? || r.OutOfRange?
    ensures r.OutOfRange? <==> now < span
    ensures r.Range? ==> r.end == now && r.end - r.start == span && 0 <= r.start
  {
    if now - span < 0 then OutOfRange else Range(now - span, now)
  }

  /** `parse_time_query(query)` at clock reading `now`. */
  function Parse(query: string, now: int): ParseResult
  {
    match Search(Relative, query, 0)
    case Some(p) =>
      var (digits, u) := RelativeGroups(query, p);
      RelativeRange(now, Decimal(digits) * UnitSeconds(u))
    case None =>
      match Search(Absolute, query, 0)
      case None => NoMatch
      case Some(p) => AbsoluteRange(query, p, now)
  }

  /**
   * What `parse_time_query` promises for every query: the relative grammar
   * wins wherever it matches and gives an interval ending now, or the
   * overflow; otherwise the absolute grammar gives an interval that starts
   * today and spans less than a day, or an error for a bad clock; `None`
   * exactly when neither grammar matches anywhere.
   */
  lemma ParseOutcome(query: string, now: int)
    ensures var r := Parse(query, now);
            && (r.Range? ==> r.start <= r.end)
            && (r.NoMatch? <==> (forall q: nat :: !RelativeAt(query, q)) && (forall q: nat :: !AbsoluteAt(query, q)))
            && ((exists q: nat :: RelativeAt(query, q)) ==> (r.Range? && r.end == now) || r.OutOfRange?)
            && (r.OutOfRange? ==> exists q: nat :: RelativeAt(query, q))
            && (r.InvalidTime? ==> exists q: nat :: AbsoluteAt(query, q))
            && (r.Range? && (forall q: nat :: !RelativeAt(query, q)) ==>
                  && Midnight(now) <= r.start < Midnight(now) + SecondsPerDay
                  && r.start <= r.end < r.start + SecondsPerDay)
  {
    match Search(Relative, query, 0)
    case Some(p) =>
      ParseRelativeCase(query, now);
    case None =>
      SearchFailsEverywhere(Relative, query);
      match Search(Absolute, query, 0)
      case None => SearchFailsEverywhere(Absolute, query);
      case Some(p) => ParseAbsoluteCase(query, now);
  }

  /** A relative match gives an interval ending now, or the overflow. */
  lemma ParseRelativeCase(query: string, now: int)
    requires Search(Relative, query, 0).Some?
    ensures var r := Parse(query, now); (r.Range? && r.start <= r.end == now) || r.OutOfRange?
  {
  }

  /** Without a relative match, an absolute match gives an error or an interval starting today. */
  lemma ParseAbsoluteCase(query: string, now: int)
    requires Search(Relative, query, 0).None? && Search(Absolute, query, 0).Some?
    ensures var r := Parse(query, now);
            && (r.InvalidTime? || r.Range?)
            && (r.Range? ==>
                  && Midnight(now) <= r.start < Midnight(now) + SecondsPerDay
                  && r.start <= r.end < r.start + SecondsPerDay)
  {
  }

  /** The letter l, in either case, does not occur in s. */
  predicate NoLetterL(s: string)
  {
    forall c :: c in s ==> ToLower(c) != 'l'
  }

  /** The lower-case letter b does not occur in s. */
  predicate NoLetterB(s: string)
  {
    forall c :: c in s ==> c != 'b'
  }

  /** A run of digits followed by a non-digit is all that `\d+` takes. */
  lemma {:induction false} DigitRunOver(s: string, i: nat, d: string)
    requires HasAt(s, i, d) && AllDigits(d)
    requires i + |d| == |s| || !IsDigit(s[i + |d|])
    ensures DigitRun(s, i) == |d|
    decreases |d|
  {
    if d != [] {
      assert s[i + 0] == d[0];
      assert HasAt(s, i + 1, d[1..]);
      DigitRunOver(s, i + 1, d[1..]);
    }
  }

  /** Text placed between x and y occurs right after x. */
  lemma HasAtMiddle(x: string, w: string, y: string)
    ensures HasAt(x + w + y, |x|, w)
  {
    var s := x + w + y;
    forall k | 0 <= k < |w|
      ensures s[|x| + k] == w[k]
    {
    }
  }

  lemma HasAtSlice(s: string, i: nat, w: string)
    requires HasAt(s, i, w)
    ensures s[i..i + |w|] == w
  {
  }

  /** A unit word selects its own alternative of `(second|minute|hour)`. */
  lemma UnitAtWord(s: string, i: nat, u: Unit)
    requires WordAt(s, i, u)
    ensures UnitAt(s, i) == Some(u)
  {
  }

  /** `re.search` returns the first position at which the pattern matches. */
  lemma SearchFindsFirst(p: Pattern, s: string, i: nat)
    requires MatchesAt(p, s, i)
    requires forall j :: 0 <= j < i ==> !MatchesAt(p, s, j)
    ensures Search(p, s, 0) == Some(i)
  {
  }

  /** No match of either grammar can start inside a prefix that lacks its first letter. */
  lemma NoMatchInPrefix(prefix: string, rest: string)
    ensures NoLetterL(prefix) ==> forall i :: 0 <= i < |prefix| ==> !MatchesAt(Relative, prefix + rest, i)
    ensures NoLetterB(prefix) ==> forall i :: 0 <= i < |prefix| ==> !MatchesAt(Absolute, prefix + rest, i)
  {
    var q := prefix + rest;
    forall i | 0 <= i < |prefix|
      ensures NoLetterL(prefix) ==> !MatchesAt(Relative, q, i)
      ensures NoLetterB(prefix) ==> !MatchesAt(Absolute, q, i)
    {
      assert q[i] == prefix[i] && prefix[i] in prefix;
    }
  }

  /** `\d+` takes exactly a digit text that a space follows. */
  lemma DigitsThenSpace(s: string, j: nat, d: string)
    requires AllDigits(d) && HasAt(s, j, d) && CharAt(s, j + |d|, ' ')
    ensures DigitRun(s, j) == |d|
  {
    DigitRunOver(s, j, d);
  }

  /** `(\d+) (second|minute|hour)` matches where a digit text, a space and a unit word are spelled out. */
  lemma RelativeTailMatch(s: string, j: nat, d: string, u: Unit)
    requires d != [] && AllDigits(d)
    requires HasAt(s, j, d)
    requires CharAt(s, j + |d|, ' ')
    requires WordAt(s, j + |d| + 1, u)
    ensures DigitRun(s, j) == |d| && UnitAt(s, j + |d| + 1) == Some(u)
    ensures RelativeTailAt(s, j)
  {
    DigitsThenSpace(s, j, d);
    UnitAtWord(s, j + |d| + 1, u);
  }

  /** The groups of a relative match are the digit run after `last ` and the unit after it. */
  lemma RelativeGroupsAre(s: string, i: nat, d: string, u: Unit)
    requires RelativeAt(s, i)
    requires DigitRun(s, i + 5) == |d| && s[i + 5..i + 5 + |d|] == d
    requires UnitAt(s, i + 5 + |d| + 1) == Some(u)
    ensures RelativeGroups(s, i) == (d, u)
  {
  }

  /** The relative grammar matches where its pieces are spelled out, with those groups. */
  lemma RelativeMatch(s: string, i: nat, d: string, u: Unit)
    requires d != [] && AllDigits(d)
    requires LastAt(s, i)
    requires HasAt(s, i + 5, d)
    requires CharAt(s, i + 5 + |d|, ' ')
    requires WordAt(s, i + 5 + |d| + 1, u)
    ensures RelativeAt(s, i) && RelativeGroups(s, i) == (d, u)
  {
    RelativeTailMatch(s, i + 5, d, u);
    HasAtSlice(s, i + 5, d);
    RelativeGroupsAre(s, i, d, u);
  }

  /** When the leftmost relative match is at p, its groups decide the interval. */
  lemma ParseFirstRelative(q: string, p: nat, d: string, u: Unit, n: nat, now: int)
    requires RelativeAt(q, p) && RelativeGroups(q, p) == (d, u) && Decimal(d) == n
    requires forall j :: 0 <= j < p ==> !MatchesAt(Relative, q, j)
    ensures Parse(q, now) == RelativeRange(now, n * UnitSeconds(u))
  {
    SearchFindsFirst(Relative, q, p);
  }

  /** A unit word placed after x is recognised there. */
  lemma WordAtMiddle(x: string, u: Unit, y: string)
    ensures WordAt(x + UnitWord(u) + y, |x|, u)
  {
    match u
    case Second =>
    case Minute =>
    case Hour =>
  }

  /** The pieces of `last <d> <unit>` placed after x sit where the grammar expects them. */
  lemma RelativeTextPieces(x: string, d: string, u: Unit, y: string)
    ensures LastAt(x + "last " + d + " " + UnitWord(u) + y, |x|)
    ensures HasAt(x + "last " + d + " " + UnitWord(u) + y, |x| + 5, d)
    ensures CharAt(x + "last " + d + " " + UnitWord(u) + y, |x| + 5 + |d|, ' ')
    ensures WordAt(x + "last " + d + " " + UnitWord(u) + y, |x| + 5 + |d| + 1, u)
  {
    var w := UnitWord(u);
    var q := x + "last " + d + " " + w + y;
    assert LastAt(q, |x|) by {
      assert q == x + "last " + (d + " " + w + y);
    }
    assert HasAt(q, |x| + 5, d) by {
      assert q == (x + "last ") + d + (" " + w + y);
      HasAtMiddle(x + "last ", d, " " + w + y);
    }
    assert CharAt(q, |x| + 5 + |d|, ' ') by {
      assert q == (x + "last " + d) + " " + (w + y);
    }
    WordAtMiddle(x + "last " + d + " ", u, y);
  }

  /** No relative match starts before `last ` when the text before it has no l. */
  lemma RelativeTextFirst(prefix: string, d: string, u: Unit, suffix: string)
    requires NoLetterL(prefix)
    ensures forall j :: 0 <= j < |prefix| ==> !MatchesAt(Relative, prefix + "last " + d + " " + UnitWord(u) + suffix, j)
  {
    var rest := "last " + d + " " + UnitWord(u) + suffix;
    assert prefix + "last " + d + " " + UnitWord(u) + suffix == prefix + rest;
    NoMatchInPrefix(prefix, rest);
  }

  /**
   * `last <n> <unit>` after any text without the letter l parses to the
   * interval ending now and reaching back n units, whatever follows it
   * (a plural `s`, a question mark, or a between phrase), unless that
   * interval would start before `datetime.min`.
   */
  lemma RelativeRoundTrip(prefix: string, n: nat, u: Unit, suffix: string, now: int)
    requires NoLetterL(prefix)
    ensures Parse(prefix + "last " + ShowNat(n) + " " + UnitWord(u) + suffix, now)
         == if n * UnitSeconds(u) <= now then Range(now - n * UnitSeconds(u), now) else OutOfRange
  {
    var d := ShowNat(n);
    var q := prefix + "last " + d + " " + UnitWord(u) + suffix;
    RelativeTextPieces(prefix, d, u, suffix);
    RelativeMatch(q, |prefix|, d, u);
    RelativeTextFirst(prefix, d, u, suffix);
    DecimalShowNat(n);
    ParseFirstRelative(q, |prefix|, d, u, n, now);
  }

  /** `HH:MM` with two digits each. */
  function ShowClock(c: Clock): (t: string)
    requires c.hour < 100 && c.minute < 100
    ensures ClockTextAt(t, 0) && ClockAt(t, 0) == c
  {
    [DigitChar(c.hour / 10), DigitChar(c.hour % 10), ':', DigitChar(c.minute / 10), DigitChar(c.minute % 10)]
  }

  /** The canonical absolute query: `between HH:MM and HH:MM`. */
  function AbsoluteQuery(a: Clock, b: Clock): string
    requires a.hour < 100 && a.minute < 100 && b.hour < 100 && b.minute < 100
  {
    "between " + ShowClock(a) + " and " + ShowClock(b)
  }

  /** A clock text placed at position i reads back as that clock. */
  lemma ClockAtMiddle(x: string, c: Clock, y: string)
    requires c.hour < 100 && c.minute < 100
    ensures ClockTextAt(x + ShowClock(c) + y, |x|) && ClockAt(x + ShowClock(c) + y, |x|) == c
  {
    var t := ShowClock(c);
    HasAtMiddle(x, t, y);
    var s := x + t + y;
    assert s[|x| + 0] == t[0] && s[|x| + 1] == t[1] && s[|x| + 2] == t[2] && s[|x| + 3] == t[3] && s[|x| + 4] == t[4];
  }

  /** The canonical absolute query placed after x matches there and reads back both clocks. */
  lemma AbsoluteQueryMatch(x: string, a: Clock, b: Clock, y: string)
    requires a.hour < 100 && a.minute < 100 && b.hour < 100 && b.minute < 100
    ensures AbsoluteAt(x + AbsoluteQuery(a, b) + y, |x|)
    ensures ClockAt(x + AbsoluteQuery(a, b) + y, |x| + 8) == a
    ensures ClockAt(x + AbsoluteQuery(a, b) + y, |x| + 18) == b
  {
    var ta, tb := ShowClock(a), ShowClock(b);
    var q := x + AbsoluteQuery(a, b) + y;
    assert BetweenAt(q, |x|) by {
      assert q == x + "between " + (ta + " and " + tb + y);
    }
    assert ClockTextAt(q, |x| + 8) && ClockAt(q, |x| + 8) == a by {
      assert q == (x + "between ") + ta + (" and " + tb + y);
      ClockAtMiddle(x + "between ", a, " and " + tb + y);
    }
    assert AndAt(q, |x| + 13) by {
      assert q == (x + "between " + ta) + " and " + (tb + y);
    }
    assert ClockTextAt(q, |x| + 18) && ClockAt(q, |x| + 18) == b by {
      assert q == (x + "between " + ta + " and ") + tb + y;
      ClockAtMiddle(x + "between " + ta + " and ", b, y);
    }
  }

  /** The canonical absolute query contains no l. */
  lemma AbsoluteQueryNoL(a: Clock, b: Clock)
    requires a.hour < 100 && a.minute < 100 && b.hour < 100 && b.minute < 100
    ensures NoLetterL(AbsoluteQuery(a, b))
  {
    var ta, tb := ShowClock(a), ShowClock(b);
    assert NoLetterL(ta) && NoLetterL(tb);
    assert AbsoluteQuery(a, b) == "between " + ta + " and " + tb;
  }

  /** A text without the letter l has no relative match anywhere. */
  lemma NoLetterLNoRelative(q: string)
    requires NoLetterL(q)
    ensures forall i: nat :: !RelativeAt(q, i)
  {
    forall i: nat
      ensures !RelativeAt(q, i)
    {
      if i < |q| {
        assert q[i] in q;
      }
    }
  }

  /** No absolute match starts before the canonical query when the text before it has no b. */
  lemma AbsoluteQueryFirst(prefix: string, a: Clock, b: Clock, suffix: string)
    requires a.hour < 100 && a.minute < 100 && b.hour < 100 && b.minute < 100
    requires NoLetterB(prefix)
    ensures forall j :: 0 <= j < |prefix| ==> !MatchesAt(Absolute, prefix + AbsoluteQuery(a, b) + suffix, j)
  {
    assert prefix + AbsoluteQuery(a, b) + suffix == prefix + (AbsoluteQuery(a, b) + suffix);
    NoMatchInPrefix(prefix, AbsoluteQuery(a, b) + suffix);
  }

  /** Without any relative match, the leftmost absolute match at p decides the outcome. */
  lemma ParseFirstAbsolute(q: string, p: nat, now: int)
    requires forall i: nat :: !RelativeAt(q, i)
    requires AbsoluteAt(q, p)
    requires forall j :: 0 <= j < p ==> !MatchesAt(Absolute, q, j)
    ensures Parse(q, now) == AbsoluteRange(q, p, now)
  {
    assert Search(Relative, q, 0).None?;
    SearchFindsFirst(Absolute, q, p);
  }

  /**
   * An absolute query, with no relative query around it and no earlier
   * `b`, parses to today's a..b, with b moved to the next day when it is
   * earlier than a; an out-of-range clock raises instead.
   */
  lemma AbsoluteRoundTrip(prefix: string, a: Clock, b: Clock, suffix: string, now: int)
    requires a.hour < 100 && a.minute < 100 && b.hour < 100 && b.minute < 100
    requires NoLetterL(prefix) && NoLetterB(prefix) && NoLetterL(suffix)
    ensures var r := Parse(prefix + AbsoluteQuery(a, b) + suffix, now);
            if !ValidClock(a) || !ValidClock(b) then r == InvalidTime
            else r == Range(Midnight(now) + ClockSeconds(a),
                            Midnight(now) + ClockSeconds(b) + if ClockSeconds(b) < ClockSeconds(a) then SecondsPerDay else 0)
  {
    var q, p := prefix + AbsoluteQuery(a, b) + suffix, |prefix|;
    assert NoLetterL(q) by {
      AbsoluteQueryNoL(a, b);
      assert forall c :: c in q ==> c in prefix || c in AbsoluteQuery(a, b) || c in suffix;
    }
    NoLetterLNoRelative(q);
    AbsoluteQueryMatch(prefix, a, b, suffix);
    AbsoluteQueryFirst(prefix, a, b, suffix);
    ParseFirstAbsolute(q, p, now);
  }

  /** A text without the lower-case letter b has no absolute match anywhere. */
  lemma NoLetterBNoAbsolute(q: string)
    requires NoLetterB(q)
    ensures forall i: nat :: !AbsoluteAt(q, i)
  {
    forall i: nat
      ensures !AbsoluteAt(q, i)
    {
      if i < |q| {
        assert q[i] in q;
      }
    }
  }

  /** A text with neither an l nor a b parses to no interval. */
  lemma NoLettersNoMatch(q: string, now: int)
    requires NoLetterL(q) && NoLetterB(q)
    ensures Parse(q, now) == NoMatch
  {
    NoLetterLNoRelative(q);
    NoLetterBNoAbsolute(q);
    ParseOutcome(q, now);
  }

  lemma ExampleLastTenMinutes(now: int)
    requires 600 <= now
    ensures Parse("last 10 minutes", now) == Range(now - 600, now)
  {
    assert ShowNat(10) == "10";
    assert "last 10 minutes" == "" + "last " + ShowNat(10) + " " + UnitWord(Minute) + "s";
    RelativeRoundTrip("", 10, Minute, "s", now);
  }

  lemma ExampleQuestion(now: int)
    requires 600 <= now
    ensures Parse("What happened in the last 10 minutes?", now) == Range(now - 600, now)
  {
    assert ShowNat(10) == "10";
    assert "What happened in the last 10 minutes?" == "What happened in the " + "last " + ShowNat(10) + " " + UnitWord(Minute) + "s?";
    RelativeRoundTrip("What happened in the ", 10, Minute, "s?", now);
  }

  lemma ExampleBetween(now: int)
    ensures Parse("between 14:00 and 15:00", now) == Range(Midnight(now) + 50400, Midnight(now) + 54000)
  {
    assert ShowClock(Clock(14, 0)) == "14:00" && ShowClock(Clock(15, 0)) == "15:00";
    assert "between 14:00 and 15:00" == "" + AbsoluteQuery(Clock(14, 0), Clock(15, 0)) + "";
    AbsoluteRoundTrip("", Clock(14, 0), Clock(15, 0), "", now);
  }

  lemma ExampleBetweenInQuestion(now: int)
    ensures Parse("What happened between 14:00 and 15:00?", now) == Range(Midnight(now) + 50400, Midnight(now) + 54000)
  {
    assert ShowClock(Clock(14, 0)) == "14:00" && ShowClock(Clock(15, 0)) == "15:00";
    assert "What happened between 14:00 and 15:00?" == "What happened " + AbsoluteQuery(Clock(14, 0), Clock(15, 0)) + "?";
    AbsoluteRoundTrip("What happened ", Clock(14, 0), Clock(15, 0), "?", now);
  }

  /** An end earlier than the start is taken to be on the next day. */
  lemma ExampleOvernight(now: int)
    ensures Parse("between 23:00 and 01:00", now) == Range(Midnight(now) + 82800, Midnight(now) + 90000)
  {
    assert ShowClock(Clock(23, 0)) == "23:00" && ShowClock(Clock(1, 0)) == "01:00";
    assert "between 23:00 and 01:00" == "" + AbsoluteQuery(Clock(23, 0), Clock(1, 0)) + "";
    AbsoluteRoundTrip("", Clock(23, 0), Clock(1, 0), "", now);
  }

  /** An hour past 23 matches the grammar but is rejected by the clock conversion. */
  lemma ExampleHourOutOfRange(now: int)
    ensures Parse("between 25:00 and 01:00", now) == InvalidTime
  {
    assert ShowClock(Clock(25, 0)) == "25:00" && ShowClock(Clock(1, 0)) == "01:00";
    assert "between 25:00 and 01:00" == "" + AbsoluteQuery(Clock(25, 0), Clock(1, 0)) + "";
    AbsoluteRoundTrip("", Clock(25, 0), Clock(1, 0), "", now);
  }

  lemma ExampleUnrelated(now: int)
    ensures Parse("what happened yesterday", now) == NoMatch
  {
    NoLettersNoMatch("what happened yesterday", now);
  }

  /** The between grammar is case-sensitive. */
  lemma ExampleCapitalBetween(now: int)
    ensures Parse("Between 14:00 and 15:00", now) == NoMatch
  {
    NoLettersNoMatch("Between 14:00 and 15:00", now);
  }

  /** The relative grammar wins even when a between phrase comes first. */
  lemma ExampleRelativeWins(now: int)
    requires 300 <= now
    ensures Parse("between 14:00 and 15:00 or the last 5 minutes", now) == Range(now - 300, now)
  {
    var prefix := "between 14:00 and 15:00 or the ";
    assert NoLetterL(prefix);
    assert ShowNat(5) == "5";
    assert prefix + "last " + ShowNat(5) + " " + UnitWord(Minute) + "s" == "between 14:00 and 15:00 or the last 5 minutes";
    RelativeRoundTrip(prefix, 5, Minute, "s", now);
  }

  /** Letters of the relative grammar may be in any case. */
  lemma ExampleUpperCase(now: int)
    requires 7200 <= now
    ensures Parse("LAST 2 HOURS", now) == Range(now - 7200, now)
  {
    var q := "LAST 2 HOURS";
    assert LastAt(q, 0) && HasAt(q, 5, "2") && CharAt(q, 6, ' ') && WordAt(q, 7, Hour);
    RelativeMatch(q, 0, "2", Hour);
    assert Decimal("2") == 2;
    ParseFirstRelative(q, 0, "2", Hour, 2, now);
  }

  /** A hundred million hours reach back before `datetime.min` from every clock reading a `datetime` can hold. */
  lemma ExampleBeforeYearOne(now: int)
    requires now <= MaxTime
    ensures Parse("last 100000000 hours", now) == OutOfRange
  {
    var q, d := "last 100000000 hours", "100000000";
    assert LastAt(q, 0) && HasAt(q, 5, d) && CharAt(q, 14, ' ') && WordAt(q, 15, Hour);
    RelativeMatch(q, 0, d, Hour);
    DecimalHundredMillion();
    ParseFirstRelative(q, 0, d, Hour, 100000000, now);
  }

  /** `int("100000000")`, one digit at a time. */
  lemma DecimalHundredMillion()
    ensures Decimal("100000000") == 100000000
  {
    assert Decimal("1") == 1;
    DecimalSnoc("1", '0');
    assert "1" + ['0'] == "10";
    DecimalSnoc("10", '0');
    assert "10" + ['0'] == "100";
    DecimalSnoc("100", '0');
    assert "100" + ['0'] == "1000";
    DecimalSnoc("1000", '0');
    assert "1000" + ['0'] == "10000";
    DecimalSnoc("10000", '0');
    assert "10000" + ['0'] == "100000";
    DecimalSnoc("100000", '0');
    assert "100000" + ['0'] == "1000000";
    DecimalSnoc("1000000", '0');
    assert "1000000" + ['0'] == "10000000";
    DecimalSnoc("10000000", '0');
    assert "10000000" + ['0'] == "100000000";
  }
}
