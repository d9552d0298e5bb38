/**
 * The trigger timestamps (`extract_trigger_timestamp` and the five
 * decompositions).  The header is scanned with
 * `Description:!?\s+(\d{2}\s\w{3}\s'\d{2}\s\d{2}:\d{2}:\d{2}\.\d{3})\s[+-]`;
 * each capture is parsed with `datetime.strptime(_, "%d %b '%y %H:%M:%S.%f")`,
 * and a capture that does not parse raises `ValueError`.  The UTC offset
 * after the capture only ends the pattern: it is never applied.
 */
module Timestamps {
  import opened Wrappers
  import opened Text
  import opened Splitter

  /** A naive `datetime`: no time zone. */
  datatype Timestamp = Timestamp(year: int, month: int, day: int, hour: int, minute: int, second: int, microsecond: int)

  /** What `datetime.date()` keeps. */
  datatype Date = Date(year: int, month: int, day: int)

  predicate IsLeapYear(y: int) {
    y % 4 == 0 && (y % 100 != 0 || y % 400 == 0)
  }

  /** Days in month `m` (1..12) of year `y`. */
  function DaysInMonth(y: int, m: int): (d: int)
    requires 1 <= m <= 12
    ensures 28 <= d <= 31
    ensures m == 2 ==> (d == 29 <==> IsLeapYear(y))
  {
    if m == 2 then (if IsLeapYear(y) then 29 else 28)
    else if m == 4 || m == 6 || m == 9 || m == 11 then 30
    else 31
  }

  /** The field ranges a `datetime` enforces. */
  predicate Valid(t: Timestamp) {
    1 <= t.month <= 12 && 1 <= t.day <= DaysInMonth(t.year, t.month)
    && 0 <= t.hour < 24 && 0 <= t.minute < 60 && 0 <= t.second < 60
    && 0 <= t.microsecond < 1000000
  }

  /** The English abbreviation of month `m`, as the header writes it. */
  function MonthName(m: int): (n: string)
    requires 1 <= m <= 12
    ensures |n| == 3 && IsLetter(n[0]) && IsLetter(n[1]) && IsLetter(n[2])
  {
    if m == 1 then "Jan" else if m == 2 then "Feb" else if m == 3 then "Mar"
    else if m == 4 then "Apr" else if m == 5 then "May" else if m == 6 then "Jun"
    else if m == 7 then "Jul" else if m == 8 then "Aug" else if m == 9 then "Sep"
    else if m == 10 then "Oct" else if m == 11 then "Nov" else "Dec"
  }

  /** The same abbreviation in small letters, the form `%b` looks a lowered name up by. */
  function MonthKey(m: int): (k: string)
    requires 1 <= m <= 12
    ensures |k| == 3
  {
    if m == 1 then "jan" else if m == 2 then "feb" else if m == 3 then "mar"
    else if m == 4 then "apr" else if m == 5 then "may" else if m == 6 then "jun"
    else if m == 7 then "jul" else if m == 8 then "aug" else if m == 9 then "sep"
    else if m == 10 then "oct" else if m == 11 then "nov" else "dec"
  }

  /** The three-letter `key` is month `m`'s key, compared letter by letter. */
  predicate IsKeyOf(key: string, m: int)
    requires |key| == 3 && 1 <= m <= 12
  {
    key[0] == MonthKey(m)[0] && key[1] == MonthKey(m)[1] && key[2] == MonthKey(m)[2]
  }

  /** The number of the month whose key is `key`, trying months `m..12`. */
  function MonthFrom(key: string, m: int): (r: Option<int>)
    requires |key| == 3 && 1 <= m <= 13
    decreases 13 - m
    ensures r.Some? ==> m <= r.value <= 12 && key == MonthKey(r.value)
    ensures r.None? <==> forall j :: m <= j <= 12 ==> key != MonthKey(j)
  {
    if m == 13 then None
    else if IsKeyOf(key, m) then
      assert key == MonthKey(m);
      Some(m)
    else MonthFrom(key, m + 1)
  }

  /** `%b`: the number of the month the three letters `name` abbreviate, in any mix of cases. */
  function MonthNumber(name: string): (r: Option<int>)
    requires |name| == 3
    ensures r.Some? ==> 1 <= r.value <= 12 && LowerAll(name) == MonthKey(r.value)
    ensures r.None? <==> forall j :: 1 <= j <= 12 ==> LowerAll(name) != MonthKey(j)
  {
    MonthFrom(LowerAll(name), 1)
  }

  /** The key of a month is its abbreviation lowered. */
  lemma MonthKeyLowered(m: int)
    requires 1 <= m <= 12
    ensures LowerAll(MonthName(m)) == MonthKey(m)
  {
    var n := MonthName(m);
    assert LowerAll(n) == [Lower(n[0]), Lower(n[1]), Lower(n[2])];
  }

  /** `%y`: 00..68 are 2000..2068, 69..99 are 1969..1999. */
  function ExpandYear(yy: int): (y: int)
    requires 0 <= yy < 100
    ensures 1969 <= y <= 2068 && y % 100 == yy
  {
    if yy <= 68 then 2000 + yy else 1900 + yy
  }

  function DigitValue(c: char): int {
    c as int - '0' as int
  }

  /** The number written by the two digits at `p`. */
  function TwoDigits(s: string, p: nat): (n: int)
    requires p + 2 <= |s| && IsDigit(s[p]) && IsDigit(s[p + 1])
    ensures 0 <= n < 100
  {
    10 * DigitValue(s[p]) + DigitValue(s[p + 1])
  }

  /** The number written by the three digits at `p`. */
  function ThreeDigits(s: string, p: nat): (n: int)
    requires p + 3 <= |s| && IsDigit(s[p]) && IsDigit(s[p + 1]) && IsDigit(s[p + 2])
    ensures 0 <= n < 1000
  {
    100 * DigitValue(s[p]) + 10 * DigitValue(s[p + 1]) + DigitValue(s[p + 2])
  }

  /**
   * `\d{2}\s\w{3}\s'\d{2}\s\d{2}:\d{2}:\d{2}\.\d{3}`: the shape of every
   * capture, 23 characters long.
   */
  predicate CaptureShape(s: string) {
    |s| == 23
    && IsDigit(s[0]) && IsDigit(s[1]) && IsSpace(s[2])
    && IsWordChar(s[3]) && IsWordChar(s[4]) && IsWordChar(s[5]) && IsSpace(s[6])
    && s[7] == '\'' && IsDigit(s[8]) && IsDigit(s[9]) && IsSpace(s[10])
    && IsDigit(s[11]) && IsDigit(s[12]) && s[13] == ':'
    && IsDigit(s[14]) && IsDigit(s[15]) && s[16] == ':'
    && IsDigit(s[17]) && IsDigit(s[18]) && s[19] == '.'
    && IsDigit(s[20]) && IsDigit(s[21]) && IsDigit(s[22])
  }

  /** The numbers the directives of the format read from a capture. */
  datatype Fields = Fields(day: int, month: Option<int>, yy: int, hour: int, minute: int, second: int, millis: int)

  predicate InRange(f: Fields) {
    0 <= f.day < 100 && (f.month.Some? ==> 1 <= f.month.value <= 12) && 0 <= f.yy < 100
    && 0 <= f.hour < 100 && 0 <= f.minute < 100 && 0 <= f.second < 100 && 0 <= f.millis < 1000
  }

  /** `%d`, `%b`, `%y`, `%H`, `%M`, `%S` and `%f` read from their places in a capture. */
  function FieldsOf(s: string): (f: Fields)
    requires CaptureShape(s)
    ensures InRange(f)
  {
    Fields(TwoDigits(s, 0), MonthNumber(s[3..6]), TwoDigits(s, 8), TwoDigits(s, 11), TwoDigits(s, 14),
           TwoDigits(s, 17), ThreeDigits(s, 20))
  }

  /**
   * The checks `strptime` makes on the fields and the `datetime` it builds.
   * The directive patterns admit days 01..31, hours 00..23, minutes 00..59
   * and seconds 00..61; building the `datetime` then rejects seconds 60 and
   * 61 and a day past the end of its month.  The three fraction digits are
   * milliseconds, so the microsecond is a multiple of 1000.
   */
  function Build(f: Fields): (r: Result<Timestamp>)
    requires InRange(f)
    ensures r.Failure? ==> r.error == ValueError
    ensures r.Success? ==> Valid(r.value) && 1969 <= r.value.year <= 2068 && r.value.microsecond % 1000 == 0
    ensures r.Success? <==>
      f.month.Some? && 1 <= f.day <= DaysInMonth(ExpandYear(f.yy), f.month.value)
      && f.hour < 24 && f.minute < 60 && f.second < 60
  {
    var year := ExpandYear(f.yy);
    if f.month.None? || f.day < 1 || f.day > 31 || f.hour > 23 || f.minute > 59 || f.second > 61 then
      Failure(ValueError)
    else if f.second > 59 || f.day > DaysInMonth(year, f.month.value) then
      Failure(ValueError)
    else
      Success(Timestamp(year, f.month.value, f.day, f.hour, f.minute, f.second, f.millis * 1000))
  }

  /** `datetime.strptime(s, "%d %b '%y %H:%M:%S.%f")` on a capture. */
  function ParseTimestamp(s: string): Result<Timestamp>
    requires CaptureShape(s)
  {
    Build(FieldsOf(s))
  }

  /** The digit character for `0 <= n < 10`. */
  function DigitChar(n: int): (c: char)
    requires 0 <= n < 10
    ensures IsDigit(c) && DigitValue(c) == n
  {
    ('0' as int + n) as char
  }

  /** The two digits writing `0 <= n < 100`. */
  function TwoDigitString(n: int): (s: string)
    requires 0 <= n < 100
    ensures |s| == 2 && IsDigit(s[0]) && IsDigit(s[1]) && TwoDigits(s, 0) == n
  {
    [DigitChar(n / 10), DigitChar(n % 10)]
  }

  /** The three digits writing `0 <= n < 1000`. */
  function ThreeDigitString(n: int): (s: string)
    requires 0 <= n < 1000
    ensures |s| == 3 && IsDigit(s[0]) && IsDigit(s[1]) && IsDigit(s[2])
    ensures ThreeDigits(s, 0) == n
  {
    [DigitChar(n / 100), DigitChar(n / 10 % 10), DigitChar(n % 10)]
  }

  /** The capture layout `dd Mon 'yy HH:MM:SS.fff` filled with its pieces. */
  function Layout(d: string, n: string, y: string, h: string, mi: string, se: string, f: string): (s: string)
    requires |d| == 2 && |n| == 3 && |y| == 2 && |h| == 2 && |mi| == 2 && |se| == 2 && |f| == 3
    ensures |s| == 23
  {
    [d[0], d[1], ' ', n[0], n[1], n[2], ' ', '\'', y[0], y[1], ' ', h[0], h[1], ':',
     mi[0], mi[1], ':', se[0], se[1], '.', f[0], f[1], f[2]]
  }

  /** Where the layout puts each piece. */
  lemma LayoutPieces(d: string, n: string, y: string, h: string, mi: string, se: string, f: string)
    requires |d| == 2 && |n| == 3 && |y| == 2 && |h| == 2 && |mi| == 2 && |se| == 2 && |f| == 3
    ensures var s := Layout(d, n, y, h, mi, se, f);
      s[0..2] == d && s[3..6] == n && s[8..10] == y && s[11..13] == h && s[14..16] == mi
      && s[17..19] == se && s[20..23] == f
  {
    var s := Layout(d, n, y, h, mi, se, f);
    assert s[0..2] == d;
    assert s[3..6] == n;
    assert s[8..10] == y;
    assert s[11..13] == h;
    assert s[14..16] == mi;
    assert s[17..19] == se;
    assert s[20..23] == f;
  }

  /** The capture text of a timestamp, in the layout the header uses: `05 Jan '24 12:30:45.123`. */
  function Format(t: Timestamp): (s: string)
    requires Valid(t) && 1969 <= t.year <= 2068
    ensures |s| == 23
  {
    Layout(TwoDigitString(t.day), MonthName(t.month), TwoDigitString(t.year % 100), TwoDigitString(t.hour),
           TwoDigitString(t.minute), TwoDigitString(t.second), ThreeDigitString(t.microsecond / 1000))
  }

  /** `Format` writes the capture shape, with the timestamp's fields in their places. */
  lemma FormatPieces(t: Timestamp)
    requires Valid(t) && 1969 <= t.year <= 2068
    ensures var s := Format(t);
      CaptureShape(s)
      && s[0..2] == TwoDigitString(t.day) && s[3..6] == MonthName(t.month)
      && s[8..10] == TwoDigitString(t.year % 100) && s[11..13] == TwoDigitString(t.hour)
      && s[14..16] == TwoDigitString(t.minute) && s[17..19] == TwoDigitString(t.second)
      && s[20..23] == ThreeDigitString(t.microsecond / 1000)
  {
    LayoutPieces(TwoDigitString(t.day), MonthName(t.month), TwoDigitString(t.year % 100), TwoDigitString(t.hour),
                 TwoDigitString(t.minute), TwoDigitString(t.second), ThreeDigitString(t.microsecond / 1000));
  }

  /** Every abbreviation, looked up, gives its own month number. */
  lemma MonthNumberOfName(m: int)
    requires 1 <= m <= 12
    ensures MonthNumber(MonthName(m)) == Some(m)
  {
    MonthKeyLowered(m);
    if m == 1 { assert MonthFrom("jan", 1) == Some(1); }
    else if m == 2 { assert MonthFrom("feb", 1) == Some(2); }
    else if m == 3 { assert MonthFrom("mar", 1) == Some(3); }
    else if m == 4 { assert MonthFrom("apr", 1) == Some(4); }
    else if m == 5 { assert MonthFrom("may", 1) == Some(5); }
    else if m == 6 { assert MonthFrom("jun", 1) == Some(6); }
    else if m == 7 { assert MonthFrom("jul", 1) == Some(7); }
    else if m == 8 { assert MonthFrom("aug", 1) == Some(8); }
    else if m == 9 { assert MonthFrom("sep", 1) == Some(9); }
    else if m == 10 { assert MonthFrom("oct", 1) == Some(10); }
    else if m == 11 { assert MonthFrom("nov", 1) == Some(11); }
    else { assert MonthFrom("dec", 1) == Some(12); }
  }

  /** Writing back two digits that were read gives the same two characters. */
  lemma TwoDigitsRoundTrip(s: string, p: nat)
    requires p + 2 <= |s| && IsDigit(s[p]) && IsDigit(s[p + 1])
    ensures TwoDigitString(TwoDigits(s, p)) == s[p..p + 2]
  {
    DivTen(DigitValue(s[p]), DigitValue(s[p + 1]));
  }

  /** Writing back three digits that were read gives the same three characters. */
  lemma ThreeDigitsRoundTrip(s: string, p: nat)
    requires p + 3 <= |s| && IsDigit(s[p]) && IsDigit(s[p + 1]) && IsDigit(s[p + 2])
    ensures ThreeDigitString(ThreeDigits(s, p)) == s[p..p + 3]
  {
    var a := DigitValue(s[p]);
    var b := DigitValue(s[p + 1]);
    var c := DigitValue(s[p + 2]);
    DivHundred(a, 10 * b + c);
    DivTen(10 * a + b, c);
    DivTen(a, b);
  }

  lemma DivTen(q: int, r: int)
    requires 0 <= r < 10
    ensures (10 * q + r) / 10 == q && (10 * q + r) % 10 == r
  {
  }

  lemma DivHundred(q: int, r: int)
    requires 0 <= r < 100
    ensures (100 * q + r) / 100 == q && (100 * q + r) % 100 == r
  {
  }

  /** Reading two digits where `TwoDigitString(n)` was written gives `n`. */
  lemma ReadTwo(s: string, p: nat, n: int)
    requires p + 2 <= |s| && 0 <= n < 100 && s[p..p + 2] == TwoDigitString(n)
    ensures IsDigit(s[p]) && IsDigit(s[p + 1]) && TwoDigits(s, p) == n
  {
    assert s[p] == s[p..p + 2][0] && s[p + 1] == s[p..p + 2][1];
  }

  /** Reading three digits where `ThreeDigitString(n)` was written gives `n`. */
  lemma ReadThree(s: string, p: nat, n: int)
    requires p + 3 <= |s| && 0 <= n < 1000 && s[p..p + 3] == ThreeDigitString(n)
    ensures IsDigit(s[p]) && IsDigit(s[p + 1]) && IsDigit(s[p + 2]) && ThreeDigits(s, p) == n
  {
    assert s[p] == s[p..p + 3][0] && s[p + 1] == s[p..p + 3][1] && s[p + 2] == s[p..p + 3][2];
  }

  /** The directives read back the fields `Format` wrote. */
  lemma FormatFields(t: Timestamp)
    requires Valid(t) && 1969 <= t.year <= 2068
    ensures CaptureShape(Format(t))
    ensures FieldsOf(Format(t))
      == Fields(t.day, Some(t.month), t.year % 100, t.hour, t.minute, t.second, t.microsecond / 1000)
  {
    var s := Format(t);
    FormatPieces(t);
    MonthNumberOfName(t.month);
    ReadTwo(s, 0, t.day);
    ReadTwo(s, 8, t.year % 100);
    ReadTwo(s, 11, t.hour);
    ReadTwo(s, 14, t.minute);
    ReadTwo(s, 17, t.second);
    ReadThree(s, 20, t.microsecond / 1000);
  }

  /** `Build` accepts the fields of a valid timestamp and rebuilds it. */
  lemma BuildFieldsOf(t: Timestamp)
    requires Valid(t) && 1969 <= t.year <= 2068 && t.microsecond % 1000 == 0
    ensures Build(Fields(t.day, Some(t.month), t.year % 100, t.hour, t.minute, t.second, t.microsecond / 1000))
      == Success(t)
  {
    assert ExpandYear(t.year % 100) == t.year;
  }

  /** A successful parse holds the numbers read from the capture, the year expanded by `%y`. */
  lemma ParsedFields(s: string)
    requires CaptureShape(s) && ParseTimestamp(s).Success?
    ensures var t := ParseTimestamp(s).value;
      t.day == TwoDigits(s, 0) && MonthNumber(s[3..6]) == Some(t.month)
      && t.year == ExpandYear(TwoDigits(s, 8)) && t.hour == TwoDigits(s, 11) && t.minute == TwoDigits(s, 14)
      && t.second == TwoDigits(s, 17)
      && t.microsecond == 1000 * ThreeDigits(s, 20) && t.microsecond / 1000 == ThreeDigits(s, 20)
  {
  }

  /**
   * Every timestamp a header can carry is read back from its own text:
   * `strptime` inverts the layout for years 1969..2068 and whole milliseconds.
   */
  lemma FormatThenParse(t: Timestamp)
    requires Valid(t) && 1969 <= t.year <= 2068 && t.microsecond % 1000 == 0
    ensures CaptureShape(Format(t))
    ensures ParseTimestamp(Format(t)) == Success(t)
  {
    FormatFields(t);
    BuildFieldsOf(t);
  }

  /**
   * A capture that parses is written back by `Format` with the same digits,
   * the same month name up to case, and (both being captures) the same
   * punctuation; only the three whitespace separators may differ.
   */
  lemma ParseThenFormat(s: string)
    requires CaptureShape(s) && ParseTimestamp(s).Success?
    ensures var f := Format(ParseTimestamp(s).value);
      CaptureShape(f)
      && f[0..2] == s[0..2] && LowerAll(f[3..6]) == LowerAll(s[3..6]) && f[8..10] == s[8..10]
      && f[11..13] == s[11..13] && f[14..16] == s[14..16] && f[17..19] == s[17..19] && f[20..23] == s[20..23]
  {
    var t := ParseTimestamp(s).value;
    ParsedFields(s);
    FormatPieces(t);
    MonthKeyLowered(t.month);
    TwoDigitsRoundTrip(s, 0);
    TwoDigitsRoundTrip(s, 8);
    TwoDigitsRoundTrip(s, 11);
    TwoDigitsRoundTrip(s, 14);
    TwoDigitsRoundTrip(s, 17);
    ThreeDigitsRoundTrip(s, 20);
  }

  /**
   * The rest of the pattern tried with the marker ending at `w`: `!?\s+` is
   * matched greedily and, as the capture opens with a digit, the capture can
   * only start where the whitespace run ends; then come the 23 characters of
   * the capture, one whitespace character and the sign of the offset.  The
   * result is where the capture starts, or None when the pattern fails.
   */
  function StampCapture(s: string, w: nat): (e: Option<nat>)
    requires w <= |s|
    ensures e.Some? ==> w < e.value && e.value + 25 <= |s|
  {
    var a := if w < |s| && s[w] == '!' then w + 1 else w;
    var e := SpaceRunEnd(s, a);
    if e > a && CaptureThenSign(s, e) then Some(e) else None
  }

  /** At `e` stand a capture, one whitespace character and the sign of the offset. */
  predicate CaptureThenSign(s: string, e: nat) {
    e + 25 <= |s| && CaptureShape(s[e..e + 23]) && IsSpace(s[e + 23]) && (s[e + 24] == '+' || s[e + 24] == '-')
  }

  /**
   * The rest of the pattern matches from `w` with its capture at `e`: `!?`
   * then at least one whitespace character up to `e`, the 23 characters of
   * the capture, one whitespace character and the sign of the offset.
   */
  ghost predicate StampMatch(s: string, w: nat, e: nat) {
    w < e && e + 25 <= |s| && (s[w] == '!' || IsSpace(s[w])) && (s[w] == '!' ==> w + 1 < e)
    && (forall k :: w < k < e ==> IsSpace(s[k])) && CaptureThenSign(s, e)
  }

  /** A greedy `\s+` from `a` stops at `e` when `a..e` is white space and `e` is not. */
  lemma {:induction false} SpaceRunEndAt(s: string, a: nat, e: nat)
    requires a <= e < |s| && !IsSpace(s[e])
    requires forall k :: a <= k < e ==> IsSpace(s[k])
    ensures SpaceRunEnd(s, a) == e
    decreases e - a
  {
    if a < e {
      SpaceRunEndAt(s, a + 1, e);
    }
  }

  lemma StampCaptureOfMatch(s: string, w: nat, e: nat)
    requires w <= |s| && StampMatch(s, w, e)
    ensures StampCapture(s, w) == Some(e)
  {
    var a := if s[w] == '!' then w + 1 else w;
    assert s[e] == s[e..e + 23][0];
    SpaceRunEndAt(s, a, e);
  }

  lemma StampCaptureIsMatch(s: string, w: nat)
    requires w <= |s| && StampCapture(s, w).Some?
    ensures StampMatch(s, w, StampCapture(s, w).value)
  {
  }

  /** `StampCapture` finds the capture exactly when the rest of the pattern matches, and finds none otherwise. */
  lemma StampCaptureMeaning(s: string, w: nat)
    requires w <= |s|
    ensures forall e: nat :: StampMatch(s, w, e) <==> StampCapture(s, w) == Some(e)
  {
    forall e: nat | StampMatch(s, w, e)
      ensures StampCapture(s, w) == Some(e)
    {
      StampCaptureOfMatch(s, w, e);
    }
    if StampCapture(s, w).Some? {
      StampCaptureIsMatch(s, w);
    }
  }

  /** The marker occurs at `p` and the rest of the pattern matches after it. */
  predicate StampAt(s: string, p: nat) {
    p + |DescriptionMarker| <= |s| && MatchesFrom(s, DescriptionMarker, p, 0)
    && StampCapture(s, p + |DescriptionMarker|).Some?
  }

  /** The rest of the pattern matches from `w`, with its capture somewhere. */
  ghost predicate RestMatches(s: string, w: nat) {
    exists e: nat :: StampMatch(s, w, e)
  }

  /** The whole pattern matches at `p` exactly when the marker occurs there and the rest of the pattern matches after it. */
  lemma StampAtMeaning(s: string, p: nat)
    requires p <= |s|
    ensures StampAt(s, p) <==> OccursAt(s, DescriptionMarker, p) && RestMatches(s, p + 12)
  {
    if p + 12 <= |s| {
      MatchesMeaning(s, DescriptionMarker, p);
      StampCaptureMeaning(s, p + 12);
      if StampAt(s, p) {
        assert StampMatch(s, p + 12, StampCapture(s, p + 12).value);
      }
    }
  }

  /** `findall` of the timestamp pattern from search position `pos`; the search resumes after the sign. */
  function CapturesFrom(s: string, pos: nat): (r: seq<string>)
    requires pos <= |s|
    decreases |s| - pos
    ensures forall k :: 0 <= k < |r| ==> CaptureShape(r[k])
  {
    if pos + |DescriptionMarker| > |s| then []
    else if StampAt(s, pos) then
      var e := StampCapture(s, pos + |DescriptionMarker|).value;
      StampCaptureMeaning(s, pos + |DescriptionMarker|);
      [s[e..e + 23]] + CapturesFrom(s, e + 25)
    else CapturesFrom(s, pos + 1)
  }

  /** Reference definition: the capture of every position where the whole pattern matches, in header order. */
  function EveryCapture(s: string, pos: nat): seq<string>
    requires pos <= |s|
    decreases |s| - pos
  {
    if pos == |s| then []
    else
      (if StampAt(s, pos) then var e := StampCapture(s, pos + 12).value; [s[e..e + 23]] else [])
      + EveryCapture(s, pos + 1)
  }

  /** Only the month name of a capture can hold a `D`. */
  lemma CaptureShapeNoD(c: string, j: nat)
    requires CaptureShape(c) && j < 23 && !(3 <= j < 6)
    ensures c[j] != 'D'
  {
  }

  /** Within a match, a `D` can only be a letter of the month name, three places before white space. */
  lemma StampMatchChars(s: string, w: nat, e: nat, q: nat)
    requires StampMatch(s, w, e) && w <= q < e + 25
    ensures s[q] != 'D' || (e + 3 <= q < e + 6 && IsSpace(s[e + 6]))
  {
    var c := s[e..e + 23];
    if e <= q < e + 23 {
      assert s[q] == c[q - e];
      assert s[e + 6] == c[6];
      if !(3 <= q - e < 6) {
        CaptureShapeNoD(c, q - e);
      }
    }
  }

  /** A character that differs from the marker's rules out the marker. */
  lemma MarkerMismatch(s: string, q: nat, k: nat)
    requires q + 12 <= |s| && k < 12 && s[q + k] != DescriptionMarker[k]
    ensures !OccursAt(s, DescriptionMarker, q)
  {
    assert s[q..q + 12][k] == s[q + k];
  }

  /**
   * No marker starts inside a match: after its `D`, a match holds only the
   * rest of the marker, `!`, white space, the capture (whose only letters
   * are the three of the month, followed by white space) and the sign.
   */
  lemma NoMarkerInside(s: string, p: nat, e: nat, q: nat)
    requires OccursAt(s, DescriptionMarker, p) && StampMatch(s, p + 12, e)
    requires p < q < e + 25 && q + 12 <= |s|
    ensures !OccursAt(s, DescriptionMarker, q)
  {
    if q < p + 12 {
      assert s[q] == s[p..p + 12][q - p];
      MarkerMismatch(s, q, 0);
    } else {
      StampMatchChars(s, p + 12, e, q);
      if s[q] == 'D' {
        MarkerMismatch(s, q, e + 6 - q);
      } else {
        MarkerMismatch(s, q, 0);
      }
    }
  }

  /** Matches never overlap: none starts inside another. */
  lemma NoStampInside(s: string, p: nat, q: nat)
    requires StampAt(s, p) && p < q < StampCapture(s, p + 12).value + 25
    ensures !StampAt(s, q)
  {
    StampCaptureMeaning(s, p + 12);
    MatchesMeaning(s, DescriptionMarker, p);
    if q + 12 <= |s| {
      NoMarkerInside(s, p, StampCapture(s, p + 12).value, q);
      MatchesMeaning(s, DescriptionMarker, q);
    }
  }

  lemma {:induction false} EveryCaptureSkip(s: string, a: nat, b: nat)
    requires a <= b <= |s| && forall q :: a <= q < b ==> !StampAt(s, q)
    ensures EveryCapture(s, a) == EveryCapture(s, b)
    decreases b - a
  {
    if a < b {
      EveryCaptureSkip(s, a + 1, b);
      assert EveryCapture(s, a) == [] + EveryCapture(s, a + 1);
    }
  }

  lemma {:induction false} EveryCaptureTail(s: string, pos: nat)
    requires pos <= |s| && pos + |DescriptionMarker| > |s|
    ensures EveryCapture(s, pos) == []
    decreases |s| - pos
  {
    if pos < |s| {
      EveryCaptureTail(s, pos + 1);
    }
  }

  /**
   * Matches never overlap, so the non-overlapping search finds the capture
   * of every position where the pattern matches.
   */
  lemma {:induction false} CapturesFromEvery(s: string, pos: nat)
    requires pos <= |s|
    ensures CapturesFrom(s, pos) == EveryCapture(s, pos)
    decreases |s| - pos
  {
    if pos + |DescriptionMarker| > |s| {
      EveryCaptureTail(s, pos);
    } else if StampAt(s, pos) {
      var e := StampCapture(s, pos + 12).value;
      assert CapturesFrom(s, pos) == [s[e..e + 23]] + CapturesFrom(s, e + 25);
      assert EveryCapture(s, pos) == [s[e..e + 23]] + EveryCapture(s, pos + 1);
      CapturesFromEvery(s, e + 25);
      forall q | pos + 1 <= q < e + 25
        ensures !StampAt(s, q)
      {
        NoStampInside(s, pos, q);
      }
      EveryCaptureSkip(s, pos + 1, e + 25);
    } else {
      assert CapturesFrom(s, pos) == CapturesFrom(s, pos + 1);
      assert EveryCapture(s, pos) == [] + EveryCapture(s, pos + 1);
      CapturesFromEvery(s, pos + 1);
    }
  }

  /** The timestamp captures of a header: the capture of every match, in header order. */
  function Captures(hdr: string): (r: seq<string>)
    ensures forall k :: 0 <= k < |r| ==> CaptureShape(r[k])
    ensures r == EveryCapture(hdr, 0)
  {
    CapturesFromEvery(hdr, 0);
    CapturesFrom(hdr, 0)
  }

  /** A header without the marker has no timestamps. */
  lemma {:induction false} CapturesFromNone(s: string, pos: nat)
    requires pos <= |s|
    requires forall p :: pos <= p ==> !OccursAt(s, DescriptionMarker, p)
    ensures CapturesFrom(s, pos) == []
    decreases |s| - pos
  {
    if pos + |DescriptionMarker| <= |s| {
      MatchesMeaning(s, DescriptionMarker, pos);
      CapturesFromNone(s, pos + 1);
    }
  }

  /**
   * A header opening with a well-formed timestamp line yields that capture
   * first, whichever sign its offset has, and the search resumes right after
   * the sign: the offset's digits are never read.
   */
  lemma LeadingCapture(c: string, sign: char, rest: string)
    requires CaptureShape(c) && (sign == '+' || sign == '-')
    ensures var h := DescriptionMarker + [' '] + c + [' ', sign] + rest;
      CapturesFrom(h, 0) == [c] + CapturesFrom(h, 38)
  {
    var h := DescriptionMarker + [' '] + c + [' ', sign] + rest;
    assert h[0..12] == DescriptionMarker;
    assert h[12] == ' ' && !IsSpace(h[13]);
    assert SpaceRunEnd(h, 12) == 13;
    assert h[13..36] == c;
    assert h[36] == ' ' && h[37] == sign;
    assert StampCapture(h, 12) == Some(13);
  }

  /** The `strptime` loop over the captures: every capture parsed, or the first `ValueError`. */
  function ParseAll(caps: seq<string>): (r: Result<seq<Timestamp>>)
    requires forall k :: 0 <= k < |caps| ==> CaptureShape(caps[k])
    ensures r.Failure? ==> r.error == ValueError
    ensures r.Success? ==> |r.value| == |caps|
  {
    if caps == [] then Success([])
    else
      var t :- ParseTimestamp(caps[0]);
      var rest :- ParseAll(caps[1..]);
      Success([t] + rest)
  }

  /** The loop succeeds exactly when every capture parses, and then keeps their order. */
  lemma {:induction false} ParseAllMeaning(caps: seq<string>)
    requires forall k :: 0 <= k < |caps| ==> CaptureShape(caps[k])
    ensures ParseAll(caps).Success? <==> forall k :: 0 <= k < |caps| ==> ParseTimestamp(caps[k]).Success?
    ensures ParseAll(caps).Success? ==>
      forall k :: 0 <= k < |caps| ==> ParseAll(caps).value[k] == ParseTimestamp(caps[k]).value
  {
    if caps != [] {
      ParseAllMeaning(caps[1..]);
      assert forall k :: 1 <= k < |caps| ==> caps[1..][k - 1] == caps[k];
    }
  }

  /**
   * `extract_trigger_timestamp`: the parsed trigger times of a header, in
   * header order; a header that is `None` makes `findall` raise.
   */
  function TriggerTimestamps(hdr: Option<string>): (r: Result<seq<Timestamp>>)
    ensures hdr.None? ==> r == Failure(TypeError)
    ensures hdr.Some? && r.Failure? ==> r.error == ValueError
    ensures r.Success? ==>
      && |r.value| == |Captures(hdr.value)|
      && forall k :: 0 <= k < |r.value| ==> Valid(r.value[k]) && r.value[k].microsecond % 1000 == 0
  {
    if hdr.None? then Failure(TypeError)
    else
      var caps := Captures(hdr.value);
      var r := ParseAll(caps);
      ParseAllMeaning(caps);
      r
  }

  /** `extract_dates`: `tstamp.date()` of each timestamp. */
  function Dates(ts: seq<Timestamp>): (r: seq<Date>)
    ensures |r| == |ts|
    ensures forall k :: 0 <= k < |ts| ==>
      r[k].year == ts[k].year && r[k].month == ts[k].month && r[k].day == ts[k].day
  {
    seq(|ts|, k requires 0 <= k < |ts| => Date(ts[k].year, ts[k].month, ts[k].day))
  }

  /** `extract_hours` */
  function Hours(ts: seq<Timestamp>): (r: seq<int>)
    ensures |r| == |ts| && forall k :: 0 <= k < |ts| ==> r[k] == ts[k].hour
  {
    seq(|ts|, k requires 0 <= k < |ts| => ts[k].hour)
  }

  /** `extract_minutes` */
  function Minutes(ts: seq<Timestamp>): (r: seq<int>)
    ensures |r| == |ts| && forall k :: 0 <= k < |ts| ==> r[k] == ts[k].minute
  {
    seq(|ts|, k requires 0 <= k < |ts| => ts[k].minute)
  }

  /** `extract_seconds` */
  function Seconds(ts: seq<Timestamp>): (r: seq<int>)
    ensures |r| == |ts| && forall k :: 0 <= k < |ts| ==> r[k] == ts[k].second
  {
    seq(|ts|, k requires 0 <= k < |ts| => ts[k].second)
  }

  /** `extract_millisecs`: `microsecond // 1000` (floor division; microseconds are never negative). */
  function Millisecs(ts: seq<Timestamp>): (r: seq<int>)
    ensures |r| == |ts|
    ensures forall k :: 0 <= k < |ts| && ts[k].microsecond >= 0 ==>
      0 <= r[k] * 1000 <= ts[k].microsecond < (r[k] + 1) * 1000
  {
    seq(|ts|, k requires 0 <= k < |ts| => ts[k].microsecond / 1000)
  }

  /**
   * The decompositions of valid timestamps are in range, and for the
   * timestamps `strptime` builds (whole milliseconds) they lose nothing: the
   * timestamp is rebuilt from its date, hour, minute, second and millisecond.
   */
  lemma Decompose(ts: seq<Timestamp>)
    requires forall k :: 0 <= k < |ts| ==> Valid(ts[k])
    ensures forall k :: 0 <= k < |ts| ==>
      0 <= Hours(ts)[k] < 24 && 0 <= Minutes(ts)[k] < 60 && 0 <= Seconds(ts)[k] < 60
      && 0 <= Millisecs(ts)[k] < 1000
      && 1 <= Dates(ts)[k].month <= 12 && 1 <= Dates(ts)[k].day <= DaysInMonth(Dates(ts)[k].year, Dates(ts)[k].month)
    ensures forall k :: 0 <= k < |ts| && ts[k].microsecond % 1000 == 0 ==>
      ts[k] == Timestamp(Dates(ts)[k].year, Dates(ts)[k].month, Dates(ts)[k].day, Hours(ts)[k],
                         Minutes(ts)[k], Seconds(ts)[k], Millisecs(ts)[k] * 1000)
  {
  }

  /**
   * Calendar edges: 29 February parses in a leap year only, the `%y` pivot
   * puts `'69` in 1969 and `'68` in 2068, and a leap second is rejected.
   */
  lemma CalendarEdges()
    ensures Build(Fields(29, Some(2), 24, 0, 0, 0, 0)) == Success(Timestamp(2024, 2, 29, 0, 0, 0, 0))
    ensures Build(Fields(29, Some(2), 23, 0, 0, 0, 0)) == Failure(ValueError)
    ensures Build(Fields(1, Some(1), 69, 0, 0, 0, 0)).value.year == 1969
    ensures Build(Fields(1, Some(1), 68, 0, 0, 0, 0)).value.year == 2068
    ensures Build(Fields(31, Some(12), 99, 23, 59, 60, 0)) == Failure(ValueError)
  {
  }

  /** The documented example: `05 Jan '24 12:30:45.123` is 2024-01-05, 12:30:45 and 123 ms. */
  lemma ExampleTimestamp()
    ensures CaptureShape(ExampleCapture)
    ensures ParseTimestamp(ExampleCapture) == Success(Timestamp(2024, 1, 5, 12, 30, 45, 123000))
    ensures var ts := [Timestamp(2024, 1, 5, 12, 30, 45, 123000)];
      Dates(ts) == [Date(2024, 1, 5)] && Hours(ts) == [12] && Minutes(ts) == [30] && Seconds(ts) == [45]
      && Millisecs(ts) == [123]
  {
    var t := Timestamp(2024, 1, 5, 12, 30, 45, 123000);
    ExampleText();
    FormatThenParse(t);
  }

  const ExampleCapture: string := "05 Jan '24 12:30:45.123"

  lemma ExampleText()
    ensures Format(Timestamp(2024, 1, 5, 12, 30, 45, 123000)) == ExampleCapture
  {
    assert TwoDigitString(5) == "05" && TwoDigitString(24) == "24" && TwoDigitString(12) == "12";
    assert TwoDigitString(30) == "30" && TwoDigitString(45) == "45" && ThreeDigitString(123) == "123";
  }
}
