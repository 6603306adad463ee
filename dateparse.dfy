/**
 * `datetime.strptime(text, "%Y-%m-%d")` followed by the date it builds.
 * CPython turns the format into a regular expression whose pieces are
 *   %Y  four digits,
 *   %m  `1[0-2]|0[1-9]|[1-9]`,
 *   %d  `3[01]|[12]\d|0[1-9]|[1-9]| [1-9]`,
 * insists that the match covers the whole text, and then builds a
 * `datetime`, which rejects year 0 and days past the end of the month.
 * Every one of these failures is a `ValueError`; here it is `None`.
 */
module DateParse {
  import opened Wrappers
  import opened Text
  import opened Calendar

  /** What `%Y` matches: exactly four digits. */
  predicate YearToken(t: string)
  {
    |t| == 4 && AllDigits(t)
  }

  /** What `%m` matches: `1[0-2]`, `0[1-9]` or `[1-9]`. */
  predicate MonthToken(t: string)
  {
    || (|t| == 2 && t[0] == '1' && '0' <= t[1] <= '2')
    || (|t| == 2 && t[0] == '0' && '1' <= t[1] <= '9')
    || (|t| == 1 && '1' <= t[0] <= '9')
  }

  /** What `%d` matches: `3[01]`, `[12]` and a digit, `0[1-9]`, `[1-9]`, or a space and `[1-9]`. */
  predicate DayToken(t: string)
  {
    || (|t| == 2 && t[0] == '3' && (t[1] == '0' || t[1] == '1'))
    || (|t| == 2 && (t[0] == '1' || t[0] == '2') && IsDigit(t[1]))
    || (|t| == 2 && t[0] == '0' && '1' <= t[1] <= '9')
    || (|t| == 1 && '1' <= t[0] <= '9')
    || (|t| == 2 && t[0] == ' ' && '1' <= t[1] <= '9')
  }

  /** The number a matched token stands for, as `int()` reads it (a leading space is ignored). */
  function TokenValue(t: string): (v: nat)
    requires YearToken(t) || MonthToken(t) || DayToken(t)
  {
    if |t| == 4 then
      1000 * DigitValue(t[0]) + 100 * DigitValue(t[1]) + 10 * DigitValue(t[2]) + DigitValue(t[3])
    else if |t| == 1 then DigitValue(t[0])
    else if t[0] == ' ' then DigitValue(t[1])
    else 10 * DigitValue(t[0]) + DigitValue(t[1])
  }

  /** The whole text is a year, a dash, a month, a dash and a day, each as its directive matches it. */
  ghost predicate Matches(s: string, y: string, m: string, d: string)
  {
    s == y + "-" + m + "-" + d && YearToken(y) && MonthToken(m) && DayToken(d)
  }

  /** `strptime` reads `s` as the valid date `date`. */
  ghost predicate Parses(s: string, date: Date)
  {
    && ValidDate(date)
    && exists y, m, d :: Matches(s, y, m, d) && date == Date(TokenValue(y), TokenValue(m), TokenValue(d))
  }

  /** `datetime.strptime(s, "%Y-%m-%d")`, keeping only the date. */
  function ParseDate(s: string): (r: Option<Date>)
    ensures r.Some? ==> ValidDate(r.value)
  {
    if |s| < 7 || !YearToken(s[..4]) || s[4] != '-' then None
    else
      var rest := s[5..];
      var n := if rest[1] == '-' then 1 else if |rest| > 2 && rest[2] == '-' then 2 else 0;
      if n == 0 then None
      else
        var mt, dt := rest[..n], rest[n + 1..];
        if !MonthToken(mt) || !DayToken(dt) then None
        else
          var date := Date(TokenValue(s[..4]), TokenValue(mt), TokenValue(dt));
          if ValidDate(date) then Some(date) else None
  }

  /** A match splits the text in one way only: the year is the first four characters and the month runs up to the next dash. */
  lemma MatchIsUnique(s: string, y: string, m: string, d: string)
    requires Matches(s, y, m, d)
    ensures |s| >= 7 && y == s[..4] && s[4] == '-'
    ensures var rest := s[5..];
            && (rest[1] == '-' <==> |m| == 1)
            && (rest[1] != '-' ==> |rest| > 2 && rest[2] == '-')
            && m == rest[..|m|] && d == rest[|m| + 1..]
  {
    assert s[..4] == y;
    var rest := s[5..];
    assert rest == m + "-" + d;
    assert rest[..|m|] == m;
    assert rest[|m| + 1..] == d;
  }

  /** `ParseDate` succeeds exactly when the text matches the format and names a valid date, and then it returns that date. */
  lemma ParseDateMeetsFormat(s: string)
    ensures ParseDate(s).Some? ==> Parses(s, ParseDate(s).value)
    ensures ParseDate(s).None? ==> forall date :: !Parses(s, date)
  {
    if ParseDate(s).Some? {
      var rest := s[5..];
      var n := if rest[1] == '-' then 1 else 2;
      var y, m, d := s[..4], rest[..n], rest[n + 1..];
      assert s == y + "-" + m + "-" + d;
      assert Matches(s, y, m, d);
    } else {
      forall date | Parses(s, date) ensures false {
        var y, m, d :| Matches(s, y, m, d) && date == Date(TokenValue(y), TokenValue(m), TokenValue(d));
        MatchIsUnique(s, y, m, d);
      }
    }
  }

  // ---------------------------------------------------------------------------
  // Round trip with the ISO form

  /** Four digits, most significant first, for a year from 1 to 9999. */
  function YearDigits(y: int): (t: string)
    requires 1 <= y <= 9999
    ensures YearToken(t) && TokenValue(t) == y
  {
    var q1 := y / 10;
    var q2 := q1 / 10;
    var q3 := q2 / 10;
    assert y == 10 * q1 + y % 10 && q1 == 10 * q2 + q1 % 10 && q2 == 10 * q3 + q2 % 10;
    [DigitChar(q3), DigitChar(q2 % 10), DigitChar(q1 % 10), DigitChar(y % 10)]
  }

  /** Two digits, with a leading zero below 10. */
  function TwoDigits(n: int): (t: string)
    requires 1 <= n <= 31
    ensures |t| == 2 && IsDigit(t[0]) && IsDigit(t[1])
    ensures DayToken(t) && TokenValue(t) == n
    ensures n <= 12 ==> MonthToken(t)
  {
    [DigitChar(n / 10), DigitChar(n % 10)]
  }

  /** `date.isoformat()`: the year in four digits, month and day in two, with leading zeros. */
  function IsoFormat(d: Date): string
    requires ValidDate(d)
  {
    YearDigits(d.year) + "-" + TwoDigits(d.month) + "-" + TwoDigits(d.day)
  }

  /** Every valid date, written in ISO form, parses back to itself. */
  lemma ParseIsoFormat(d: Date)
    requires ValidDate(d)
    ensures ParseDate(IsoFormat(d)) == Some(d)
  {
    var y, m, dd := YearDigits(d.year), TwoDigits(d.month), TwoDigits(d.day);
    var s := IsoFormat(d);
    assert s[..4] == y;
    assert s[5..] == m + "-" + dd;
    assert s[5..][..2] == m;
    assert s[5..][3..] == dd;
  }

  // ---------------------------------------------------------------------------
  // What the format accepts and rejects

  /** One-digit months and days are accepted, and so is a day written as a space and a digit. */
  lemma ShortFormsAccepted()
    ensures ParseDate("2024-1-3") == Some(Date(2024, 1, 3))
    ensures ParseDate("2024-01- 3") == Some(Date(2024, 1, 3))
  {
  }

  /** Month 13 is rejected. */
  lemma RejectsMonth13()
    ensures ParseDate("2024-13-01") == None
  {
  }

  /** February 29 of a common year is rejected. */
  lemma RejectsCommonLeapDay()
    ensures ParseDate("2023-02-29") == None
  {
  }

  /** Year 0 is rejected. */
  lemma RejectsYearZero()
    ensures ParseDate("0000-01-01") == None
  {
  }

  /** Text after the date, an unstripped newline included, is rejected. */
  lemma RejectsTrailingText()
    ensures ParseDate("2024-01-03\n") == None
  {
  }

  /** A two-digit year and the empty line are rejected. */
  lemma RejectsShortText()
    ensures ParseDate("24-01-03") == None
    ensures ParseDate("") == None
  {
  }

  lemma ParsesJanuary1()
    ensures ParseDate("2024-01-01") == Some(Date(2024, 1, 1))
  {
  }

  lemma ParsesJanuary3()
    ensures ParseDate("2024-01-03") == Some(Date(2024, 1, 3))
  {
  }

  lemma ParsesJanuary10()
    ensures ParseDate("2024-01-10") == Some(Date(2024, 1, 10))
  {
  }

  lemma ParsesJanuary17()
    ensures ParseDate("2024-01-17") == Some(Date(2024, 1, 17))
  {
  }

  /** A leap day parses in a leap year. */
  lemma LeapDayAccepted()
    ensures ParseDate("2024-02-29") == Some(Date(2024, 2, 29))
  {
  }
}
