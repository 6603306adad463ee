/**
 * The proleptic Gregorian calendar as Python's `datetime.date` counts it:
 * leap years, month lengths, the day ordinal (0001-01-01 is day 1) and
 * `weekday()` (Monday is 0, so Wednesday is 2).
 */
module Calendar {

  datatype Date = Date(year: int, month: int, day: int)

  const Wednesday := 2

  /** Gregorian leap years: divisible by 4, except centuries not divisible by 400. */
  predicate IsLeap(y: int)
  {
    y % 4 == 0 && (y % 100 != 0 || y % 400 == 0)
  }

  function DaysInMonth(y: int, m: int): (n: int)
    requires 1 <= m <= 12
    ensures 28 <= n <= 31
    ensures n == 29 <==> m == 2 && IsLeap(y)
  {
    if m == 2 then (if IsLeap(y) then 29 else 28)
    else if m == 4 || m == 6 || m == 9 || m == 11 then 30
    else 31
  }

  /** The dates `datetime.date` accepts: years 1 to 9999, and a day that exists in its month. */
  predicate ValidDate(d: Date)
  {
    && 1 <= d.year <= 9999
    && 1 <= d.month <= 12
    && 1 <= d.day <= DaysInMonth(d.year, d.month)
  }

  function DaysInYear(y: int): int
  {
    if IsLeap(y) then 366 else 365
  }

  /** Days in the years before `y` (all non-negative, so floor and truncating division agree). */
  function DaysBeforeYear(y: int): int
    requires y >= 1
  {
    var p := y - 1;
    p * 365 + p / 4 - p / 100 + p / 400
  }

  /** Days in the months of year `y` before month `m`. */
  function DaysBeforeMonth(y: int, m: int): int
    requires 1 <= m <= 12
  {
    var table := [0, 31, 59, 90, 120, 151, 181, 212, 243, 273, 304, 334];
    table[m - 1] + if m > 2 && IsLeap(y) then 1 else 0
  }

  /** `date.toordinal()`. */
  function Ordinal(d: Date): int
    requires ValidDate(d)
  {
    DaysBeforeYear(d.year) + DaysBeforeMonth(d.year, d.month) + d.day
  }

  /** `date.weekday()`: Monday is 0, Sunday is 6. */
  function Weekday(d: Date): (w: int)
    requires ValidDate(d)
    ensures 0 <= w < 7
  {
    (Ordinal(d) + 6) % 7
  }

  /** The calendar day after `d`. */
  function NextDay(d: Date): Date
    requires ValidDate(d)
  {
    if d.day < DaysInMonth(d.year, d.month) then Date(d.year, d.month, d.day + 1)
    else if d.month < 12 then Date(d.year, d.month + 1, 1)
    else Date(d.year + 1, 1, 1)
  }

  const LastDate := Date(9999, 12, 31)

  // ---------------------------------------------------------------------------
  // The ordinal counts days

  /** Consecutive months: the next month starts after all the days of this one. */
  lemma DaysBeforeNextMonth(y: int, m: int)
    requires 1 <= m < 12
    ensures DaysBeforeMonth(y, m + 1) == DaysBeforeMonth(y, m) + DaysInMonth(y, m)
  {
  }

  /** The months of a year add up to the year's length. */
  lemma DaysBeforeMonthsOfYear(y: int)
    ensures DaysBeforeMonth(y, 12) + DaysInMonth(y, 12) == DaysInYear(y)
  {
  }

  /** Going from `p` to `p + 1` raises `p / q` exactly when `q` divides `p + 1`. */
  lemma StepDiv(p: int)
    requires p >= 0
    ensures (p + 1) / 4 == p / 4 + (if (p + 1) % 4 == 0 then 1 else 0)
    ensures (p + 1) / 100 == p / 100 + (if (p + 1) % 100 == 0 then 1 else 0)
    ensures (p + 1) / 400 == p / 400 + (if (p + 1) % 400 == 0 then 1 else 0)
  {
  }

  /** Consecutive years: the next year starts after all the days of this one. */
  lemma DaysBeforeNextYear(y: int)
    requires y >= 1
    ensures DaysBeforeYear(y + 1) == DaysBeforeYear(y) + DaysInYear(y)
  {
    StepDiv(y - 1);
  }

  /** Every valid date but the last has a valid next day, and its ordinal is one more. */
  lemma OrdinalOfNextDay(d: Date)
    requires ValidDate(d) && d != LastDate
    ensures ValidDate(NextDay(d))
    ensures Ordinal(NextDay(d)) == Ordinal(d) + 1
  {
    if d.day == DaysInMonth(d.year, d.month) {
      if d.month < 12 {
        DaysBeforeNextMonth(d.year, d.month);
      } else {
        DaysBeforeNextYear(d.year);
        DaysBeforeMonthsOfYear(d.year);
      }
    }
  }

  /** The day after a date falls on the next weekday. */
  lemma WeekdayOfNextDay(d: Date)
    requires ValidDate(d) && d != LastDate
    ensures ValidDate(NextDay(d))
    ensures Weekday(NextDay(d)) == (Weekday(d) + 1) % 7
  {
    OrdinalOfNextDay(d);
    WeekdayStep(Ordinal(d));
  }

  lemma WeekdayStep(o: int)
    ensures (o + 1 + 6) % 7 == ((o + 6) % 7 + 1) % 7
  {
  }

  /** Day 1 is 0001-01-01, a Monday. */
  lemma FirstDay()
    ensures ValidDate(Date(1, 1, 1)) && Ordinal(Date(1, 1, 1)) == 1
    ensures ValidDate(Date(1, 1, 1)) && Weekday(Date(1, 1, 1)) == 0
  {
    assert DaysInMonth(1, 1) == 31;
    assert DaysBeforeYear(1) == 0;
    assert DaysBeforeMonth(1, 1) == 0;
    assert Weekday(Date(1, 1, 1)) == (Ordinal(Date(1, 1, 1)) + 6) % 7 == 7 % 7;
  }

  /** Ordinals run from 1 up to the ordinal of 9999-12-31. */
  lemma OrdinalRange(d: Date)
    requires ValidDate(d)
    ensures 1 <= Ordinal(d) <= 3652059
  {
  }

  /** January 2024 starts on a Monday, so its Wednesdays are the 3rd, 10th, 17th, 24th and 31st. */
  lemma January2024(d: int)
    requires 1 <= d <= 31
    ensures Weekday(Date(2024, 1, d)) == (d + 6) % 7
    ensures Weekday(Date(2024, 1, d)) == Wednesday <==> d % 7 == 3
  {
    assert DaysBeforeYear(2024) == 738885;
  }

  /** 2000-02-29 was a Tuesday. */
  lemma LeapDay2000()
    ensures ValidDate(Date(2000, 2, 29)) && Weekday(Date(2000, 2, 29)) == 1
  {
    assert DaysBeforeYear(2000) == 730119;
  }
}
