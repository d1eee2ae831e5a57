/** Calendar arithmetic of Python's `datetime` (proleptic Gregorian, UTC) and
    of `calendar.Calendar.itermonthdates`, on integer instants.

    An instant is a whole number of seconds since 1970-01-01T00:00:00 UTC; a
    date is a day number, the number of days since 1970-01-01. */
module Civil {
  import opened Wrappers

  const SecondsPerDay := 86400

  /** The UTC date of an instant (`dt.date()`); floor division, as Python's. */
  function DayOf(t: int): int {
    t / SecondsPerDay
  }

  /** The seconds since midnight of an instant (`dt.time()`). */
  function TimeOfDay(t: int): (r: int)
    ensures 0 <= r < SecondsPerDay
  {
    t % SecondsPerDay
  }

  /** An instant is its midnight plus its time of day, and that split is unique. */
  lemma DaySplit(n: int, k: int)
    requires 0 <= k < SecondsPerDay
    ensures DayOf(n * SecondsPerDay + k) == n
    ensures TimeOfDay(n * SecondsPerDay + k) == k
  {
  }

  /** `date.weekday()`: Monday is 0 and Sunday is 6; 1970-01-01 was a Thursday. */
  function Weekday(day: int): (r: int)
    ensures 0 <= r < 7
  {
    (day + 3) % 7
  }

  datatype Date = Date(year: int, month: int, day: int)

  /** A naive `datetime`: calendar fields without a time zone. */
  datatype DateTime = DateTime(year: int, month: int, day: int, hour: int, minute: int, second: int)

  /** The hour (0..23) and minute of an instant's time of day. */
  function HourOf(t: int): (r: int)
    ensures 0 <= r < 24
  {
    TimeOfDay(t) / 3600
  }

  function MinuteOf(t: int): (r: int)
    ensures 0 <= r < 60
  {
    TimeOfDay(t) % 3600 / 60
  }

  predicate IsLeap(y: int) {
    y % 4 == 0 && (y % 100 != 0 || y % 400 == 0)
  }

  function DaysInYear(y: int): int {
    if IsLeap(y) then 366 else 365
  }

  function DaysInMonth(y: int, m: int): (r: int)
    requires 1 <= m <= 12
    ensures 28 <= r <= 31
  {
    if m == 2 then (if IsLeap(y) then 29 else 28)
    else if m == 4 || m == 6 || m == 9 || m == 11 then 30
    else 31
  }

  /** Days from January 1 of `y` to the first of month `m`. */
  function DaysBeforeMonth(y: int, m: int): (r: int)
    requires 1 <= m <= 12
    ensures 0 <= r
    ensures m == 12 ==> r + DaysInMonth(y, m) == DaysInYear(y)
  {
    var leap := if IsLeap(y) then 1 else 0;
    if m == 1 then 0
    else if m == 2 then 31
    else if m == 3 then 59 + leap
    else if m == 4 then 90 + leap
    else if m == 5 then 120 + leap
    else if m == 6 then 151 + leap
    else if m == 7 then 181 + leap
    else if m == 8 then 212 + leap
    else if m == 9 then 243 + leap
    else if m == 10 then 273 + leap
    else if m == 11 then 304 + leap
    else 334 + leap
  }

  lemma MonthStep(y: int, m: int)
    requires 1 <= m < 12
    ensures DaysBeforeMonth(y, m + 1) == DaysBeforeMonth(y, m) + DaysInMonth(y, m)
  {
  }

  /** The day number of January 1 of year `y`. */
  function DaysBeforeYear(y: int): int
    decreases if y < 1970 then 1970 - y else y - 1970
  {
    if y == 1970 then 0
    else if y > 1970 then DaysBeforeYear(y - 1) + DaysInYear(y - 1)
    else DaysBeforeYear(y + 1) - DaysInYear(y)
  }

  lemma YearStep(y: int)
    ensures DaysBeforeYear(y + 1) == DaysBeforeYear(y) + DaysInYear(y)
  {
  }

  /** Later years start later: at least 365 days per year in between. */
  lemma {:induction false} YearMonotone(a: int, b: int)
    requires a <= b
    ensures DaysBeforeYear(a) + 365 * (b - a) <= DaysBeforeYear(b)
    decreases b - a
  {
    if a < b {
      YearMonotone(a, b - 1);
      YearStep(b - 1);
    }
  }

  /** Up to 2100 every fourth year from 1972 on is a leap year. */
  lemma {:induction false} DaysBeforeYearBefore2100(y: int)
    requires 1970 <= y <= 2100
    ensures DaysBeforeYear(y) == 365 * (y - 1970) + (y - 1969) / 4
    decreases y - 1970
  {
    if y > 1970 {
      DaysBeforeYearBefore2100(y - 1);
      YearStep(y - 1);
    }
  }

  predicate ValidDate(d: Date) {
    1 <= d.month <= 12 && 1 <= d.day <= DaysInMonth(d.year, d.month)
  }

  /** The day number of a calendar date (`date.toordinal()` shifted to 1970). */
  function DaysFromCivil(d: Date): int
    requires ValidDate(d)
  {
    DaysBeforeYear(d.year) + DaysBeforeMonth(d.year, d.month) + d.day - 1
  }

  /** The year whose days include day number `n`, searching from year `y`. */
  function FindYear(y: int, n: int): (r: int)
    ensures DaysBeforeYear(r) <= n < DaysBeforeYear(r + 1)
    decreases (if n < DaysBeforeYear(y) then 1 else 0),
              (if n < DaysBeforeYear(y) then DaysBeforeYear(y) - n else n - DaysBeforeYear(y))
  {
    YearStep(y - 1);
    YearStep(y);
    if n < DaysBeforeYear(y) then FindYear(y - 1, n)
    else if n >= DaysBeforeYear(y + 1) then FindYear(y + 1, n)
    else y
  }

  /** The month of year `y` holding day `k` of that year, searching from `m`. */
  function FindMonth(y: int, k: int, m: int): (r: int)
    requires 1 <= m <= 12
    requires DaysBeforeMonth(y, m) <= k < DaysInYear(y)
    ensures m <= r <= 12
    ensures DaysBeforeMonth(y, r) <= k < DaysBeforeMonth(y, r) + DaysInMonth(y, r)
    decreases 12 - m
  {
    if m == 12 || k < DaysBeforeMonth(y, m) + DaysInMonth(y, m) then m
    else MonthStep(y, m); FindMonth(y, k, m + 1)
  }

  /** The calendar date of a day number (`date.fromordinal`, shifted to 1970). */
  function CivilFromDays(n: int): (d: Date)
    ensures ValidDate(d)
    ensures DaysFromCivil(d) == n
  {
    var y := FindYear(1970, n);
    YearStep(y);
    var k := n - DaysBeforeYear(y);
    assert DaysBeforeMonth(y, 1) == 0;
    var m := FindMonth(y, k, 1);
    Date(y, m, k - DaysBeforeMonth(y, m) + 1)
  }

  /** Each day number lies in exactly one year. */
  lemma YearUnique(a: int, b: int, n: int)
    requires DaysBeforeYear(a) <= n < DaysBeforeYear(a + 1)
    requires DaysBeforeYear(b) <= n < DaysBeforeYear(b + 1)
    ensures a == b
  {
    if a < b {
      YearMonotone(a + 1, b);
    } else if b < a {
      YearMonotone(b + 1, a);
    }
  }

  /** Each day of a year lies in exactly one month. */
  lemma MonthUnique(y: int, a: int, b: int, k: int)
    requires 1 <= a <= 12 && 1 <= b <= 12
    requires DaysBeforeMonth(y, a) <= k < DaysBeforeMonth(y, a) + DaysInMonth(y, a)
    requires DaysBeforeMonth(y, b) <= k < DaysBeforeMonth(y, b) + DaysInMonth(y, b)
    ensures a == b
  {
  }

  /** The two conversions are inverse: a valid date is recovered from its day
      number (the other direction is an ensures of CivilFromDays). */
  lemma CivilFromDaysInverse(d: Date)
    requires ValidDate(d)
    ensures CivilFromDays(DaysFromCivil(d)) == d
  {
    var n := DaysFromCivil(d);
    var e := CivilFromDays(n);
    YearStep(d.year);
    YearStep(e.year);
    assert DaysBeforeMonth(d.year, d.month) + DaysInMonth(d.year, d.month) <= DaysInYear(d.year) by {
      if d.month < 12 { MonthStep(d.year, d.month); MonthBound(d.year, d.month + 1); }
    }
    assert DaysBeforeMonth(e.year, e.month) + DaysInMonth(e.year, e.month) <= DaysInYear(e.year) by {
      if e.month < 12 { MonthStep(e.year, e.month); MonthBound(e.year, e.month + 1); }
    }
    YearUnique(d.year, e.year, n);
    MonthUnique(d.year, d.month, e.month, n - DaysBeforeYear(d.year));
  }

  lemma MonthBound(y: int, m: int)
    requires 1 <= m <= 12
    ensures DaysBeforeMonth(y, m) + DaysInMonth(y, m) <= DaysInYear(y)
  {
  }

  /** English abbreviations of the C locale, as `%a` and `%b` render them. */
  function DayName(w: int): (r: string)
    requires 0 <= w < 7
  {
    ["Mon", "Tue", "Wed", "Thu", "Fri", "Sat", "Sun"][w]
  }

  function MonthName(m: int): (r: string)
    requires 1 <= m <= 12
  {
    ["Jan", "Feb", "Mar", "Apr", "May", "Jun",
     "Jul", "Aug", "Sep", "Oct", "Nov", "Dec"][m - 1]
  }

  /** The day number of the first of a month. */
  function MonthFirst(year: int, month: int): int
    requires 1 <= month <= 12
  {
    DaysFromCivil(Date(year, month, 1))
  }

  /** The day number of the last day of a month. */
  function MonthLast(year: int, month: int): int
    requires 1 <= month <= 12
  {
    MonthFirst(year, month) + DaysInMonth(year, month) - 1
  }

  /** The first of the next month follows the last day of this one. */
  lemma NextMonthFirst(year: int, month: int)
    requires 1 <= month < 12
    ensures MonthFirst(year, month + 1) == MonthLast(year, month) + 1
  {
    MonthStep(year, month);
  }

  /** The whole weeks, Sunday first, that hold the days of a valid month. */
  function GridDays(year: int, month: int): seq<int>
    requires 1 <= month <= 12
  {
    var first := MonthFirst(year, month);
    var day1 := Weekday(first);
    var ndays := DaysInMonth(year, month);
    var before := (day1 - 6) % 7;
    var after := (6 - day1 - ndays) % 7;
    seq(before + ndays + after, i => first - before + i)
  }

  /** Day numbers are those of the real calendar: June 5, 2021, a Saturday,
      is day 18783 after January 1, 1970. */
  lemma KnownDate()
    ensures DaysFromCivil(Date(2021, 6, 5)) == 18783 && Weekday(18783) == 5
  {
    DaysBeforeYearBefore2100(2021);
  }

  /** The dates `calendar.Calendar(firstweekday=6).itermonthdates(year, month)`
      yields; a month outside 1..12 raises (`IllegalMonthError`, a
      `ValueError`). */
  function MonthGrid(year: int, month: int): (r: Result<seq<int>>)
    ensures r.Ok? <==> 1 <= month <= 12
  {
    if 1 <= month <= 12 then Ok(GridDays(year, month)) else Err(ValueError)
  }

  /** The grid is a run of consecutive whole weeks starting on a Sunday that
      holds every day of the month and no more than six days on either side. */
  lemma MonthGridShape(year: int, month: int)
    requires 1 <= month <= 12
    ensures |GridDays(year, month)| % 7 == 0
    ensures |GridDays(year, month)| > 0 && Weekday(GridDays(year, month)[0]) == 6
    ensures forall i :: 0 <= i < |GridDays(year, month)| ==> GridDays(year, month)[i] == GridDays(year, month)[0] + i
    ensures MonthFirst(year, month) - 6 <= GridDays(year, month)[0] <= MonthFirst(year, month)
    ensures MonthLast(year, month) <= GridDays(year, month)[|GridDays(year, month)| - 1] <= MonthLast(year, month) + 6
  {
    WeekArithmetic(MonthFirst(year, month), DaysInMonth(year, month));
  }

  lemma WeekArithmetic(first: int, ndays: int)
    ensures var day1 := Weekday(first);
      var before := (day1 - 6) % 7;
      var after := (6 - day1 - ndays) % 7;
      (before + ndays + after) % 7 == 0 && Weekday(first - before) == 6
  {
    var day1 := Weekday(first);
    var before := (day1 - 6) % 7;
    var after := (6 - day1 - ndays) % 7;
    var q1 := (day1 - 6) / 7;
    var q2 := (6 - day1 - ndays) / 7;
    assert day1 - 6 == 7 * q1 + before;
    assert 6 - day1 - ndays == 7 * q2 + after;
    assert before + ndays + after == 7 * (-q1 - q2);
    var q0 := (first + 3) / 7;
    assert first + 3 == 7 * q0 + day1;
    assert first - before + 3 == 7 * (q0 + q1) + 6;
  }
}
