/** Calendar dates in the proleptic Gregorian calendar, standing in for the JavaScript
    `Date` values and the date-fns helpers the calendar uses (`startOfMonth`, `addMonths`,
    `subMonths`, `getDay`, `isSameDay`, `isSameHour`, `getTime`). A date is a record of
    local fields; there are no time zones. */
module CivilDate {

  /** A local date and time; `month` counts from 0 for January, as `getMonth()` does. */
  datatype DateTime = DateTime(year: int, month: int, day: int, hour: int, minute: int)

  predicate IsLeapYear(y: int) {
    y % 4 == 0 && (y % 100 != 0 || y % 400 == 0)
  }

  function DaysInMonth(y: int, m: int): (n: int)
    requires 0 <= m < 12
    ensures 28 <= n <= 31
    ensures n == 29 <==> m == 1 && IsLeapYear(y)
  {
    if m == 1 then (if IsLeapYear(y) then 29 else 28)
    else if m == 3 || m == 5 || m == 8 || m == 10 then 30
    else 31
  }

  predicate Valid(d: DateTime) {
    && 0 <= d.month < 12
    && 1 <= d.day <= DaysInMonth(d.year, d.month)
    && 0 <= d.hour < 24
    && 0 <= d.minute < 60
  }

  // ------------------------------------------------------------------ day numbers

  /** Days in the months of year `y` before month `m`. */
  function DaysBeforeMonth(y: int, m: int): (n: int)
    requires 0 <= m <= 12
    ensures 28 * m <= n <= 31 * m
  {
    if m == 0 then 0 else DaysBeforeMonth(y, m - 1) + DaysInMonth(y, m - 1)
  }

  /** Days from 1 January of year 0 to 1 January of year `y`: 365 a year plus one for
      every leap year in between. */
  function DaysBeforeYear(y: int): int {
    365 * y + (y + 3) / 4 - (y + 99) / 100 + (y + 399) / 400
  }

  /** The number of the day: 0 for 1 January of year 0. */
  function DayNumber(d: DateTime): int
    requires 0 <= d.month < 12
  {
    DaysBeforeYear(d.year) + DaysBeforeMonth(d.year, d.month) + d.day - 1
  }

  /** `getDay()`: 0 for Sunday up to 6 for Saturday. 1 January of year 0 was a Saturday. */
  function Weekday(d: DateTime): (w: int)
    requires 0 <= d.month < 12
    ensures 0 <= w < 7
  {
    (DayNumber(d) + 6) % 7
  }

  /** The weekday moves on by one from one day of a month to the next. */
  lemma NextDayNextWeekday(d: DateTime)
    requires Valid(d) && d.day < DaysInMonth(d.year, d.month)
    ensures Weekday(d.(day := d.day + 1)) == (Weekday(d) + 1) % 7
  {
    var n := DayNumber(d);
    assert DayNumber(d.(day := d.day + 1)) == n + 1;
    WeekStep(n);
  }

  lemma WeekStep(n: int)
    ensures (n + 7) % 7 == ((n + 6) % 7 + 1) % 7
  {
  }

  /** 1 November 2025 is a Saturday. */
  lemma FirstOfNovember2025()
    ensures Weekday(DateTime(2025, 10, 1, 0, 0)) == 6
  {
    assert DaysBeforeMonth(2025, 10) == 304 by {
      assert DaysBeforeMonth(2025, 1) == 31;
      assert DaysBeforeMonth(2025, 2) == 59;
      assert DaysBeforeMonth(2025, 3) == 90;
      assert DaysBeforeMonth(2025, 4) == 120;
      assert DaysBeforeMonth(2025, 5) == 151;
      assert DaysBeforeMonth(2025, 6) == 181;
      assert DaysBeforeMonth(2025, 7) == 212;
      assert DaysBeforeMonth(2025, 8) == 243;
      assert DaysBeforeMonth(2025, 9) == 273;
    }
  }

  /** A year has 365 days, 366 when it is a leap year. */
  lemma YearLength(y: int)
    ensures DaysBeforeMonth(y, 12) == if IsLeapYear(y) then 366 else 365
    ensures DaysBeforeYear(y + 1) == DaysBeforeYear(y) + DaysBeforeMonth(y, 12)
  {
    MonthsOfYear(y);
    LeapCountStep(y);
    DivisorChain(y);
  }

  lemma MonthsOfYear(y: int)
    ensures DaysBeforeMonth(y, 12) == if IsLeapYear(y) then 366 else 365
  {
    var leap := if IsLeapYear(y) then 1 else 0;
    assert DaysBeforeMonth(y, 2) == 59 + leap;
    assert DaysBeforeMonth(y, 4) == 120 + leap;
    assert DaysBeforeMonth(y, 6) == 181 + leap;
    assert DaysBeforeMonth(y, 8) == 243 + leap;
    assert DaysBeforeMonth(y, 10) == 304 + leap;
  }

  /** A multiple of 400 is a multiple of 100, which is a multiple of 4. */
  lemma DivisorChain(y: int)
    ensures y % 400 == 0 ==> y % 100 == 0
    ensures y % 100 == 0 ==> y % 4 == 0
  {
    if y % 400 == 0 {
      var q := y / 400;
      assert y == 100 * (4 * q);
    }
    if y % 100 == 0 {
      var q := y / 100;
      assert y == 4 * (25 * q);
    }
  }

  /** Going from year `y` to `y + 1` passes a multiple of 4, 100 or 400 exactly when `y`
      is one. */
  lemma LeapCountStep(y: int)
    ensures (y + 4) / 4 - (y + 3) / 4 == if y % 4 == 0 then 1 else 0
    ensures (y + 100) / 100 - (y + 99) / 100 == if y % 100 == 0 then 1 else 0
    ensures (y + 400) / 400 - (y + 399) / 400 == if y % 400 == 0 then 1 else 0
  {
    CeilingStep4(y);
    CeilingStep100(y);
    CeilingStep400(y);
  }

  lemma CeilingStep4(y: int)
    ensures (y + 4) / 4 - (y + 3) / 4 == if y % 4 == 0 then 1 else 0
  {
    var q, r := y / 4, y % 4;
    assert y == 4 * q + r && 0 <= r < 4;
    assert (y + 4) / 4 == q + 1;
    assert (y + 3) / 4 == if r == 0 then q else q + 1;
  }

  lemma CeilingStep100(y: int)
    ensures (y + 100) / 100 - (y + 99) / 100 == if y % 100 == 0 then 1 else 0
  {
    var q, r := y / 100, y % 100;
    assert y == 100 * q + r && 0 <= r < 100;
    assert (y + 100) / 100 == q + 1;
    assert (y + 99) / 100 == if r == 0 then q else q + 1;
  }

  lemma CeilingStep400(y: int)
    ensures (y + 400) / 400 - (y + 399) / 400 == if y % 400 == 0 then 1 else 0
  {
    var q, r := y / 400, y % 400;
    assert y == 400 * q + r && 0 <= r < 400;
    assert (y + 400) / 400 == q + 1;
    assert (y + 399) / 400 == if r == 0 then q else q + 1;
  }

  /** A day of month `m` comes before every day of a later month of the same year. */
  lemma {:induction false} MonthsInOrder(y: int, m1: int, m2: int)
    requires 0 <= m1 < m2 <= 12
    ensures DaysBeforeMonth(y, m1) + DaysInMonth(y, m1) <= DaysBeforeMonth(y, m2)
    decreases m2
  {
    if m1 < m2 - 1 {
      MonthsInOrder(y, m1, m2 - 1);
    }
  }

  /** A day of year `y1` comes before every day of a later year. */
  lemma {:induction false} YearsInOrder(y1: int, y2: int)
    requires y1 < y2
    ensures DaysBeforeYear(y1) + DaysBeforeMonth(y1, 12) <= DaysBeforeYear(y2)
    decreases y2 - y1
  {
    YearLength(y1);
    if y1 + 1 < y2 {
      YearsInOrder(y1 + 1, y2);
      YearLength(y1 + 1);
    }
  }

  /** Strictly earlier by calendar day. */
  predicate DayBefore(a: DateTime, b: DateTime) {
    || a.year < b.year
    || (a.year == b.year && a.month < b.month)
    || (a.year == b.year && a.month == b.month && a.day < b.day)
  }

  /** The day number orders valid dates by calendar day. */
  lemma DayNumberInOrder(a: DateTime, b: DateTime)
    requires Valid(a) && Valid(b) && DayBefore(a, b)
    ensures DayNumber(a) < DayNumber(b)
  {
    if a.year < b.year {
      MonthsInOrder(a.year, a.month, 12);
      YearsInOrder(a.year, b.year);
    } else if a.month < b.month {
      MonthsInOrder(a.year, a.month, b.month);
    }
  }

  predicate SameDay(a: DateTime, b: DateTime) {
    a.year == b.year && a.month == b.month && a.day == b.day
  }

  predicate SameHour(a: DateTime, b: DateTime) {
    SameDay(a, b) && a.hour == b.hour
  }

  /** Valid dates with the same day number are the same calendar day. */
  lemma SameDayNumber(a: DateTime, b: DateTime)
    requires Valid(a) && Valid(b)
    ensures DayNumber(a) == DayNumber(b) <==> SameDay(a, b)
  {
    if DayBefore(a, b) {
      DayNumberInOrder(a, b);
    } else if DayBefore(b, a) {
      DayNumberInOrder(b, a);
    }
  }

  // ------------------------------------------------------------------- timestamps

  /** `getTime()` up to a constant offset: milliseconds since 1 January of year 0. */
  function Time(d: DateTime): int
    requires 0 <= d.month < 12
  {
    ((DayNumber(d) * 24 + d.hour) * 60 + d.minute) * 60000
  }

  /** Strictly earlier, to the minute. */
  predicate Before(a: DateTime, b: DateTime) {
    || DayBefore(a, b)
    || (SameDay(a, b) && a.hour < b.hour)
    || (SameDay(a, b) && a.hour == b.hour && a.minute < b.minute)
  }

  /** Timestamps order valid dates chronologically. */
  lemma TimeInOrder(a: DateTime, b: DateTime)
    requires Valid(a) && Valid(b)
    ensures Time(a) < Time(b) <==> Before(a, b)
  {
    if DayBefore(a, b) {
      DayNumberInOrder(a, b);
    } else if DayBefore(b, a) {
      DayNumberInOrder(b, a);
    }
  }

  // ---------------------------------------------------------------------- months

  /** `startOfMonth`: midnight of the first day of the month. */
  function StartOfMonth(d: DateTime): (r: DateTime)
    requires Valid(d)
    ensures Valid(r) && r.day == 1 && r.hour == 0 && r.minute == 0
    ensures r.year == d.year && r.month == d.month
  {
    DateTime(d.year, d.month, 1, 0, 0)
  }

  /** Months counted from January of year 0. */
  function MonthIndex(d: DateTime): int {
    d.year * 12 + d.month
  }

  /** `addMonths(d, n)` (and `subMonths(d, n)` as `n` negated): the same day and time
      `n` months on, moved back to the last day of the month when that month is shorter. */
  function AddMonths(d: DateTime, n: int): (r: DateTime)
    requires Valid(d)
    ensures Valid(r)
    ensures MonthIndex(r) == MonthIndex(d) + n
    ensures d.day <= DaysInMonth(r.year, r.month) ==> r.day == d.day
    ensures d.day > DaysInMonth(r.year, r.month) ==> r.day == DaysInMonth(r.year, r.month)
    ensures r.hour == d.hour && r.minute == d.minute
  {
    var t := MonthIndex(d) + n;
    var y, m := t / 12, t % 12;
    DateTime(y, m, if d.day <= DaysInMonth(y, m) then d.day else DaysInMonth(y, m), d.hour, d.minute)
  }

  /** The month index names the year and month. */
  lemma MonthIndexDetermines(a: DateTime, b: DateTime)
    requires 0 <= a.month < 12 && 0 <= b.month < 12
    ensures MonthIndex(a) == MonthIndex(b) <==> a.year == b.year && a.month == b.month
  {
    if a.year < b.year {
      assert MonthIndex(a) < MonthIndex(b);
    } else if b.year < a.year {
      assert MonthIndex(b) < MonthIndex(a);
    }
  }

  /** Moving `n` months and back returns a day that exists in every month (1 to 28). */
  lemma AddMonthsRoundTrip(d: DateTime, n: int)
    requires Valid(d) && d.day <= 28
    ensures AddMonths(AddMonths(d, n), -n) == d
  {
    MonthIndexDetermines(AddMonths(AddMonths(d, n), -n), d);
  }
}
