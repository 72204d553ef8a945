/**
 * The calendar arithmetic the statistics handler gets from moment.js, restricted
 * to what it uses: start and end of a day, a week, a month and a year, adding
 * one day and adding one month. Time is an integer count of milliseconds since
 * 1970-01-01T00:00:00.000 (UTC, fixed 86,400,000 ms days, no daylight saving);
 * the calendar is the proleptic Gregorian one.
 */
module Calendar {

  const MsPerDay: int := 86_400_000

  const WeekdayNames: seq<string> := ["Sun", "Mon", "Tue", "Wed", "Thu", "Fri", "Sat"]
  const MonthNames: seq<string> :=
    ["Jan", "Feb", "Mar", "Apr", "May", "Jun", "Jul", "Aug", "Sep", "Oct", "Nov", "Dec"]

  /** Gregorian leap-year rule. */
  predicate IsLeapYear(y: int) {
    y % 4 == 0 && (y % 100 != 0 || y % 400 == 0)
  }

  function DaysInYear(y: int): (n: int)
    ensures n == 365 || n == 366
    ensures n == 366 <==> IsLeapYear(y)
  {
    if IsLeapYear(y) then 366 else 365
  }

  /** Days of the year that precede the first day of month `m` (month 13 stands for the next year). */
  function DaysBeforeMonth(y: int, m: int): (n: int)
    requires 1 <= m <= 13
    ensures m == 1 ==> n == 0
    ensures m == 13 ==> n == DaysInYear(y)
    ensures 0 <= n <= DaysInYear(y)
  {
    [0, 31, 59, 90, 120, 151, 181, 212, 243, 273, 304, 334, 365][m - 1]
      + (if m > 2 && IsLeapYear(y) then 1 else 0)
  }

  /** Length of month `m` of year `y`; it agrees with the cumulative table above. */
  function DaysInMonth(y: int, m: int): (n: int)
    requires 1 <= m <= 12
    ensures 28 <= n <= 31
    ensures n == 29 <==> m == 2 && IsLeapYear(y)
  {
    if m == 2 then (if IsLeapYear(y) then 29 else 28)
    else if m == 4 || m == 6 || m == 9 || m == 11 then 30
    else 31
  }

  /** Month lengths agree with the cumulative table: month `m + 1` starts right after month `m`. */
  lemma MonthsAdjoin(y: int, m: int)
    requires 1 <= m <= 12
    ensures DaysBeforeMonth(y, m) + DaysInMonth(y, m) == DaysBeforeMonth(y, m + 1)
  {
  }

  /** Days from 1970-01-01 to the first of January of year `y` (negative before 1970). */
  function DaysBeforeYear(y: int): int
    decreases if y >= 1970 then y - 1970 else 1970 - y
  {
    if y == 1970 then 0
    else if y > 1970 then DaysBeforeYear(y - 1) + DaysInYear(y - 1)
    else DaysBeforeYear(y + 1) - DaysInYear(y)
  }

  lemma {:induction false} NextYear(y: int)
    ensures DaysBeforeYear(y + 1) == DaysBeforeYear(y) + DaysInYear(y)
  {
    if y < 1970 {
      assert DaysBeforeYear(y) == DaysBeforeYear(y + 1) - DaysInYear(y);
    }
  }

  // ---------------------------------------------------------------------------
  // Days and weeks, on millisecond time stamps

  lemma DivisionByDay(q: int, r: int)
    requires 0 <= r < MsPerDay
    ensures (q * MsPerDay + r) / MsPerDay == q
    ensures (q * MsPerDay + r) % MsPerDay == r
  {
    var t := q * MsPerDay + r;
    var q', r' := t / MsPerDay, t % MsPerDay;
    assert t == q' * MsPerDay + r';
    assert (q - q') * MsPerDay == r' - r;
  }

  /** moment's startOf("day"): the first millisecond of the day holding `t`. */
  function StartOfDay(t: int): (r: int)
    ensures r % MsPerDay == 0
    ensures r <= t < r + MsPerDay
  {
    t - t % MsPerDay
  }

  /** moment's endOf("day"): the last millisecond of the day holding `t`. */
  function EndOfDay(t: int): (r: int)
    ensures (r + 1) % MsPerDay == 0
    ensures r - MsPerDay < t <= r
    ensures StartOfDay(t) == r + 1 - MsPerDay
  {
    StartOfDay(t) + MsPerDay - 1
  }

  /** A time stamp that lies `r` ms into day number `q` starts that day and ends it. */
  lemma DayBounds(q: int, r: int)
    requires 0 <= r < MsPerDay
    ensures StartOfDay(q * MsPerDay + r) == q * MsPerDay
    ensures EndOfDay(q * MsPerDay + r) == (q + 1) * MsPerDay - 1
  {
    DivisionByDay(q, r);
  }

  /** Day of the week of `t`, 0 = Sunday ... 6 = Saturday; 1970-01-01 was a Thursday. */
  function Weekday(t: int): (d: int)
    ensures 0 <= d < 7
  {
    (t / MsPerDay + 4) % 7
  }

  /** 1970-01-01 was a Thursday, and each day is followed by the next weekday, Saturday by Sunday. */
  lemma WeekdayNext(t: int)
    ensures Weekday(0) == 4
    ensures Weekday(t + MsPerDay) == (Weekday(t) + 1) % 7
  {
    var q, r := t / MsPerDay, t % MsPerDay;
    assert t + MsPerDay == (q + 1) * MsPerDay + r;
    DivisionByDay(q + 1, r);
    var a, k := (q + 4) / 7, (q + 4) % 7;
    assert q + 1 + 4 == 7 * a + (k + 1);
    if k < 6 {
      MultipleOfSeven(a, k + 1);
    } else {
      assert q + 1 + 4 == 7 * (a + 1) + 0;
      MultipleOfSeven(a + 1, 0);
    }
  }

  lemma WeekdayOfDay(q: int, r: int)
    requires 0 <= r < MsPerDay
    ensures Weekday(q * MsPerDay + r) == (q + 4) % 7
  {
    DivisionByDay(q, r);
  }

  lemma MultipleOfSeven(a: int, k: int)
    requires 0 <= k < 7
    ensures (7 * a + k) % 7 == k
  {
    var q, r := (7 * a + k) / 7, (7 * a + k) % 7;
    assert 7 * a + k == 7 * q + r;
    assert 7 * (a - q) == r - k;
  }

  /** moment's startOf("week") in the default locale, whose weeks start on Sunday. */
  function StartOfWeek(t: int): (r: int)
    ensures r % MsPerDay == 0
    ensures r <= t < r + 7 * MsPerDay
    ensures Weekday(r) == 0
  {
    var q := t / MsPerDay;
    var wd := Weekday(t);
    var a := (q + 4) / 7;
    assert q + 4 == 7 * a + wd;
    DivisionByDay(q - wd, 0);
    MultipleOfSeven(a, 0);
    (q - wd) * MsPerDay
  }

  /** A week that starts at a Sunday midnight `s` ends at the last millisecond of a Saturday. */
  lemma WeekEnd(s: int)
    requires s % MsPerDay == 0 && Weekday(s) == 0
    ensures (s + 7 * MsPerDay) % MsPerDay == 0
    ensures Weekday(s + 7 * MsPerDay - 1) == 6
  {
    var q := s / MsPerDay;
    assert s == q * MsPerDay;
    assert s + 7 * MsPerDay == (q + 7) * MsPerDay + 0;
    DivisionByDay(q + 7, 0);
    assert s + 7 * MsPerDay - 1 == (q + 6) * MsPerDay + (MsPerDay - 1);
    WeekdayOfDay(q, 0);
    WeekdayOfDay(q + 6, MsPerDay - 1);
    var a := (q + 4) / 7;
    assert q + 4 == 7 * a;
    assert q + 6 + 4 == 7 * a + 6;
    MultipleOfSeven(a, 6);
  }

  /** moment's endOf("week"): the last millisecond of the Saturday of the week holding `t`. */
  function EndOfWeek(t: int): (r: int)
    ensures (r + 1) % MsPerDay == 0
    ensures r - 7 * MsPerDay < t <= r
    ensures r + 1 - 7 * MsPerDay == StartOfWeek(t)
    ensures Weekday(r) == 6
  {
    WeekEnd(StartOfWeek(t));
    StartOfWeek(t) + 7 * MsPerDay - 1
  }

  // ---------------------------------------------------------------------------
  // Civil date-times, for the month and year arithmetic

  /** A moment as a civil date-time: year, month 1..12, day of the month, ms into the day. */
  datatype Moment = Moment(year: int, month: int, day: int, ms: int)

  predicate Valid(c: Moment) {
    && 1 <= c.month <= 12
    && 1 <= c.day <= DaysInMonth(c.year, c.month)
    && 0 <= c.ms < MsPerDay
  }

  /** Days since 1970-01-01 of the date of `c`. */
  function DayNumber(c: Moment): int
    requires Valid(c)
  {
    DaysBeforeYear(c.year) + DaysBeforeMonth(c.year, c.month) + c.day - 1
  }

  /** moment's valueOf(): milliseconds since the epoch. */
  function ValueOf(c: Moment): int
    requires Valid(c)
  {
    DayNumber(c) * MsPerDay + c.ms
  }

  /** moment's startOf("month"). */
  function StartOfMonth(c: Moment): (r: Moment)
    requires Valid(c)
    ensures Valid(r)
  {
    Moment(c.year, c.month, 1, 0)
  }

  /** moment's endOf("month"): the last day of the month of `c`, at its last millisecond. */
  function EndOfMonth(c: Moment): (r: Moment)
    requires Valid(c)
    ensures Valid(r)
  {
    Moment(c.year, c.month, DaysInMonth(c.year, c.month), MsPerDay - 1)
  }

  /** `c` lies between the first and the last millisecond of its month, which is DaysInMonth days long. */
  lemma MonthBounds(c: Moment)
    requires Valid(c)
    ensures ValueOf(StartOfMonth(c)) <= ValueOf(c) <= ValueOf(EndOfMonth(c))
    ensures ValueOf(EndOfMonth(c)) + 1 == ValueOf(StartOfMonth(c)) + DaysInMonth(c.year, c.month) * MsPerDay
    ensures ValueOf(StartOfMonth(c)) == (DaysBeforeYear(c.year) + DaysBeforeMonth(c.year, c.month)) * MsPerDay
  {
  }

  /**
   * moment's add(1, "month"): the same day of the next month and the same time of
   * day, except that a day past the end of the next month is clamped to its last day.
   */
  function AddMonth(c: Moment): (r: Moment)
    requires Valid(c)
    ensures Valid(r)
    ensures r.ms == c.ms
    ensures r.day <= c.day && (r.day < c.day ==> r.day == DaysInMonth(r.year, r.month))
    ensures c.month < 12 ==> r.year == c.year && r.month == c.month + 1
    ensures c.month == 12 ==> r.year == c.year + 1 && r.month == 1
  {
    var (y, m) := if c.month == 12 then (c.year + 1, 1) else (c.year, c.month + 1);
    var last := DaysInMonth(y, m);
    Moment(y, m, if c.day <= last then c.day else last, c.ms)
  }

  /** moment's startOf("year"). */
  function StartOfYear(y: int): (r: Moment)
    ensures Valid(r) && r.year == y
  {
    Moment(y, 1, 1, 0)
  }

  /** moment's endOf("year"): the last millisecond of December 31. */
  function EndOfYear(y: int): (r: Moment)
    ensures Valid(r) && r.year == y
  {
    Moment(y, 12, 31, MsPerDay - 1)
  }

  /** A year is DaysInYear days long and the next one starts 1 ms after it ends. */
  lemma YearBounds(y: int)
    ensures ValueOf(StartOfYear(y)) == DaysBeforeYear(y) * MsPerDay
    ensures ValueOf(EndOfYear(y)) + 1 == ValueOf(StartOfYear(y)) + DaysInYear(y) * MsPerDay
    ensures ValueOf(EndOfYear(y)) + 1 == ValueOf(StartOfYear(y + 1))
  {
    NextYear(y);
  }

  /** Every moment of year `y` lies at or before its end; every moment of the next year lies after it. */
  lemma YearEndBound(c: Moment, y: int)
    requires Valid(c)
    ensures c.year == y ==> ValueOf(c) <= ValueOf(EndOfYear(y))
    ensures c.year == y + 1 ==> ValueOf(c) > ValueOf(EndOfYear(y))
  {
    var ey := EndOfYear(y);
    if c.year == y {
      MonthsAdjoin(y, c.month);
      assert DaysBeforeMonth(y, c.month) + c.day <= DaysBeforeMonth(y, c.month + 1);
      assert DayNumber(c) <= DaysBeforeYear(y) + DaysInYear(y) - 1;
      assert DayNumber(ey) == DaysBeforeYear(y) + DaysInYear(y) - 1;
    } else if c.year == y + 1 {
      NextYear(y);
      assert DayNumber(c) >= DaysBeforeYear(y + 1);
      assert DayNumber(ey) == DaysBeforeYear(y) + DaysInYear(y) - 1;
    }
  }
}
