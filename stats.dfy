/**
 * The GET /posts/stats handler: for each day of the current week and each
 * month of the current year a record of four post counts and the funds
 * raised, plus the funds of the whole current week and of the current month.
 * "now" is one reading of the clock, passed in; the posts and the payments are
 * snapshots of the two collections.
 */
module Stats {
  import opened Wrappers
  import opened Calendar
  import opened Buckets
  import opened Activity
  import opened Funds

  /** One day or one month of the report; `periodLabel` is "Sun".."Sat" or "Jan".."Dec". */
  datatype Record = Record(
    periodLabel: string,
    adoptionCount: nat,
    missingCount: nat,
    adoptionSuccessCount: nat,
    missingSuccessCount: nat,
    totalFunds: int)

  datatype PeriodStats = PeriodStats(records: seq<Record>, totalFunds: int)

  datatype StatsReport = StatsReport(weeklyStats: PeriodStats, monthlyStats: PeriodStats)

  /** What the record of window `w` holds. */
  function Summary(periodLabel: string, w: Window, posts: seq<Post>, payments: seq<Payment>): (r: Record)
    ensures r.periodLabel == periodLabel
    ensures r.adoptionSuccessCount <= r.adoptionCount && r.missingSuccessCount <= r.missingCount
  {
    SuccessAtMostTotal(posts, "adoption", w);
    SuccessAtMostTotal(posts, "lost", w);
    Record(periodLabel,
      CountDocuments(posts, TotalQuery("adoption", w)),
      CountDocuments(posts, TotalQuery("lost", w)),
      CountDocuments(posts, SuccessQuery("adoption", w)),
      CountDocuments(posts, SuccessQuery("lost", w)),
      FundsIn(payments, w))
  }

  /** The body of both bucket loops: four counts and one pass over the payments. */
  method BucketRecord(periodLabel: string, w: Window, posts: seq<Post>, payments: seq<Payment>) returns (r: Record)
    ensures r == Summary(periodLabel, w, posts, payments)
  {
    var adoptionCount := CountDocuments(posts, CountQuery("adoption", None, w));
    var missingCount := CountDocuments(posts, CountQuery("lost", None, w));
    var adoptionSuccessCount := CountDocuments(posts, CountQuery("adoption", Some(NumberStatus(2)), w));
    var missingSuccessCount := CountDocuments(posts, CountQuery("lost", Some(NumberStatus(2)), w));
    var totalFunds := SumFunds(payments, w);
    r := Record(periodLabel, adoptionCount, missingCount, adoptionSuccessCount, missingSuccessCount, totalFunds);
  }

  /** One record per window, in order, each labelled with the matching label. */
  function Records(labels: seq<string>, ws: seq<Window>, posts: seq<Post>, payments: seq<Payment>): (rs: seq<Record>)
    requires |labels| == |ws|
    ensures |rs| == |ws|
    ensures forall k :: 0 <= k < |ws| ==> rs[k].periodLabel == labels[k]
  {
    seq(|ws|, k requires 0 <= k < |ws| => Summary(labels[k], ws[k], posts, payments))
  }

  /** The day records of the week of `t`, Sunday to Saturday. */
  function WeekRecords(t: int, posts: seq<Post>, payments: seq<Payment>): (rs: seq<Record>)
    ensures |rs| == 7
    ensures forall k :: 0 <= k < 7 ==> rs[k].periodLabel == WeekdayNames[k]
  {
    Records(WeekdayNames, WeekDays(t), posts, payments)
  }

  /** The month records of year `y`, January to December. */
  function YearRecords(y: int, posts: seq<Post>, payments: seq<Payment>): (rs: seq<Record>)
    ensures |rs| == 12
    ensures forall k :: 0 <= k < 12 ==> rs[k].periodLabel == MonthNames[k]
  {
    Records(MonthNames, YearMonths(y), posts, payments)
  }

  /** The report for one reading `now` of the clock. */
  function Report(now: Moment, posts: seq<Post>, payments: seq<Payment>): (r: StatsReport)
    requires Valid(now)
    ensures |r.weeklyStats.records| == 7 && |r.monthlyStats.records| == 12
  {
    var t := ValueOf(now);
    StatsReport(
      PeriodStats(WeekRecords(t, posts, payments), FundsIn(payments, WeekWindow(t))),
      PeriodStats(YearRecords(now.year, posts, payments), FundsIn(payments, MonthWindow(now.year, now.month))))
  }

  /**
   * The day cursor after `n` steps: the start of the week before the first step,
   * then the end of the day after the last day counted.
   */
  function DayCursor(t: int, n: int): int {
    StartOfWeek(t) + (if n == 0 then 0 else (n + 1) * MsPerDay - 1)
  }

  /** The cursor stays inside the week for exactly seven steps, and at step `n` it opens and closes day `n`. */
  lemma DayStep(t: int, n: int)
    requires 0 <= n <= 7
    ensures DayCursor(t, n) <= EndOfWeek(t) <==> n < 7
    ensures n < 7 ==>
      && StartOfDay(DayCursor(t, n)) == WeekDays(t)[n].start
      && EndOfDay(StartOfDay(DayCursor(t, n))) == WeekDays(t)[n].end
      && Weekday(WeekDays(t)[n].end) == n
      && WeekDays(t)[n].end + MsPerDay == DayCursor(t, n + 1)
  {
    if n < 7 {
      WeekDay(t, n);
      if n > 0 {
        WeekDay(t, n - 1);
        assert DayCursor(t, n) == WeekDays(t)[n].end;
      }
    }
  }

  /** The day loop: a cursor steps from the start of the week one day at a time while it is not past the week's end. */
  method WeeklyRecords(now: Moment, posts: seq<Post>, payments: seq<Payment>) returns (days: seq<Record>)
    requires Valid(now)
    ensures days == WeekRecords(ValueOf(now), posts, payments)
  {
    var t := ValueOf(now);
    var startOfWeek := StartOfWeek(t);
    var endOfWeek := EndOfWeek(t);
    ghost var spec := WeekRecords(t, posts, payments);
    days := [];
    var day := startOfWeek;
    DayStep(t, 0);
    while day <= endOfWeek
      invariant |days| <= 7
      invariant day == DayCursor(t, |days|)
      invariant forall k {:trigger days[k]} :: 0 <= k < |days| ==> days[k] == spec[k]
      decreases 7 - |days|
    {
      ghost var n := |days|;
      DayStep(t, n);
      day := StartOfDay(day);
      var dayStart := day;
      day := EndOfDay(day);
      var dayEnd := day;
      assert Window(dayStart, dayEnd) == WeekDays(t)[n] && Weekday(day) == n;
      var record := BucketRecord(WeekdayNames[Weekday(day)], Window(dayStart, dayEnd), posts, payments);
      assert record == spec[n];
      ghost var before := days;
      days := days + [record];
      assert forall j :: 0 <= j < n ==> days[j] == before[j];
      day := day + MsPerDay;
      DayStep(t, n + 1);
    }
  }

  /**
   * The month cursor after `n` steps: the start of the year before the first step,
   * then one month past the end of month `n`, its day clamped to the next month's length.
   */
  function MonthCursor(y: int, n: int): (c: Moment)
    requires 0 <= n <= 12
    ensures Valid(c)
  {
    if n == 0 then StartOfYear(y) else AddMonth(EndOfMonth(Moment(y, n, 1, 0)))
  }

  /** The cursor stays inside the year for exactly twelve steps, and at step `n` it opens and closes month `n + 1`. */
  lemma MonthStep(y: int, n: int)
    requires 0 <= n <= 12
    ensures ValueOf(MonthCursor(y, n)) <= ValueOf(EndOfYear(y)) <==> n < 12
    ensures n < 12 ==>
      var first := StartOfMonth(MonthCursor(y, n));
      var last := EndOfMonth(first);
      && Window(ValueOf(first), ValueOf(last)) == YearMonths(y)[n]
      && last.month == n + 1
      && AddMonth(last) == MonthCursor(y, n + 1)
  {
    var c := MonthCursor(y, n);
    YearEndBound(c, y);
    if n < 12 {
      assert c.year == y && c.month == n + 1;
      assert StartOfMonth(c) == Moment(y, n + 1, 1, 0);
    } else {
      assert c.year == y + 1;
    }
  }

  /** One pass of the month loop body: the record of month `n + 1` and the cursor moved one month on. */
  method MonthRecord(y: int, n: int, month: Moment, posts: seq<Post>, payments: seq<Payment>)
    returns (record: Record, next: Moment)
    requires 0 <= n < 12 && month == MonthCursor(y, n)
    ensures record == YearRecords(y, posts, payments)[n]
    ensures next == MonthCursor(y, n + 1)
  {
    MonthStep(y, n);
    var first := StartOfMonth(month);
    var monthStart := ValueOf(first);
    var last := EndOfMonth(first);
    var monthEnd := ValueOf(last);
    record := BucketRecord(MonthNames[last.month - 1], Window(monthStart, monthEnd), posts, payments);
    next := AddMonth(last);
  }

  /** Extending a prefix by one element gives the next prefix. */
  lemma PrefixStep<T>(s: seq<T>, n: nat)
    requires n < |s|
    ensures s[..n + 1] == s[..n] + [s[n]]
  {
  }

  /** The month loop: a cursor steps from the start of the year one month at a time while it is not past the year's end. */
  method MonthlyRecords(now: Moment, posts: seq<Post>, payments: seq<Payment>) returns (months: seq<Record>)
    requires Valid(now)
    ensures months == YearRecords(now.year, posts, payments)
  {
    var y := now.year;
    var endOfYear := EndOfYear(y);
    ghost var spec := YearRecords(y, posts, payments);
    months := [];
    var month := StartOfYear(y);
    while ValueOf(month) <= ValueOf(endOfYear)
      invariant |months| <= 12
      invariant month == MonthCursor(y, |months|)
      invariant months == spec[..|months|]
      decreases 12 - |months|
    {
      MonthStep(y, |months|);
      var record;
      record, month := MonthRecord(y, |months|, month, posts, payments);
      PrefixStep(spec, |months|);
      months := months + [record];
    }
    MonthStep(y, |months|);
    assert spec[..12] == spec;
  }

  /** The handler: both bucket loops and the two period totals, from one reading of the clock. */
  method PostsStats(now: Moment, posts: seq<Post>, payments: seq<Payment>) returns (report: StatsReport)
    requires Valid(now)
    ensures report == Report(now, posts, payments)
  {
    var days := WeeklyRecords(now, posts, payments);
    var t := ValueOf(now);
    var thisWeekTotalFunds := SumFunds(payments, Window(StartOfWeek(t), EndOfWeek(t)));
    var months := MonthlyRecords(now, posts, payments);
    var startOfMonth := ValueOf(StartOfMonth(now));
    var endOfMonth := ValueOf(EndOfMonth(now));
    var thisMonthTotalFunds := SumFunds(payments, Window(startOfMonth, endOfMonth));
    report := StatsReport(PeriodStats(days, thisWeekTotalFunds), PeriodStats(months, thisMonthTotalFunds));
  }
}
