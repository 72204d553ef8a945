/**
 * The time windows the statistics handler counts in: closed intervals of
 * milliseconds, the seven days of the current week and the twelve months of
 * the current year, and the sums that are taken over a sequence of windows.
 */
module Buckets {
  import opened Calendar

  /** A closed window [start, end]; a time stamp equal to either bound lies inside. */
  datatype Window = Window(start: int, end: int)

  predicate Contains(w: Window, t: int) {
    w.start <= t <= w.end
  }

  /** `ws` cuts `w` into consecutive non-empty windows, each starting 1 ms after the previous one ends. */
  predicate IsPartition(ws: seq<Window>, w: Window) {
    && |ws| > 0
    && ws[0].start == w.start
    && ws[|ws| - 1].end == w.end
    && (forall k :: 0 <= k < |ws| ==> ws[k].start <= ws[k].end)
    && (forall k :: 0 < k < |ws| ==> ws[k].start == ws[k - 1].end + 1)
  }

  lemma PartitionPrefix(ws: seq<Window>, w: Window)
    requires IsPartition(ws, w) && |ws| > 1
    ensures IsPartition(ws[..|ws| - 1], Window(w.start, ws[|ws| - 2].end))
    ensures ws[|ws| - 1].start == ws[|ws| - 2].end + 1
  {
  }

  /** The windows of a partition lie inside the partitioned window, in ascending order. */
  lemma {:induction false} PartitionOrdered(ws: seq<Window>, w: Window)
    requires IsPartition(ws, w)
    ensures w.start <= w.end
    ensures forall k :: 0 <= k < |ws| ==> w.start <= ws[k].start && ws[k].end <= w.end
    ensures forall i, j :: 0 <= i < j < |ws| ==> ws[i].end < ws[j].start
  {
    var n := |ws|;
    if n > 1 {
      var w' := Window(w.start, ws[n - 2].end);
      PartitionPrefix(ws, w);
      PartitionOrdered(ws[..n - 1], w');
      assert forall k :: 0 <= k < n - 1 ==> ws[..n - 1][k] == ws[k];
    }
  }

  /** No gap and no overlap: every instant of `w` lies in exactly one window of the partition. */
  lemma {:induction false} PartitionMembership(ws: seq<Window>, w: Window, t: int)
    requires IsPartition(ws, w)
    ensures Contains(w, t) <==> exists k :: 0 <= k < |ws| && Contains(ws[k], t)
    ensures forall i, j :: 0 <= i < |ws| && 0 <= j < |ws| && Contains(ws[i], t) && Contains(ws[j], t) ==> i == j
  {
    PartitionOrdered(ws, w);
    var n := |ws|;
    if n > 1 {
      var w' := Window(w.start, ws[n - 2].end);
      PartitionPrefix(ws, w);
      PartitionMembership(ws[..n - 1], w', t);
      assert forall k :: 0 <= k < n - 1 ==> ws[..n - 1][k] == ws[k];
      if Contains(w, t) && !Contains(w', t) {
        assert Contains(ws[n - 1], t);
      }
    } else {
      assert Contains(w, t) ==> Contains(ws[0], t);
    }
  }

  /** The sum of `f` over the elements of `xs`, taken from the first to the last. */
  function Sum<T>(xs: seq<T>, f: T -> int): int {
    if |xs| == 0 then 0 else Sum(xs[..|xs| - 1], f) + f(xs[|xs| - 1])
  }

  /** Sums of pointwise equal terms are equal. */
  lemma {:induction false} SumPointwise<T, U>(xs: seq<T>, f: T -> int, ys: seq<U>, g: U -> int)
    requires |xs| == |ys|
    requires forall k :: 0 <= k < |xs| ==> f(xs[k]) == g(ys[k])
    ensures Sum(xs, f) == Sum(ys, g)
  {
    if |xs| > 0 {
      var n := |xs|;
      assert forall k :: 0 <= k < n - 1 ==> xs[..n - 1][k] == xs[k] && ys[..n - 1][k] == ys[k];
      SumPointwise(xs[..n - 1], f, ys[..n - 1], g);
    }
  }

  /** A measure of windows that adds up when a window is cut in two adjacent pieces. */
  ghost predicate Additive(f: Window -> int) {
    forall a, m, b :: a <= m + 1 <= b + 1 ==> f(Window(a, b)) == f(Window(a, m)) + f(Window(m + 1, b))
  }

  /** An additive measure of a window is the sum of its measures over a partition. */
  lemma {:induction false} PartitionSum(ws: seq<Window>, w: Window, f: Window -> int)
    requires IsPartition(ws, w) && Additive(f)
    ensures Sum(ws, f) == f(w)
  {
    var n := |ws|;
    if n == 1 {
      assert ws[..0] == [];
    } else {
      var w' := Window(w.start, ws[n - 2].end);
      PartitionPrefix(ws, w);
      PartitionOrdered(ws, w);
      PartitionSum(ws[..n - 1], w', f);
      assert w.start <= w'.end + 1 <= w.end + 1;
      assert f(w) == f(w') + f(Window(w'.end + 1, w.end));
    }
  }

  // ---------------------------------------------------------------------------
  // The week of a time stamp, day by day

  /** The current week: from the first millisecond of its Sunday to the last of its Saturday. */
  function WeekWindow(t: int): (w: Window)
    ensures Contains(w, t)
    ensures w.end - w.start + 1 == 7 * MsPerDay
  {
    Window(StartOfWeek(t), EndOfWeek(t))
  }

  /** The seven days of the week of `t`, Sunday first. */
  function WeekDays(t: int): (ws: seq<Window>)
    ensures |ws| == 7
  {
    var s := StartOfWeek(t);
    seq(7, k requires 0 <= k < 7 => Window(s + k * MsPerDay, s + (k + 1) * MsPerDay - 1))
  }

  /** Day `k` of the week is a whole calendar day, and it is weekday `k`. */
  lemma WeekDay(t: int, k: int)
    requires 0 <= k < 7
    ensures WeekDays(t)[k].start == StartOfDay(WeekDays(t)[k].start)
    ensures WeekDays(t)[k].end == EndOfDay(WeekDays(t)[k].start)
    ensures WeekDays(t)[k].start == StartOfDay(WeekDays(t)[k].end)
    ensures Weekday(WeekDays(t)[k].start) == k && Weekday(WeekDays(t)[k].end) == k
  {
    var s := StartOfWeek(t);
    var q := s / MsPerDay;
    assert s == q * MsPerDay;
    var d := WeekDays(t)[k];
    assert d.start == (q + k) * MsPerDay + 0;
    assert d.end == (q + k) * MsPerDay + (MsPerDay - 1);
    DayBounds(q + k, 0);
    DayBounds(q + k, MsPerDay - 1);
    WeekdayOfDay(q + k, 0);
    WeekdayOfDay(q + k, MsPerDay - 1);
    WeekdayOfDay(q, 0);
    var a := (q + 4) / 7;
    assert q + 4 == 7 * a;
    MultipleOfSeven(a, k);
    assert q + k + 4 == 7 * a + k;
  }

  /** The seven day windows cover the week without gap or overlap. */
  lemma WeekDaysPartition(t: int)
    ensures IsPartition(WeekDays(t), WeekWindow(t))
  {
  }

  // ---------------------------------------------------------------------------
  // The year of a moment, month by month

  /** Month `m` of year `y`, from its first millisecond to its last. */
  function MonthWindow(y: int, m: int): Window
    requires 1 <= m <= 12
  {
    var first := Moment(y, m, 1, 0);
    Window(ValueOf(StartOfMonth(first)), ValueOf(EndOfMonth(first)))
  }

  /** The current month of `now` contains `now` and is as long as the month. */
  lemma MonthWindowContains(now: Moment)
    requires Valid(now)
    ensures Contains(MonthWindow(now.year, now.month), ValueOf(now))
    ensures MonthWindow(now.year, now.month).end - MonthWindow(now.year, now.month).start + 1
         == DaysInMonth(now.year, now.month) * MsPerDay
  {
    assert StartOfMonth(Moment(now.year, now.month, 1, 0)) == StartOfMonth(now);
    assert EndOfMonth(Moment(now.year, now.month, 1, 0)) == EndOfMonth(now);
    MonthBounds(now);
  }

  function YearWindow(y: int): Window {
    Window(ValueOf(StartOfYear(y)), ValueOf(EndOfYear(y)))
  }

  /** The twelve months of year `y`, January first. */
  function YearMonths(y: int): (ws: seq<Window>)
    ensures |ws| == 12
  {
    seq(12, k requires 0 <= k < 12 => MonthWindow(y, k + 1))
  }

  /** The twelve month windows cover the year without gap or overlap, through the short months. */
  lemma YearMonthsPartition(y: int)
    ensures IsPartition(YearMonths(y), YearWindow(y))
  {
    var ws := YearMonths(y);
    forall k | 0 <= k < 12
      ensures ws[k].start <= ws[k].end
      ensures ws[k].end + 1 == (DaysBeforeYear(y) + DaysBeforeMonth(y, k + 2)) * MsPerDay
      ensures ws[k].start == (DaysBeforeYear(y) + DaysBeforeMonth(y, k + 1)) * MsPerDay
    {
      MonthBounds(Moment(y, k + 1, 1, 0));
      MonthsAdjoin(y, k + 1);
    }
    YearBounds(y);
  }
}
