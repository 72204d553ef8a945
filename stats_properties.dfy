/** Properties of the statistics report: conservation across buckets, consistency of the period totals, tolerance of unparsed payments. */
module StatsProperties {
  import opened Wrappers
  import opened Calendar
  import opened Buckets
  import opened Activity
  import opened Funds
  import opened Stats

  function FundsOfRecord(r: Record): int { r.totalFunds }
  function AdoptionsOf(r: Record): int { r.adoptionCount }
  function MissingOf(r: Record): int { r.missingCount }
  function AdoptionSuccessesOf(r: Record): int { r.adoptionSuccessCount }
  function MissingSuccessesOf(r: Record): int { r.missingSuccessCount }

  /** Conservation of one count: the records' counts over a partition add up to the count over the whole window. */
  lemma RecordCountsConserve(rs: seq<Record>, sel: Record -> int, ws: seq<Window>, w: Window,
                             posts: seq<Post>, postType: string, status: Option<Status>)
    requires IsPartition(ws, w) && |rs| == |ws|
    requires forall k :: 0 <= k < |rs| ==> sel(rs[k]) == CountDocuments(posts, CountQuery(postType, status, ws[k]))
    ensures Sum(rs, sel) == CountDocuments(posts, CountQuery(postType, status, w))
  {
    SumPointwise(rs, sel, ws, CountIn(posts, postType, status));
    CountPartition(posts, postType, status, ws, w);
  }

  /**
   * The records of a partition of `w` lose and double-count nothing: their funds and
   * each of their four counts add up to the funds and the counts over `w`.
   */
  lemma RecordsConserve(labels: seq<string>, ws: seq<Window>, w: Window, posts: seq<Post>, payments: seq<Payment>)
    requires |labels| == |ws| && IsPartition(ws, w)
    ensures var rs := Records(labels, ws, posts, payments);
            && Sum(rs, FundsOfRecord) == FundsIn(payments, w)
            && Sum(rs, AdoptionsOf) == CountDocuments(posts, TotalQuery("adoption", w))
            && Sum(rs, MissingOf) == CountDocuments(posts, TotalQuery("lost", w))
            && Sum(rs, AdoptionSuccessesOf) == CountDocuments(posts, SuccessQuery("adoption", w))
            && Sum(rs, MissingSuccessesOf) == CountDocuments(posts, SuccessQuery("lost", w))
  {
    var rs := Records(labels, ws, posts, payments);
    SumPointwise(rs, FundsOfRecord, ws, FundsOf(payments));
    FundsPartition(payments, ws, w);
    RecordCountsConserve(rs, AdoptionsOf, ws, w, posts, "adoption", None);
    RecordCountsConserve(rs, MissingOf, ws, w, posts, "lost", None);
    RecordCountsConserve(rs, AdoptionSuccessesOf, ws, w, posts, "adoption", Some(Success));
    RecordCountsConserve(rs, MissingSuccessesOf, ws, w, posts, "lost", Some(Success));
  }

  /** With one reading of the clock, the week's total funds are the sum of its seven day totals. */
  lemma WeekFundsConservation(now: Moment, posts: seq<Post>, payments: seq<Payment>)
    requires Valid(now)
    ensures Sum(Report(now, posts, payments).weeklyStats.records, FundsOfRecord)
         == Report(now, posts, payments).weeklyStats.totalFunds
  {
    var t := ValueOf(now);
    WeekDaysPartition(t);
    RecordsConserve(WeekdayNames, WeekDays(t), WeekWindow(t), posts, payments);
  }

  /** With one reading of the clock, the month's total funds are those of the current month's record. */
  lemma MonthFundsConsistency(now: Moment, posts: seq<Post>, payments: seq<Payment>)
    requires Valid(now)
    ensures Report(now, posts, payments).monthlyStats.totalFunds
         == Report(now, posts, payments).monthlyStats.records[now.month - 1].totalFunds
  {
  }

  /** The twelve month totals add up to the funds of the whole year. */
  lemma YearFundsConservation(now: Moment, posts: seq<Post>, payments: seq<Payment>)
    requires Valid(now)
    ensures Sum(Report(now, posts, payments).monthlyStats.records, FundsOfRecord)
         == FundsIn(payments, YearWindow(now.year))
  {
    YearMonthsPartition(now.year);
    RecordsConserve(MonthNames, YearMonths(now.year), YearWindow(now.year), posts, payments);
  }

  /** Each of the four day counts, summed over the week, is the count over the whole week. */
  lemma WeekCountConservation(now: Moment, posts: seq<Post>, payments: seq<Payment>)
    requires Valid(now)
    ensures var days := Report(now, posts, payments).weeklyStats.records;
            var week := WeekWindow(ValueOf(now));
            && Sum(days, AdoptionsOf) == CountDocuments(posts, TotalQuery("adoption", week))
            && Sum(days, MissingOf) == CountDocuments(posts, TotalQuery("lost", week))
            && Sum(days, AdoptionSuccessesOf) == CountDocuments(posts, SuccessQuery("adoption", week))
            && Sum(days, MissingSuccessesOf) == CountDocuments(posts, SuccessQuery("lost", week))
  {
    var t := ValueOf(now);
    WeekDaysPartition(t);
    RecordsConserve(WeekdayNames, WeekDays(t), WeekWindow(t), posts, payments);
  }

  /** Each of the four month counts, summed over the year, is the count over the whole year. */
  lemma YearCountConservation(now: Moment, posts: seq<Post>, payments: seq<Payment>)
    requires Valid(now)
    ensures var months := Report(now, posts, payments).monthlyStats.records;
            var year := YearWindow(now.year);
            && Sum(months, AdoptionsOf) == CountDocuments(posts, TotalQuery("adoption", year))
            && Sum(months, MissingOf) == CountDocuments(posts, TotalQuery("lost", year))
            && Sum(months, AdoptionSuccessesOf) == CountDocuments(posts, SuccessQuery("adoption", year))
            && Sum(months, MissingSuccessesOf) == CountDocuments(posts, SuccessQuery("lost", year))
  {
    YearMonthsPartition(now.year);
    RecordsConserve(MonthNames, YearMonths(now.year), YearWindow(now.year), posts, payments);
  }

  /** A payment whose date does not parse changes nothing in the report, wherever it lies in the snapshot. */
  lemma UnparsedPaymentNoEffect(now: Moment, posts: seq<Post>, xs: seq<Payment>, price: int, ys: seq<Payment>)
    requires Valid(now)
    ensures Report(now, posts, xs + [Payment(price, None)] + ys) == Report(now, posts, xs + ys)
  {
    var t := ValueOf(now);
    var with := xs + [Payment(price, None)] + ys;
    var without := xs + ys;
    forall w | true
      ensures FundsIn(with, w) == FundsIn(without, w)
    {
      UnparsedPaymentIgnored(xs, price, ys, w);
    }
    assert WeekRecords(t, posts, with) == WeekRecords(t, posts, without);
    assert YearRecords(now.year, posts, with) == YearRecords(now.year, posts, without);
  }

  /** Empty collections give seven and twelve zeroed records and zero totals. */
  lemma EmptyCollectionsReport(now: Moment)
    requires Valid(now)
    ensures var r := Report(now, [], []);
            && (forall k :: 0 <= k < 7 ==> r.weeklyStats.records[k] == Record(WeekdayNames[k], 0, 0, 0, 0, 0))
            && (forall k :: 0 <= k < 12 ==> r.monthlyStats.records[k] == Record(MonthNames[k], 0, 0, 0, 0, 0))
            && r.weeklyStats.totalFunds == 0 && r.monthlyStats.totalFunds == 0
  {
  }

  /** A post dated in the current week is counted in exactly one day record; a post dated outside it in none. */
  lemma PostInOneDay(now: Moment, p: Post)
    requires Valid(now)
    ensures var days := WeekDays(ValueOf(now));
            && (Contains(WeekWindow(ValueOf(now)), p.postDate) <==> exists k :: 0 <= k < 7 && Contains(days[k], p.postDate))
            && (forall i, j :: 0 <= i < 7 && 0 <= j < 7 && Contains(days[i], p.postDate) && Contains(days[j], p.postDate) ==> i == j)
  {
    WeekDaysPartition(ValueOf(now));
    PartitionMembership(WeekDays(ValueOf(now)), WeekWindow(ValueOf(now)), p.postDate);
  }
}
