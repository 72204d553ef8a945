# Pet adoption backend: statistics and post filters, in Dafny

This project models two parts of the Express/MongoDB backend of a pet adoption and lost-pet site (`index.js`).

**The statistics handler `GET /posts/stats`.** It reads the payment collection once. Then it builds two sets of records:

- one record for each day of the current week, Sunday to Saturday;
- one record for each month of the current year, January to December.

Each record holds four post counts for its window: adoption posts, lost posts, adoption posts with status 2, and lost posts with status 2. It also holds the sum of the prices of the payments dated inside the window. The handler adds the funds of the whole current week and of the current month.

In the model, the clock reading `now` is a parameter. The two collections are sequences of documents. The calendar arithmetic the handler gets from moment.js is spelled out:

- start and end of a day, a week, a month and a year;
- adding one day;
- adding one month, which clamps the day.

Time is UTC, the calendar is the proleptic Gregorian one, and the week starts on Sunday.

The two bucket loops are methods with loop invariants. They are proved equal to specification functions (`WeekRecords`, `YearRecords`, `Report`). Further lemmas about those functions state what the report means:

- every post and every payment of the current week falls into exactly one day, so the day records add up to the week figures;
- the twelve months add up to the year;
- the monthly total is the current month's record;
- a payment whose date does not parse changes nothing.

**The filter builders** of `GET /api/search`, `GET /api/adoptable-posts` and `GET /api/missing-posts`. Each builds a MongoDB query from query-string parameters. In the model a filter is a map from field names to conditions. The meaning of a condition is given as a predicate on documents. For each builder a lemma states which documents its filter selects, in terms of the request parameters.

Modules, one file each: `Wrappers` (Option), `Calendar`, `Buckets` (windows, partitions, sums), `Activity` (post counts), `Funds` (payment folds), `Stats` (the handler), `StatsProperties` (report-level lemmas) and `Filters`.

## Model

| member | source | states |
|---|---|---|
| Calendar.DaysInYear | index.js:540-541 | A year has 365 days, or 366 exactly when it is a Gregorian leap year. |
| Calendar.DaysInMonth | index.js:549-552 | A month has 28 to 31 days, and it has 29 exactly for February of a leap year. |
| Calendar.MonthsAdjoin | index.js:549-552 | Month `m + 1` begins the day after month `m` ends, so month lengths agree with the days before each month. |
| Calendar.StartOfDay | index.js:480 | `startOf("day")` gives the midnight at or before `t`, less than a day before it. |
| Calendar.EndOfDay | index.js:481 | `endOf("day")` gives the last millisecond of the day of `t`, one millisecond before the next midnight. |
| Calendar.StartOfWeek | index.js:473 | `startOf("week")` gives a midnight that is a Sunday, at most seven days before `t`. |
| Calendar.EndOfWeek | index.js:474 | `endOf("week")` gives the last millisecond of a Saturday, exactly seven days after the week's start. |
| Calendar.WeekEnd | index.js:473-474 | A week that starts at a Sunday midnight ends at the last millisecond of a Saturday, just before a midnight. |
| Calendar.Weekday | index.js:516 | The weekday index behind `format("ddd")` is 0 (Sunday) to 6 (Saturday). |
| Calendar.WeekdayNext | index.js:516 | 1970-01-01 is a Thursday, and one day later is always the next weekday, with Saturday followed by Sunday. |
| Calendar.StartOfMonth | index.js:551 | `startOf("month")` gives a valid moment; by MonthBounds it is the first millisecond of the month. |
| Calendar.EndOfMonth | index.js:552 | `endOf("month")` gives a valid moment; by MonthBounds it is the last millisecond of the month, DaysInMonth days after its start. |
| Calendar.StartOfYear | index.js:540 | `startOf("year")` gives a valid moment in the year; by YearBounds it is the year's first millisecond. |
| Calendar.EndOfYear | index.js:541 | `endOf("year")` gives a valid moment in the year; by YearBounds it is the year's last millisecond, just before the next year starts. |
| Calendar.ValueOf | index.js:551-552 | `valueOf()`: the epoch milliseconds of a civil moment; MonthBounds and YearBounds state its value at the start and end of each month and year. |
| Calendar.MonthBounds | index.js:551-552 | A moment lies between the first and last millisecond of its month, and the month is DaysInMonth days long. |
| Calendar.AddMonth | index.js:549 | `add(1, "month")` moves to the next month (December to January of the next year), keeps the time of day and clamps the day to the month's length. |
| Calendar.YearBounds | index.js:540-541 | A year is DaysInYear days long and the next year starts one millisecond after it ends. |
| Calendar.YearEndBound | index.js:548 | Every moment of the current year is at or before the end of the year; every moment of the next year is after it. |
| Buckets.PartitionOrdered | index.js:479 | The windows of a partition lie inside the whole window, in ascending order. |
| Buckets.PartitionMembership | index.js:479-523 | Every instant of a partitioned window lies in exactly one piece; instants outside it lie in none. |
| Buckets.PartitionSum | index.js:479-523 | An additive measure summed over the pieces of a partition equals the measure of the whole window. |
| Buckets.WeekWindow | index.js:526-527 | The current week contains `now` and is exactly seven days long. |
| Buckets.WeekDay | index.js:479-481 | Day `k` of the week is a whole calendar day and falls on weekday `k`. |
| Buckets.WeekDays | index.js:479-481 | The week holds seven day windows; WeekDay and WeekDaysPartition state that they are its calendar days in order. |
| Buckets.WeekDaysPartition | index.js:479 | The seven day windows cover the current week without gap or overlap. |
| Buckets.MonthWindow | index.js:599-600 | The window from `startOf("month")` to `endOf("month")`; MonthWindowContains states that it holds `now` and is as long as the month. |
| Buckets.MonthWindowContains | index.js:599-600 | The current month's window contains `now` and is as long as the month. |
| Buckets.YearMonths | index.js:546-552 | The year holds twelve month windows; YearMonthsPartition states that they cover it in order. |
| Buckets.YearWindow | index.js:540-541 | The window from `startOf("year")` to `endOf("year")`; YearMonthsPartition states that the twelve months cover it. |
| Buckets.YearMonthsPartition | index.js:546-553 | The twelve month windows cover the current year without gap or overlap. |
| Activity.Matches | index.js:484-504 | A post matches a count filter when its type is equal, its status (if the filter has one) is exactly equal, and its date lies in the closed range; the meaning of counting with it is in CountExtremes. |
| Activity.CountDocuments | index.js:484-504 | A count never exceeds the number of posts. |
| Activity.CountExtremes | index.js:484-504 | A count is zero exactly when no post matches, and the collection size exactly when every post matches. |
| Activity.CountMonotone | index.js:494-498 | A query that matches fewer posts never counts more. |
| Activity.SuccessAtMostTotal | index.js:484-498 | For each type and window, the status-2 count is at most the total count. |
| Activity.CountSplit | index.js:486 | Splitting a closed date range at any point splits its count into the counts of the two halves. |
| Activity.CountPartition | index.js:479-504 | Counts summed over a partition equal the count over the whole window. |
| Funds.InWindow | index.js:509-510 | Both comparisons of the parsed time against the window's bounds; an unparsed (NaN) time fails them, which UnparsedPaymentIgnored and FundsNoneInWindow turn into zero funds. |
| Funds.FundsIn | index.js:507-513 | The fold specifying a window's funds; its meaning is stated by SumFunds, FundsNoneInWindow, FundsAppend, FundsSplit and FundsPartition. |
| Funds.SumFunds | index.js:507-513 | The forEach fold returns the sum of the prices of the payments whose parsed date lies in the window. |
| Funds.FundsNoneInWindow | index.js:507-513 | With no payment dated inside the window, the funds are zero. |
| Funds.FundsAppend | index.js:508 | The funds of two snapshots laid end to end add up. |
| Funds.UnparsedPaymentIgnored | index.js:509-510 | A payment whose date does not parse (NaN) adds nothing to any window, wherever it lies in the snapshot. |
| Funds.FundsSplit | index.js:510 | Splitting a window at any point splits its funds into those of the two halves. |
| Funds.FundsPartition | index.js:507-513 | Funds summed over a partition equal the funds of the whole window. |
| Stats.Summary | index.js:484-522 | A record keeps its label, and in it each success count is at most the matching total count. |
| Stats.BucketRecord | index.js:480-522 | One loop pass computes exactly the record Summary specifies for the window: four counts and the fund fold. |
| Stats.Records | index.js:479-596 | One record per window, in order, each with its label; RecordsConserve states what the records add up to. |
| Stats.WeekRecords | index.js:515-522 | The week has seven records labelled "Sun" to "Sat" in order. |
| Stats.YearRecords | index.js:586-595 | The year has twelve records labelled "Jan" to "Dec" in order. |
| Stats.DayStep | index.js:479-481 | The day cursor stays in the week for exactly seven steps, and step `n` opens and closes day `n`. |
| Stats.WeeklyRecords | index.js:473-523 | The day loop returns the seven day records of the current week. |
| Stats.MonthCursor | index.js:547-549 | The month cursor is a valid civil moment after every step. |
| Stats.MonthStep | index.js:546-553 | The month cursor stays in the year for exactly twelve steps, and step `n` opens and closes month `n + 1`. |
| Stats.MonthRecord | index.js:552-595 | One pass of the month loop gives the record of month `n + 1` and moves the cursor one month on. |
| Stats.MonthlyRecords | index.js:540-596 | The month loop returns the twelve month records of the current year. |
| Stats.Report | index.js:611-620 | The report holds seven weekly and twelve monthly records. |
| Stats.PostsStats | index.js:469-623 | The handler's result is the Report for the one clock reading. |
| StatsProperties.RecordCountsConserve | index.js:484-504 | A count read off each record of a partition adds up to that count over the whole window. |
| StatsProperties.RecordsConserve | index.js:479-596 | Over a partition, the records' funds and each of their four counts add up to the funds and counts of the whole window. |
| StatsProperties.WeekFundsConservation | index.js:507-536 | The seven day fund totals add up to the week's total funds. |
| StatsProperties.MonthFundsConsistency | index.js:577-609 | The month's total funds equal the totalFunds of the current month's record. |
| StatsProperties.YearFundsConservation | index.js:577-584 | The twelve month fund totals add up to the funds of the whole year. |
| StatsProperties.WeekCountConservation | index.js:484-504 | Each of the four day counts, summed over the week, is that count over the whole week. |
| StatsProperties.YearCountConservation | index.js:555-575 | Each of the four month counts, summed over the year, is that count over the whole year. |
| StatsProperties.UnparsedPaymentNoEffect | index.js:508-513 | Inserting a payment with an unparsable date anywhere leaves the whole report unchanged. |
| StatsProperties.EmptyCollectionsReport | index.js:469-623 | Empty collections give seven and twelve labelled zero records and zero totals. |
| StatsProperties.PostInOneDay | index.js:479-487 | A post dated in the current week is counted in exactly one day; a post dated outside it is counted in none. |
| Filters.Truthy | index.js:630-646 | JavaScript truthiness of a query-string parameter: present and not empty; the key ensures of SearchFilter, MissingFilter and AdoptableFilter state what each builder does with it. |
| Filters.Lower | index.js:641 | `toLowerCase` keeps the length, turns each upper-case ASCII letter into its lower-case letter and changes nothing else. |
| Filters.LowerEqualIffSameUpToCase | index.js:641-644 | Two strings lower-case to the same string exactly when they agree letter by letter up to ASCII case. |
| Filters.Split | index.js:99 | `split(",")` gives at least one piece, and no piece contains the separator. |
| Filters.JoinSplit | index.js:99 | Joining the pieces of a split with the separator gives back the original string. |
| Filters.SplitJoin | index.js:99 | Splitting a join of separator-free pieces gives back the pieces. |
| Filters.AdoptableFilter | index.js:86-104 | The `$and` list starts with the adoption clause; it has three clauses when postStatus is truthy and two otherwise. |
| Filters.AdoptableMeaning | index.js:86-104 | The filter selects exactly the adoption posts whose status is one of the listed strings (when given) and whose animal type equals the parameter (when given). |
| Filters.MissingFilter | index.js:167-175 | The filter has a key for animalType and for postStatus exactly when that parameter is truthy, and no other keys besides postType. |
| Filters.MissingMeaning | index.js:167-175 | The filter selects exactly the lost posts whose animal type and status equal the given parameters. |
| Filters.AgeCondition | index.js:650-656 | Only the age codes "0" and "1" give a condition; "0" admits ages below 5 and "1" admits ages of 5 and more. |
| Filters.SearchFilter | index.js:625-657 | The filter has a key exactly for each truthy parameter, and an age key exactly for the codes "0" and "1". |
| Filters.AnchoredPattern | index.js:632 | The anchored, case-insensitive pattern built from `x` admits exactly the strings equal to `x` up to case. |
| Filters.SearchFields | index.js:625-657 | A document satisfies the search filter exactly when it meets each of the six fields' conditions. |
| Filters.SearchMeaning | index.js:625-657 | The filter selects exactly the documents that match, field by field, what each truthy parameter asks for. |
| Filters.SearchIgnoresCase | index.js:640-645 | A given animalType, and on its own a given gender, that differs from the request's only in case gives the same filter, whatever the other parameters are. |
| Filters.EmptySearch | index.js:628 | A search without parameters has an empty filter and selects every document. |

## Left out

- The clock: the handler calls `moment()` eight times. The model reads the clock once (`now`), so the gap between readings, including a midnight falling between them, is not modelled.
- Time zone and locale: the model uses UTC with fixed 86,400,000 ms days and no daylight saving, and starts the week on Sunday (moment.js's default English locale).
- Express and HTTP: routing, the response, status codes, and the try/catch blocks that answer 500 on a data-access error are not modelled. The stats handler has no try/catch, so a failed read there leaves the request unanswered; that is not modelled either.
- MongoDB I/O: `find`, `countDocuments` and `toArray` are modelled on in-memory snapshots of the collections. Awaiting, concurrency and writes landing between the reads are left out.
- MongoDB query semantics beyond what these filters use: array-valued fields, type coercion and regular expressions in general are not modelled.
- Sort order: the adoptable-posts and missing-posts handlers sort by `postDate` descending. The model describes which documents a filter selects, not their order.
- Funds.Payment: prices are whole numbers. JavaScript floating-point addition and `+=` on a non-number price (string concatenation) are not modelled.
- Date parsing: `new Date(payment.date)` is reduced to its outcome, a time stamp or NaN (`None`). The parser itself is not modelled.
- Filters.AnchoredPattern: the search endpoint puts the raw location and color text into a `$regex` without escaping. The model takes the text between `^` and `$` literally, so metacharacters (`.`, `*`, `(`) and the error an invalid pattern raises are not modelled.
- Filters.Lower: only the ASCII letters are lower-cased; the Unicode case mapping of `toLowerCase` is not modelled.
- Query-string parameters that arrive as arrays (`?color=a&color=b`) are not modelled; every parameter is an absent or a string value.
- Activity.Post: stored post dates and status codes are whole numbers; a fractional date or status (a double in the document store) is not modelled. Document fields read by the search filter are modelled as exact reals, so rounding of doubles is not modelled either.
- Stats.Record: the source names the label key `dayOfWeek` in day records and `monthOfYear` in month records; the model uses one field, `periodLabel`, for both. The JSON key names of the response are not modelled.
- Logging (`console.log`), authentication, Stripe payments and the other routes of `index.js` are not part of this model.
