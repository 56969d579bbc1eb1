/**
 * Daily metrics (`FunnelAnalyzer.calculate_daily_metrics`): the users are
 * grouped by calendar day of registration, each day gets the funnel's
 * counts and conversions restricted to its users, and the lines are sorted
 * by date.
 *
 * As written, the sort is applied to a frame built from the collected
 * lines; when no user has a registration date that frame has no `date`
 * column and the sort fails (`DailyMetricsAsWritten`). The rest of the
 * model uses `DailyMetrics`, which returns the empty table instead.
 */
module Daily {
  import opened Wrappers
  import opened Columns
  import opened Table
  import opened Funnel

  /** One line of the daily table. */
  datatype DailyRow = DailyRow(
    date: int,
    registrations: nat,
    deposits: nat,
    regToDepositConv: real,
    overallConv: real)

  /** The failure of `sort_values('date')` on a frame without a `date` column. */
  datatype DailyError = MissingDateColumn

  /** The users registered on `day`: `df[df['reg_date'] == date]`. */
  function DayUsers(rows: seq<Row>, day: int): seq<Row> {
    Where(rows, DayColumn(rows), day)
  }

  /** The line of one day, from the funnel metrics of its users. */
  function DailyRowFor(rows: seq<Row>, day: int): (r: DailyRow)
    ensures r.date == day
    ensures r.registrations == CountTrue(EqMask(DayColumn(rows), day))
    ensures r.deposits <= r.registrations
    ensures r.regToDepositConv == Percent(r.deposits, r.registrations)
  {
    var m := FunnelMetrics(DayUsers(rows, day));
    DailyRow(
      day,
      m.counts.registrations,
      m.counts.deposits,
      m.conversions.regToDeposit,
      m.conversions.overallConversion)
  }

  /** The lines of `days`, in that order. */
  function DailyRows(rows: seq<Row>, days: seq<int>): (stats: seq<DailyRow>)
    ensures |stats| == |days|
    ensures forall i :: 0 <= i < |days| ==> stats[i] == DailyRowFor(rows, days[i])
    ensures forall i :: 0 <= i < |days| ==>
      stats[i].date == days[i] && stats[i].registrations == CountTrue(EqMask(DayColumn(rows), days[i]))
  {
    Map(DayLineOf(rows), days)
  }

  /** The line of each day, as a function of the day. */
  function DayLineOf(rows: seq<Row>): int -> DailyRow {
    day => DailyRowFor(rows, day)
  }

  /** `df['reg_date'].unique()` with the missing date skipped: days in first-seen order. */
  function SeenDays(rows: seq<Row>): (days: seq<int>)
    ensures Distinct(days)
    ensures forall day :: day in days <==> Some(day) in DayColumn(rows)
  {
    Somes(Unique(DayColumn(rows)))
  }

  /** The registration days present, ascending. */
  function DatedDays(rows: seq<Row>): (days: seq<int>)
    ensures StrictlyAscending(days)
    ensures forall day :: day in days <==> Some(day) in DayColumn(rows)
  {
    var seen := SeenDays(rows);
    SortDistinct(seen);
    assert forall day :: day in Sort(seen) <==> day in multiset(seen);
    Sort(seen)
  }

  function InsertByDate(r: DailyRow, s: seq<DailyRow>): (t: seq<DailyRow>)
    ensures multiset(t) == multiset(s) + multiset{r}
  {
    if |s| == 0 || r.date <= s[0].date then [r] + s
    else
      assert s == [s[0]] + s[1..];
      [s[0]] + InsertByDate(r, s[1..])
  }

  /** `sort_values('date')` on the collected lines (dates are pairwise different there). */
  function SortByDate(s: seq<DailyRow>): (t: seq<DailyRow>)
    ensures multiset(t) == multiset(s)
  {
    if |s| == 0 then []
    else
      assert s == [s[0]] + s[1..];
      InsertByDate(s[0], SortByDate(s[1..]))
  }

  /** The daily table as the code builds it, failing when there is no line to sort. */
  function DailyMetricsAsWritten(rows: seq<Row>): Result<seq<DailyRow>, DailyError> {
    var stats := DailyRows(rows, SeenDays(rows));
    if |stats| == 0 then Failure(MissingDateColumn) else Success(SortByDate(stats))
  }

  /** The daily table, empty when no user has a registration date. */
  function DailyMetrics(rows: seq<Row>): seq<DailyRow> {
    SortByDate(DailyRows(rows, SeenDays(rows)))
  }

  /** Total registrations over the lines of a daily table. */
  function TotalRegistrations(stats: seq<DailyRow>): nat {
    if |stats| == 0 then 0 else TotalRegistrations(stats[..|stats| - 1]) + stats[|stats| - 1].registrations
  }

  // ---------------------------------------------------------------------
  // Sorting the lines is sorting the days

  /** Inserting the line of a day by date is inserting the day, for any per-day lines dated by their day. */
  lemma {:induction false} InsertCommutes(f: int -> DailyRow, x: int, days: seq<int>)
    requires forall d :: f(d).date == d
    requires Ascending(days)
    ensures InsertByDate(f(x), Map(f, days)) == Map(f, Insert(x, days))
  {
    var lines := Map(f, days);
    if |days| > 0 && x > days[0] {
      var tail := days[1..];
      assert Ascending(tail);
      InsertCommutes(f, x, tail);
      assert lines[0].date == days[0];
      assert lines[1..] == Map(f, tail);
      assert InsertByDate(f(x), lines) == [lines[0]] + Map(f, Insert(x, tail));
      assert Insert(x, days) == [days[0]] + Insert(x, tail);
      MapCons(f, days[0], Insert(x, tail));
    } else {
      assert InsertByDate(f(x), lines) == [f(x)] + lines;
      assert Insert(x, days) == [x] + days;
      MapCons(f, x, days);
    }
  }

  /** Sorting the lines by date gives the lines of the sorted days. */
  lemma {:induction false} SortCommutes(f: int -> DailyRow, days: seq<int>)
    requires forall d :: f(d).date == d
    ensures SortByDate(Map(f, days)) == Map(f, Sort(days))
  {
    if |days| > 0 {
      var tail := days[1..];
      SortCommutes(f, tail);
      assert Map(f, days)[1..] == Map(f, tail);
      InsertCommutes(f, days[0], Sort(tail));
    }
  }

  // ---------------------------------------------------------------------
  // Properties

  /** The daily table holds the lines of the registration days present, in ascending date order. */
  lemma DailyTableByDate(rows: seq<Row>)
    ensures DailyMetrics(rows) == DailyRows(rows, DatedDays(rows))
  {
    DayLinesDated(rows);
    SortCommutes(DayLineOf(rows), SeenDays(rows));
  }

  /** The line of a day carries that day as its date. */
  lemma DayLinesDated(rows: seq<Row>)
    ensures forall d :: DayLineOf(rows)(d).date == d
  {
  }

  /**
   * The daily table has one line per registration day present, in strictly
   * increasing date order.
   */
  lemma DailyDates(rows: seq<Row>)
    ensures forall i, j :: 0 <= i < j < |DailyMetrics(rows)| ==> DailyMetrics(rows)[i].date < DailyMetrics(rows)[j].date
    ensures forall day :: (exists i :: 0 <= i < |DailyMetrics(rows)| && DailyMetrics(rows)[i].date == day)
                      <==> Some(day) in DayColumn(rows)
  {
    DailyTableByDate(rows);
    DayLinesDated(rows);
    DatesFollow(DayLineOf(rows), DatedDays(rows));
  }

  /** Lines dated by their day, over a strictly ascending list of days, are in strictly increasing date order and carry exactly those days. */
  lemma DatesFollow(f: int -> DailyRow, days: seq<int>)
    requires forall d :: f(d).date == d
    requires StrictlyAscending(days)
    ensures forall i, j :: 0 <= i < j < |Map(f, days)| ==> Map(f, days)[i].date < Map(f, days)[j].date
    ensures forall day :: (exists i :: 0 <= i < |Map(f, days)| && Map(f, days)[i].date == day) <==> day in days
  {
    var stats := Map(f, days);
    assert forall i :: 0 <= i < |stats| ==> stats[i].date == days[i];
    forall day | day in days
      ensures exists i :: 0 <= i < |stats| && stats[i].date == day
    {
      var i :| 0 <= i < |days| && days[i] == day;
      assert stats[i].date == day;
    }
  }

  /** Summing registrations over the lines of `days` sums the group sizes of `days`. */
  lemma {:induction false} TotalIsSumCounts(rows: seq<Row>, days: seq<int>)
    ensures TotalRegistrations(DailyRows(rows, days)) == SumCounts(DayColumn(rows), days)
  {
    if |days| > 0 {
      var n := |days| - 1;
      TotalIsSumCounts(rows, days[..n]);
      assert DailyRows(rows, days)[..n] == DailyRows(rows, days[..n]);
    }
  }

  /** Every user with a registration date is counted on exactly one day. */
  lemma DailyRegistrationsAddUp(rows: seq<Row>)
    ensures TotalRegistrations(DailyMetrics(rows)) == CountTrue(NotNa(DayColumn(rows)))
  {
    DailyTableByDate(rows);
    var days := DatedDays(rows);
    TotalIsSumCounts(rows, days);
    Partition(DayColumn(rows), days);
  }

  /** The deposits of a day never exceed its registrations; both conversions are percentages of at most 100. */
  lemma DailyLineBounds(rows: seq<Row>, day: int)
    ensures var line := DailyRowFor(rows, day);
      && line.deposits <= line.registrations
      && 0.0 <= line.regToDepositConv <= 100.0
      && 0.0 <= line.overallConv <= 100.0
  {
  }

  // ---------------------------------------------------------------------
  // The empty daily table

  /** As written, the daily table fails exactly when no user has a registration date. */
  lemma AsWrittenFailsWithoutDates(rows: seq<Row>)
    ensures DailyMetricsAsWritten(rows).Failure? <==> forall i :: 0 <= i < |rows| ==> rows[i].registrationTime.None?
  {
    var col := DayColumn(rows);
    var seen := SeenDays(rows);
    if seen != [] {
      assert seen[0] in seen;
      var i :| 0 <= i < |col| && col[i] == Some(seen[0]);
    }
  }

  /** The empty table is an input on which the code as written fails. */
  lemma AsWrittenFailsOnEmptyTable()
    ensures DailyMetricsAsWritten([]) == Failure(MissingDateColumn)
  {
    AsWrittenFailsWithoutDates([]);
  }

  /**
   * The corrected daily table agrees with the code wherever the code
   * succeeds, and is the empty table exactly where the code fails.
   */
  lemma CorrectedDailyMetrics(rows: seq<Row>)
    ensures DailyMetricsAsWritten(rows).Success? ==> DailyMetricsAsWritten(rows).value == DailyMetrics(rows)
    ensures DailyMetrics(rows) == [] <==> forall i :: 0 <= i < |rows| ==> rows[i].registrationTime.None?
  {
    AsWrittenFailsWithoutDates(rows);
    DailyTableByDate(rows);
  }
}
