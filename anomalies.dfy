/**
 * Anomaly detection (`detect_anomalies`). The users are grouped by calendar
 * day of registration, in ascending date order, and each day gets its
 * registrations, deposits and registration-to-deposit conversion. Two
 * checks then run over that daily series:
 *
 *  - a conversion shift on day `i` when the previous day's conversion is
 *    positive and the relative change from it exceeds the threshold;
 *  - with at least seven days, a low registration volume on every day whose
 *    registrations lie more than two sample standard deviations below the
 *    mean.
 *
 * The reports are strings in the source; here they are `Anomaly` values
 * carrying what the strings print.
 */
module Anomalies {
  import opened Wrappers
  import opened Columns
  import opened Table
  import opened Funnel
  import opened Daily
  import opened Frames

  /** One line of the daily series the checks run on. */
  datatype DayStat = DayStat(date: int, registrations: nat, deposits: nat, convRate: real)

  /** What a report says: the day, and whether the conversion fell or rose and by how many percent, or the low count. */
  datatype Anomaly =
    | ConversionShift(date: int, fell: bool, changePercent: real)
    | LowRegistrations(date: int, registrations: nat)

  /** The default relative change that counts as a shift. */
  const DefaultThreshold: real := 0.5

  /** Fewest days on which the volume check runs. */
  const MinVolumeDays := 7

  /** The line of one day: registrations, deposits, and the deposit conversion in percent. */
  function DayStatFor(rows: seq<Row>, day: int): (st: DayStat)
    ensures st.date == day
    ensures st.registrations == CountTrue(EqMask(DayColumn(rows), day))
    ensures st.deposits <= st.registrations
    ensures st.convRate == Percent(st.deposits, st.registrations)
  {
    var users := DayUsers(rows, day);
    var deposits := CountTrue(ReachedMask(users, Deposit));
    DayStat(day, |users|, deposits, Percent(deposits, |users|))
  }

  /** The lines of `days`, in that order. */
  function Series(rows: seq<Row>, days: seq<int>): (series: seq<DayStat>)
    ensures |series| == |days|
    ensures forall i :: 0 <= i < |days| ==> series[i] == DayStatFor(rows, days[i])
    ensures forall i :: 0 <= i < |days| ==>
      series[i].date == days[i] && series[i].registrations == CountTrue(EqMask(DayColumn(rows), days[i]))
  {
    seq(|days|, i requires 0 <= i < |days| => DayStatFor(rows, days[i]))
  }

  /** The daily series over the registration days present, ascending. */
  function DailySeries(rows: seq<Row>): seq<DayStat> {
    Series(rows, DatedDays(rows))
  }

  function Abs(x: real): real {
    if x < 0.0 then -x else x
  }

  /** Relative change from `prev` to `cur`. */
  function Change(prev: real, cur: real): real
    requires prev > 0.0
  {
    (cur - prev) / prev
  }

  /** Day `i` is a conversion shift. */
  predicate IsShift(series: seq<DayStat>, threshold: real, i: nat)
    requires 1 <= i < |series|
  {
    series[i - 1].convRate > 0.0 && Abs(Change(series[i - 1].convRate, series[i].convRate)) > threshold
  }

  /** The report of a conversion shift on day `i`. */
  function ShiftAt(series: seq<DayStat>, threshold: real, i: nat): (a: Anomaly)
    requires 1 <= i < |series| && IsShift(series, threshold, i)
    ensures a.ConversionShift? && a.date == series[i].date
    ensures a.fell <==> series[i].convRate < series[i - 1].convRate
    ensures a.changePercent > threshold * 100.0
    ensures a.changePercent * series[i - 1].convRate == Abs(series[i].convRate - series[i - 1].convRate) * 100.0
  {
    var prev := series[i - 1].convRate;
    var change := Change(prev, series[i].convRate);
    FallIffNegativeChange(prev, series[i].convRate);
    ChangeMagnitude(prev, series[i].convRate);
    ConversionShift(series[i].date, change < 0.0, Abs(change) * 100.0)
  }

  /** The percentage printed is the size of the move as a share of the previous rate. */
  lemma ChangeMagnitude(prev: real, cur: real)
    requires prev > 0.0
    ensures Abs(Change(prev, cur)) * 100.0 * prev == Abs(cur - prev) * 100.0
  {
    var c := Change(prev, cur);
    assert c * prev == cur - prev;
    if c < 0.0 {
      assert cur - prev < 0.0;
      assert Abs(c) * prev == -(cur - prev);
    } else {
      assert cur - prev >= 0.0;
    }
  }

  lemma FallIffNegativeChange(prev: real, cur: real)
    requires prev > 0.0
    ensures Change(prev, cur) < 0.0 <==> cur < prev
  {
    if cur < prev {
      assert (cur - prev) / prev < 0.0;
    } else {
      assert (cur - prev) / prev >= 0.0;
    }
  }

  /** The shift reports of days `1 .. n-1`, in day order. */
  function Shifts(series: seq<DayStat>, threshold: real, n: nat): seq<Anomaly>
    requires n <= |series|
  {
    if n <= 1 then []
    else
      var earlier := Shifts(series, threshold, n - 1);
      if IsShift(series, threshold, n - 1) then earlier + [ShiftAt(series, threshold, n - 1)] else earlier
  }

  function SumRegistrations(series: seq<DayStat>): real {
    if |series| == 0 then 0.0
    else SumRegistrations(series[..|series| - 1]) + series[|series| - 1].registrations as real
  }

  /** `daily_df['registrations'].mean()`. */
  function MeanRegistrations(series: seq<DayStat>): real
    requires |series| > 0
  {
    SumRegistrations(series) / |series| as real
  }

  function SquaredDeviations(series: seq<DayStat>, mean: real): real {
    if |series| == 0 then 0.0
    else
      var dev := series[|series| - 1].registrations as real - mean;
      SquaredDeviations(series[..|series| - 1], mean) + dev * dev
  }

  /** The square of `daily_df['registrations'].std()`: the sample variance (divisor `n - 1`). */
  function SampleVariance(series: seq<DayStat>): real
    requires |series| >= 2
  {
    SquaredDeviations(series, MeanRegistrations(series)) / (|series| - 1) as real
  }

  /**
   * `x < mean - 2 * std` with `std * std == variance`, compared without the
   * square root (`TwoSigmaTest` shows the two agree).
   */
  predicate BelowTwoSigma(x: real, mean: real, variance: real) {
    mean - x > 0.0 && (mean - x) * (mean - x) > 4.0 * variance
  }

  /** Day `i` has anomalously few registrations. */
  predicate IsLow(series: seq<DayStat>, mean: real, variance: real, i: nat)
    requires i < |series|
  {
    BelowTwoSigma(series[i].registrations as real, mean, variance)
  }

  /** The volume reports of days `0 .. n-1`, in day order. */
  function Volumes(series: seq<DayStat>, mean: real, variance: real, n: nat): seq<Anomaly>
    requires n <= |series|
  {
    if n == 0 then []
    else
      var earlier := Volumes(series, mean, variance, n - 1);
      if IsLow(series, mean, variance, n - 1)
      then earlier + [LowRegistrations(series[n - 1].date, series[n - 1].registrations)]
      else earlier
  }

  /** All reports for a daily series: none with fewer than two days, else shifts, then volumes. */
  function AnomaliesOf(series: seq<DayStat>, threshold: real): seq<Anomaly> {
    if |series| < 2 then []
    else
      Shifts(series, threshold, |series|)
      + (if |series| >= MinVolumeDays
         then Volumes(series, MeanRegistrations(series), SampleVariance(series), |series|)
         else [])
  }

  /** `detect_anomalies(df, threshold)` as a function of the raw table. */
  function AnomaliesFor(rows: seq<Row>, threshold: real): seq<Anomaly> {
    AnomaliesOf(DailySeries(rows), threshold)
  }

  /**
   * `detect_anomalies(df, threshold)`: adds `reg_date` to the caller's frame,
   * builds the daily series and runs both checks.
   */
  method DetectAnomalies(df: Frame, threshold: real) returns (anomalies: seq<Anomaly>)
    requires df.Valid()
    modifies df
    ensures df.Valid() && df.regDate == Some(DayColumn(df.rows))
    ensures df.prepared == old(df.prepared) && df.regMonth == old(df.regMonth) && df.depositMonth == old(df.depositMonth)
    ensures anomalies == AnomaliesFor(df.rows, threshold)
  {
    var rows := df.rows;
    var col := DayColumn(rows);
    df.regDate := Some(col);
    var days := Sort(Somes(Unique(col)));
    var series := DailyStats(rows, col, days);
    anomalies := SeriesReports(series, threshold);
  }

  /** Both checks of `detect_anomalies` over the daily series. */
  method SeriesReports(series: seq<DayStat>, threshold: real) returns (anomalies: seq<Anomaly>)
    ensures anomalies == AnomaliesOf(series, threshold)
  {
    anomalies := [];
    if |series| < 2 {
      return;
    }
    anomalies := ShiftReports(series, threshold);
    if |series| >= MinVolumeDays {
      var low := VolumeReports(series);
      anomalies := anomalies + low;
    }
  }

  /** The loop of `detect_anomalies` over the sorted registration days. */
  method DailyStats(rows: seq<Row>, col: seq<Option<int>>, days: seq<int>) returns (series: seq<DayStat>)
    requires col == DayColumn(rows)
    ensures series == Series(rows, days)
  {
    series := [];
    for i := 0 to |days|
      invariant series == Series(rows, days[..i])
    {
      var dayUsers := Where(rows, col, days[i]);
      var registrations := |dayUsers|;
      var deposits := CountTrue(ReachedMask(dayUsers, Deposit));
      var convRate := Percent(deposits, registrations);
      SeriesSnoc(rows, days[..i], days[i]);
      assert days[..i + 1] == days[..i] + [days[i]];
      series := series + [DayStat(days[i], registrations, deposits, convRate)];
    }
    assert days[..|days|] == days;
  }

  /** The conversion check of `detect_anomalies`, over a daily series of at least two days. */
  method ShiftReports(series: seq<DayStat>, threshold: real) returns (reports: seq<Anomaly>)
    requires |series| >= 2
    ensures reports == Shifts(series, threshold, |series|)
  {
    reports := [];
    for i := 1 to |series|
      invariant reports == Shifts(series, threshold, i)
    {
      var current := series[i].convRate;
      var prev := series[i - 1].convRate;
      if prev > 0.0 {
        var change := Change(prev, current);
        if Abs(change) > threshold {
          reports := reports + [ConversionShift(series[i].date, change < 0.0, Abs(change) * 100.0)];
        }
      }
    }
  }

  /** The volume check of `detect_anomalies`, over a daily series of at least seven days. */
  method VolumeReports(series: seq<DayStat>) returns (reports: seq<Anomaly>)
    requires |series| >= MinVolumeDays
    ensures reports == Volumes(series, MeanRegistrations(series), SampleVariance(series), |series|)
  {
    var mean := MeanRegistrations(series);
    var variance := SampleVariance(series);
    reports := [];
    for j := 0 to |series|
      invariant reports == Volumes(series, mean, variance, j)
    {
      if BelowTwoSigma(series[j].registrations as real, mean, variance) {
        reports := reports + [LowRegistrations(series[j].date, series[j].registrations)];
      }
    }
  }

  lemma SeriesSnoc(rows: seq<Row>, days: seq<int>, day: int)
    ensures Series(rows, days + [day]) == Series(rows, days) + [DayStatFor(rows, day)]
  {
    var a := Series(rows, days + [day]);
    var init := Series(rows, days);
    forall i | 0 <= i < |days|
      ensures a[..|days|][i] == init[i]
    {
      assert (days + [day])[i] == days[i];
    }
    assert a == a[..|days|] + [a[|days|]];
  }


  // ---------------------------------------------------------------------
  // Properties

  /** The shift reports are exactly the reports of the shift days before `n`. */
  lemma {:induction false} ShiftsExactly(series: seq<DayStat>, threshold: real, n: nat)
    requires n <= |series|
    ensures forall a :: a in Shifts(series, threshold, n) <==>
      exists i :: 1 <= i < n && IsShift(series, threshold, i) && a == ShiftAt(series, threshold, i)
  {
    if n > 1 {
      ShiftsExactly(series, threshold, n - 1);
    }
  }

  /** The volume reports are exactly the reports of the low days before `n`. */
  lemma {:induction false} VolumesExactly(series: seq<DayStat>, mean: real, variance: real, n: nat)
    requires n <= |series|
    ensures forall a :: a in Volumes(series, mean, variance, n) <==>
      exists i :: 0 <= i < n && IsLow(series, mean, variance, i)
                 && a == LowRegistrations(series[i].date, series[i].registrations)
  {
    if n > 0 {
      VolumesExactly(series, mean, variance, n - 1);
    }
  }

  predicate DatesIncrease(series: seq<DayStat>) {
    forall j, k :: 0 <= j < k < |series| ==> series[j].date < series[k].date
  }

  /** On a series of increasing dates the shift reports are in strictly increasing date order. */
  lemma {:induction false} ShiftsOrdered(series: seq<DayStat>, threshold: real, n: nat)
    requires n <= |series| && DatesIncrease(series)
    ensures forall j :: 0 <= j < |Shifts(series, threshold, n)| ==>
      Shifts(series, threshold, n)[j].ConversionShift? && Shifts(series, threshold, n)[j].date <= series[n - 1].date
    ensures forall j, k :: 0 <= j < k < |Shifts(series, threshold, n)| ==>
      Shifts(series, threshold, n)[j].date < Shifts(series, threshold, n)[k].date
  {
    if n > 1 {
      ShiftsOrdered(series, threshold, n - 1);
    }
  }

  /** On a series of increasing dates the volume reports are in strictly increasing date order. */
  lemma {:induction false} VolumesOrdered(series: seq<DayStat>, mean: real, variance: real, n: nat)
    requires n <= |series| && DatesIncrease(series)
    ensures forall j :: 0 <= j < |Volumes(series, mean, variance, n)| ==>
      Volumes(series, mean, variance, n)[j].LowRegistrations? && Volumes(series, mean, variance, n)[j].date <= series[n - 1].date
    ensures forall j, k :: 0 <= j < k < |Volumes(series, mean, variance, n)| ==>
      Volumes(series, mean, variance, n)[j].date < Volumes(series, mean, variance, n)[k].date
  {
    if n > 0 {
      VolumesOrdered(series, mean, variance, n - 1);
    }
  }

  /**
   * All conversion reports come before all volume reports, and within each
   * kind the reports are in increasing date order.
   */
  lemma ReportOrder(series: seq<DayStat>, threshold: real)
    requires DatesIncrease(series)
    ensures var r := AnomaliesOf(series, threshold);
      forall j, k :: 0 <= j < k < |r| ==>
        && (r[k].ConversionShift? ==> r[j].ConversionShift?)
        && (r[j].ConversionShift? == r[k].ConversionShift? ==> r[j].date < r[k].date)
  {
    if |series| >= 2 {
      ShiftsOrdered(series, threshold, |series|);
      if |series| >= MinVolumeDays {
        VolumesOrdered(series, MeanRegistrations(series), SampleVariance(series), |series|);
      }
    }
  }

  /** On a series of distinct days, a day is reported as a conversion shift exactly when it is one. */
  lemma ShiftReported(series: seq<DayStat>, threshold: real, i: nat)
    requires DatesIncrease(series)
    requires 1 <= i < |series|
    ensures (exists a :: a in AnomaliesOf(series, threshold) && a.ConversionShift? && a.date == series[i].date)
        <==> IsShift(series, threshold, i)
  {
    var shifts := Shifts(series, threshold, |series|);
    ShiftsExactly(series, threshold, |series|);
    if |series| >= MinVolumeDays {
      VolumesExactly(series, MeanRegistrations(series), SampleVariance(series), |series|);
    }
    if IsShift(series, threshold, i) {
      assert ShiftAt(series, threshold, i) in shifts;
    }
  }

  /**
   * On a series of at least seven distinct days, a day is reported for low
   * volume exactly when its registrations are more than two sample
   * standard deviations below the mean.
   */
  lemma LowVolumeReported(series: seq<DayStat>, threshold: real, i: nat)
    requires DatesIncrease(series)
    requires |series| >= MinVolumeDays && i < |series|
    ensures (exists a :: a in AnomaliesOf(series, threshold) && a.LowRegistrations? && a.date == series[i].date)
        <==> IsLow(series, MeanRegistrations(series), SampleVariance(series), i)
  {
    var mean := MeanRegistrations(series);
    var variance := SampleVariance(series);
    ShiftsExactly(series, threshold, |series|);
    VolumesExactly(series, mean, variance, |series|);
    if IsLow(series, mean, variance, i) {
      assert LowRegistrations(series[i].date, series[i].registrations) in Volumes(series, mean, variance, |series|);
    }
  }

  /** With fewer than seven days no volume report is made. */
  lemma NoVolumeCheckOnShortSeries(series: seq<DayStat>, threshold: real)
    requires |series| < MinVolumeDays
    ensures forall a :: a in AnomaliesOf(series, threshold) ==> a.ConversionShift?
  {
    if |series| >= 2 {
      ShiftsExactly(series, threshold, |series|);
    }
  }

  /** Comparing squares is the source's `x < mean - 2 * std` for the standard deviation `std`. */
  lemma TwoSigmaTest(x: real, mean: real, std: real)
    requires std >= 0.0
    ensures x < mean - 2.0 * std <==> BelowTwoSigma(x, mean, std * std)
  {
    var d := mean - x;
    var t := 2.0 * std;
    assert t * t == 4.0 * (std * std);
    if d > t {
      SquareMonotone(t, d);
    } else if d > 0.0 {
      SquareMonotone(d, t);
    }
  }

  lemma SquareMonotone(a: real, b: real)
    requires 0.0 <= a <= b
    ensures a * a <= b * b
    ensures a < b ==> a * a < b * b
  {
    var g := b - a;
    assert b * b - a * a == g * (a + b);
    assert g * (a + b) >= 0.0;
    if a < b {
      assert g * (a + b) > 0.0;
    }
  }

  lemma {:induction false} SumOfConstant(series: seq<DayStat>, c: nat)
    requires forall i :: 0 <= i < |series| ==> series[i].registrations == c
    ensures SumRegistrations(series) == |series| as real * c as real
  {
    if |series| > 0 {
      SumOfConstant(series[..|series| - 1], c);
    }
  }

  /** Equal registrations on every day are never reported as low. */
  lemma SteadyVolumeNeverLow(series: seq<DayStat>, c: nat)
    requires |series| >= MinVolumeDays
    requires forall i :: 0 <= i < |series| ==> series[i].registrations == c
    ensures Volumes(series, MeanRegistrations(series), SampleVariance(series), |series|) == []
  {
    SumOfConstant(series, c);
    var mean := MeanRegistrations(series);
    assert mean == c as real;
    NothingLowNoVolumes(series, mean, SampleVariance(series), |series|);
  }

  lemma {:induction false} NothingLowNoVolumes(series: seq<DayStat>, mean: real, variance: real, n: nat)
    requires n <= |series|
    requires forall i :: 0 <= i < n ==> !IsLow(series, mean, variance, i)
    ensures Volumes(series, mean, variance, n) == []
  {
    if n > 0 {
      NothingLowNoVolumes(series, mean, variance, n - 1);
    }
  }

  /** Equal conversions on every day are never reported as a shift (for a non-negative threshold). */
  lemma SteadyConversionNoShift(series: seq<DayStat>, threshold: real, n: nat)
    requires threshold >= 0.0 && n <= |series|
    requires forall i :: 0 <= i < |series| ==> series[i].convRate == series[0].convRate
    ensures Shifts(series, threshold, n) == []
  {
    if n > 1 {
      SteadyConversionNoShift(series, threshold, n - 1);
      if series[n - 2].convRate > 0.0 {
        assert Change(series[n - 2].convRate, series[n - 1].convRate) == 0.0;
      }
    }
  }

  // ---------------------------------------------------------------------
  // The daily series and the daily table

  /** The daily series runs over the registration days present, in strictly increasing order. */
  lemma DailySeriesDates(rows: seq<Row>)
    ensures DatesIncrease(DailySeries(rows))
    ensures forall i :: 0 <= i < |DailySeries(rows)| ==> Some(DailySeries(rows)[i].date) in DayColumn(rows)
  {
    var days := DatedDays(rows);
    assert forall i :: 0 <= i < |days| ==> days[i] in days;
  }

  /**
   * The daily series of the anomaly check and the daily table agree line by
   * line: same days, same registrations and deposits, and the series'
   * conversion is the table's registration-to-deposit conversion.
   */
  lemma SeriesMatchesDailyTable(rows: seq<Row>)
    ensures |DailySeries(rows)| == |DailyMetrics(rows)|
    ensures forall i :: 0 <= i < |DailySeries(rows)| ==>
      var s := DailySeries(rows)[i];
      var t := DailyMetrics(rows)[i];
      s.date == t.date && s.registrations == t.registrations && s.deposits == t.deposits && s.convRate == t.regToDepositConv
  {
    DailyTableByDate(rows);
    var days := DatedDays(rows);
    forall i | 0 <= i < |days|
      ensures CountTrue(ReachedMask(DayUsers(rows, days[i]), Deposit))
           == CountTrue(StageMask(Prepare(DayUsers(rows, days[i])), Deposit))
    {
      StageMaskIsReachedMask(DayUsers(rows, days[i]), Deposit);
    }
  }
}
