/**
 * Worked inputs: the five-user table of the report script
 * (`test_english_report.py`) and small daily series for the anomaly checks.
 */
module Scenarios {
  import opened Wrappers
  import opened Columns
  import opened Table
  import opened Funnel
  import opened Anomalies
  import opened Recommendations

  const T0 := 1704067200

  /** A timestamp `halfHours` half-hour steps after midnight, 1 January 2024. */
  function At(halfHours: int): Option<int> { Some(T0 + halfHours * 1800) }

  function ReportFixture(): seq<Row> {
    [ Row(1, At(20), At(21), At(22), At(116), Some("email"), Some("US"), Some("desktop")),
      Row(2, At(22), At(23), None, None, Some("direct"), Some("UK"), Some("mobile")),
      Row(3, At(24), None, None, None, Some("referral"), Some("CA"), Some("tablet")),
      Row(4, At(66), At(67), At(68), None, Some("email"), Some("AU"), Some("desktop")),
      Row(5, At(68), None, None, None, Some("direct"), Some("DE"), Some("mobile")) ]
  }

  lemma Count5(m: seq<bool>, n: nat)
    requires |m| == 5
    requires n == (if m[0] then 1 else 0) + (if m[1] then 1 else 0) + (if m[2] then 1 else 0)
      + (if m[3] then 1 else 0) + (if m[4] then 1 else 0)
    ensures CountTrue(m) == n
  {
    var b := (i: nat) requires i < 5 => if m[i] then 1 else 0;
    assert CountTrue(m[..1]) == b(0) by { assert m[..1][..0] == []; }
    assert CountTrue(m[..2]) == b(0) + b(1) by { assert m[..2][..1] == m[..1]; }
    assert CountTrue(m[..3]) == b(0) + b(1) + b(2) by { assert m[..3][..2] == m[..2]; }
    assert CountTrue(m[..4]) == b(0) + b(1) + b(2) + b(3) by { assert m[..4][..3] == m[..3]; }
    assert m[..5] == m;
  }

  lemma ReportFixtureCounts()
    ensures FunnelMetrics(ReportFixture()).counts == Counts(5, 3, 2, 1)
  {
    var rows := ReportFixture();
    var ds := Prepare(rows);
    assert FunnelMetrics(rows) == MetricsOf(ds);
    var dm := StageMask(ds, Deposit);
    var bm := StageMask(ds, FirstBet);
    var sm := StageMask(ds, SecondDeposit);
    assert dm[0] && dm[1] && !dm[2] && dm[3] && !dm[4];
    assert bm[0] && !bm[1] && !bm[2] && bm[3] && !bm[4];
    assert sm[0] && !sm[1] && !sm[2] && !sm[3] && !sm[4];
    Count5(dm, 3);
    Count5(bm, 2);
    Count5(sm, 1);
  }

  lemma ReportFixtureConversions()
    ensures FunnelMetrics(ReportFixture()).conversions == Conversions(60.0, 200.0 / 3.0, 50.0, 20.0)
  {
    ReportFixtureCounts();
    var m := FunnelMetrics(ReportFixture());
    assert m == MetricsOf(Prepare(ReportFixture()));
    assert m.conversions.regToDeposit == Percent(3, 5);
    assert m.conversions.depositToBet == Percent(2, 3);
    assert m.conversions.betToSecondDeposit == Percent(1, 2);
    assert m.conversions.overallConversion == Percent(1, 5);
  }

  /** On the report table only the deposit-to-bet conversion (66.7%) is below its threshold. */
  lemma ReportFixtureRecommendations()
    ensures ReportRecommendations(ReportFixture()) == [ReviewBettingUx]
  {
    ReportFixtureConversions();
  }

  /** A fall of the conversion from 50% to 10% is a shift of 80% at the default threshold. */
  lemma ConversionFallReported()
    ensures AnomaliesOf([DayStat(19723, 10, 5, 50.0), DayStat(19724, 10, 1, 10.0)], DefaultThreshold)
         == [ConversionShift(19724, true, 80.0)]
  {
    var series := [DayStat(19723, 10, 5, 50.0), DayStat(19724, 10, 1, 10.0)];
    assert Change(50.0, 10.0) == -0.8;
    assert IsShift(series, DefaultThreshold, 1);
    assert Shifts(series, DefaultThreshold, 1) == [];
    assert ShiftAt(series, DefaultThreshold, 1) == ConversionShift(19724, true, 80.0);
  }

  /** A rise from a day without deposits is never reported: there is no change to measure. */
  lemma RiseFromZeroNotReported()
    ensures AnomaliesOf([DayStat(19723, 10, 0, 0.0), DayStat(19724, 10, 5, 50.0)], DefaultThreshold) == []
  {
    var series := [DayStat(19723, 10, 0, 0.0), DayStat(19724, 10, 5, 50.0)];
    assert Shifts(series, DefaultThreshold, 1) == [];
  }

  /**
   * Seven days of 10, 10, 10, 10, 10, 10 and 1 registrations: the mean is
   * 61/7 and the sample variance 81/7, so only the last day lies more than
   * two standard deviations below the mean.
   */
  lemma LastDayLowVolume()
    ensures AnomaliesOf(
      [DayStat(0, 10, 0, 0.0), DayStat(1, 10, 0, 0.0), DayStat(2, 10, 0, 0.0), DayStat(3, 10, 0, 0.0),
       DayStat(4, 10, 0, 0.0), DayStat(5, 10, 0, 0.0), DayStat(6, 1, 0, 0.0)], DefaultThreshold)
      == [LowRegistrations(6, 1)]
  {
    var series :=
      [DayStat(0, 10, 0, 0.0), DayStat(1, 10, 0, 0.0), DayStat(2, 10, 0, 0.0), DayStat(3, 10, 0, 0.0),
       DayStat(4, 10, 0, 0.0), DayStat(5, 10, 0, 0.0), DayStat(6, 1, 0, 0.0)];
    SteadyConversionNoShift(series, DefaultThreshold, |series|);
    var mean := 61.0 / 7.0;
    // each day of 10 deviates by 9/7 from the mean, the last day by -54/7
    assert SumRegistrations(series[..0]) == 0.0 && SquaredDeviations(series[..0], mean) == 0.0;
    assert series[..1][..0] == series[..0];
    assert SumRegistrations(series[..1]) == 10.0 && SquaredDeviations(series[..1], mean) == 81.0 / 49.0;
    assert series[..2][..1] == series[..1];
    assert SumRegistrations(series[..2]) == 20.0 && SquaredDeviations(series[..2], mean) == 162.0 / 49.0;
    assert series[..3][..2] == series[..2];
    assert SumRegistrations(series[..3]) == 30.0 && SquaredDeviations(series[..3], mean) == 243.0 / 49.0;
    assert series[..4][..3] == series[..3];
    assert SumRegistrations(series[..4]) == 40.0 && SquaredDeviations(series[..4], mean) == 324.0 / 49.0;
    assert series[..5][..4] == series[..4];
    assert SumRegistrations(series[..5]) == 50.0 && SquaredDeviations(series[..5], mean) == 405.0 / 49.0;
    assert series[..6][..5] == series[..5];
    assert SumRegistrations(series[..6]) == 60.0 && SquaredDeviations(series[..6], mean) == 486.0 / 49.0;
    assert series[..7][..6] == series[..6];
    assert SumRegistrations(series[..7]) == 61.0 && SquaredDeviations(series[..7], mean) == 3402.0 / 49.0;
    assert series[..7] == series;
    assert MeanRegistrations(series) == mean;
    assert SampleVariance(series) == 81.0 / 7.0;
  }
}
