/**
 * The funnel metrics calculator (`FunnelAnalyzer.calculate_funnel_metrics`):
 * stage counts, stage-to-stage conversion percentages with the silent-zero
 * rule for an empty denominator, and mean hours between adjacent stages
 * over the rows where both timestamps are present.
 *
 * The calculation runs on a prepared frame: each row gets the flag columns
 * `has_deposit`, `has_first_bet`, `has_second_deposit` and the duration
 * columns `time_reg_to_deposit`, `time_deposit_to_bet`,
 * `time_bet_to_second_deposit` (`Derived`), and the metrics are read off
 * those columns (`MetricsOf`).
 */
module Funnel {
  import opened Wrappers
  import opened Columns
  import opened Table

  /** The stages counted by presence of their timestamp (registration is every row). */
  datatype Stage = Deposit | FirstBet | SecondDeposit

  /** The adjacent stage pairs whose elapsed time is averaged. */
  datatype Leg = RegToDeposit | DepositToBet | BetToSecondDeposit

  function StageTime(r: Row, s: Stage): Option<int> {
    match s
    case Deposit => r.depositTime
    case FirstBet => r.firstBetTime
    case SecondDeposit => r.secondDepositTime
  }

  predicate Reached(r: Row, s: Stage) {
    StageTime(r, s).Some?
  }

  /** Timestamp at which a leg starts. */
  function LegStart(r: Row, l: Leg): Option<int> {
    match l
    case RegToDeposit => r.registrationTime
    case DepositToBet => r.depositTime
    case BetToSecondDeposit => r.firstBetTime
  }

  /** Timestamp at which a leg ends. */
  function LegEnd(r: Row, l: Leg): Option<int> {
    match l
    case RegToDeposit => r.depositTime
    case DepositToBet => r.firstBetTime
    case BetToSecondDeposit => r.secondDepositTime
  }

  /** `(later - earlier).dt.total_seconds() / 3600`; missing if either side is. */
  function Hours(earlier: Option<int>, later: Option<int>): (h: Option<real>)
    ensures h.Some? <==> earlier.Some? && later.Some?
    ensures h.Some? ==> h.value * 3600.0 == (later.value - earlier.value) as real
  {
    if earlier.Some? && later.Some? then Some((later.value - earlier.value) as real / 3600.0)
    else None
  }

  /** The columns that preparing a frame adds to one row. */
  datatype Derived = Derived(
    hasDeposit: bool,
    hasFirstBet: bool,
    hasSecondDeposit: bool,
    timeRegToDeposit: Option<real>,
    timeDepositToBet: Option<real>,
    timeBetToSecondDeposit: Option<real>)

  function Has(d: Derived, s: Stage): bool {
    match s
    case Deposit => d.hasDeposit
    case FirstBet => d.hasFirstBet
    case SecondDeposit => d.hasSecondDeposit
  }

  function LegTime(d: Derived, l: Leg): Option<real> {
    match l
    case RegToDeposit => d.timeRegToDeposit
    case DepositToBet => d.timeDepositToBet
    case BetToSecondDeposit => d.timeBetToSecondDeposit
  }

  function Derive(r: Row): (d: Derived)
    ensures forall s :: Has(d, s) <==> Reached(r, s)
    ensures forall l :: LegTime(d, l) == Hours(LegStart(r, l), LegEnd(r, l))
  {
    Derived(
      r.depositTime.Some?,
      r.firstBetTime.Some?,
      r.secondDepositTime.Some?,
      Hours(r.registrationTime, r.depositTime),
      Hours(r.depositTime, r.firstBetTime),
      Hours(r.firstBetTime, r.secondDepositTime))
  }

  /** The prepared frame: flags say which stages a row reached, durations span each leg. */
  function Prepare(rows: seq<Row>): (ds: seq<Derived>)
    ensures |ds| == |rows|
    ensures forall i, s :: 0 <= i < |rows| ==> (Has(ds[i], s) <==> Reached(rows[i], s))
    ensures forall i, l :: 0 <= i < |rows| ==> LegTime(ds[i], l) == Hours(LegStart(rows[i], l), LegEnd(rows[i], l))
  {
    seq(|rows|, i requires 0 <= i < |rows| => Derive(rows[i]))
  }

  /** The flag column of a stage. */
  function StageMask(ds: seq<Derived>, s: Stage): (mask: seq<bool>)
    ensures |mask| == |ds|
    ensures forall i :: 0 <= i < |ds| ==> mask[i] == Has(ds[i], s)
  {
    seq(|ds|, i requires 0 <= i < |ds| => Has(ds[i], s))
  }

  /** The duration column of a leg. */
  function LegColumn(ds: seq<Derived>, l: Leg): (col: seq<Option<real>>)
    ensures |col| == |ds|
    ensures forall i :: 0 <= i < |ds| ==> col[i] == LegTime(ds[i], l)
  {
    seq(|ds|, i requires 0 <= i < |ds| => LegTime(ds[i], l))
  }

  /** Sum of the present entries of a column. */
  function SumPresent(col: seq<Option<real>>): real {
    if |col| == 0 then 0.0
    else
      var n := |col| - 1;
      SumPresent(col[..n]) + (if col[n].Some? then col[n].value else 0.0)
  }

  /** `Series.mean()`: missing entries are skipped; no entries left gives NaN (`None`). */
  function Mean(col: seq<Option<real>>): (m: Option<real>)
    ensures m.None? <==> forall i :: 0 <= i < |col| ==> col[i].None?
  {
    var n := CountTrue(NotNa(col));
    CountTrueZero(NotNa(col));
    if n == 0 then None else Some(SumPresent(col) / n as real)
  }

  /** `num / den * 100`, or exactly 0 when the denominator is 0. */
  function Percent(num: nat, den: nat): (p: real)
    ensures den == 0 ==> p == 0.0
    ensures den > 0 ==> p * den as real == num as real * 100.0
    ensures 0.0 <= p
    ensures num <= den ==> p <= 100.0
  {
    if den > 0 then num as real / den as real * 100.0 else 0.0
  }

  datatype Counts = Counts(registrations: nat, deposits: nat, firstBets: nat, secondDeposits: nat)

  datatype Conversions = Conversions(
    regToDeposit: real,
    depositToBet: real,
    betToSecondDeposit: real,
    overallConversion: real)

  /** Mean hours per leg; `None` is pandas' NaN (no row has both timestamps). */
  datatype AvgTimes = AvgTimes(
    regToDeposit: Option<real>,
    depositToBet: Option<real>,
    betToSecondDeposit: Option<real>)

  datatype Metrics = Metrics(counts: Counts, conversions: Conversions, avgTimesHours: AvgTimes)

  function StageCount(c: Counts, s: Stage): nat {
    match s
    case Deposit => c.deposits
    case FirstBet => c.firstBets
    case SecondDeposit => c.secondDeposits
  }

  function AvgHours(a: AvgTimes, l: Leg): Option<real> {
    match l
    case RegToDeposit => a.regToDeposit
    case DepositToBet => a.depositToBet
    case BetToSecondDeposit => a.betToSecondDeposit
  }

  /** The metrics read off a prepared frame. */
  function MetricsOf(ds: seq<Derived>): (m: Metrics)
    ensures m.counts.registrations == |ds|
    ensures m.conversions.regToDeposit == Percent(m.counts.deposits, m.counts.registrations)
    ensures m.conversions.depositToBet == Percent(m.counts.firstBets, m.counts.deposits)
    ensures m.conversions.betToSecondDeposit == Percent(m.counts.secondDeposits, m.counts.firstBets)
    ensures m.conversions.overallConversion == Percent(m.counts.secondDeposits, m.counts.registrations)
    ensures forall s :: StageCount(m.counts, s) <= m.counts.registrations
    ensures 0.0 <= m.conversions.regToDeposit <= 100.0
    ensures 0.0 <= m.conversions.overallConversion <= 100.0
    ensures 0.0 <= m.conversions.depositToBet && 0.0 <= m.conversions.betToSecondDeposit
  {
    var registrations := |ds|;
    var deposits := CountTrue(StageMask(ds, Deposit));
    var firstBets := CountTrue(StageMask(ds, FirstBet));
    var secondDeposits := CountTrue(StageMask(ds, SecondDeposit));
    Metrics(
      Counts(registrations, deposits, firstBets, secondDeposits),
      Conversions(
        Percent(deposits, registrations),
        Percent(firstBets, deposits),
        Percent(secondDeposits, firstBets),
        Percent(secondDeposits, registrations)),
      AvgTimes(
        Mean(LegColumn(ds, RegToDeposit)),
        Mean(LegColumn(ds, DepositToBet)),
        Mean(LegColumn(ds, BetToSecondDeposit))))
  }

  /** `calculate_funnel_metrics(df)`: prepare a copy of the table, then read the metrics. */
  function FunnelMetrics(rows: seq<Row>): (m: Metrics)
    ensures m.counts.registrations == |rows|
    ensures m.conversions.regToDeposit == Percent(m.counts.deposits, m.counts.registrations)
    ensures m.conversions.depositToBet == Percent(m.counts.firstBets, m.counts.deposits)
    ensures m.conversions.betToSecondDeposit == Percent(m.counts.secondDeposits, m.counts.firstBets)
    ensures m.conversions.overallConversion == Percent(m.counts.secondDeposits, m.counts.registrations)
    ensures forall s :: StageCount(m.counts, s) <= m.counts.registrations
    ensures 0.0 <= m.conversions.regToDeposit <= 100.0
    ensures 0.0 <= m.conversions.overallConversion <= 100.0
    ensures 0.0 <= m.conversions.depositToBet && 0.0 <= m.conversions.betToSecondDeposit
  {
    MetricsOf(Prepare(rows))
  }

  // ---------------------------------------------------------------------
  // Counts

  /** Positions of the rows (users) that reached a stage. */
  ghost function ReachedUsers(rows: seq<Row>, s: Stage): set<nat> {
    set i: nat | i < |rows| && Reached(rows[i], s)
  }

  /** Each stage count is the number of users whose timestamp for that stage is present. */
  lemma StageCountIsReachedUsers(rows: seq<Row>, s: Stage)
    ensures StageCount(FunnelMetrics(rows).counts, s) == |ReachedUsers(rows, s)|
  {
    StageCountIsMaskCount(rows, s);
    StageMaskIsReachedMask(rows, s);
    ReachedCount(rows, s);
  }

  /** Counting the `notna()` mask of a stage counts exactly the users who reached it. */
  lemma ReachedCount(rows: seq<Row>, s: Stage)
    ensures CountTrue(ReachedMask(rows, s)) == |ReachedUsers(rows, s)|
  {
    CountTrueIsCardinality(ReachedMask(rows, s));
    ReachedIndices(rows, s);
  }

  lemma ReachedIndices(rows: seq<Row>, s: Stage)
    ensures TrueIndices(ReachedMask(rows, s)) == ReachedUsers(rows, s)
  {
  }

  /** Each stage count is the number of `true` flags in that stage's column. */
  lemma StageCountIsMaskCount(rows: seq<Row>, s: Stage)
    ensures StageCount(FunnelMetrics(rows).counts, s) == CountTrue(StageMask(Prepare(rows), s))
  {
  }

  /** Mask `df[stage_time].notna()` read directly off the raw timestamps. */
  function ReachedMask(rows: seq<Row>, s: Stage): (mask: seq<bool>)
    ensures |mask| == |rows|
    ensures forall i :: 0 <= i < |rows| ==> (mask[i] <==> StageTime(rows[i], s).Some?)
  {
    seq(|rows|, i requires 0 <= i < |rows| => Reached(rows[i], s))
  }

  /** The flag columns of a prepared frame are exactly the raw `notna()` masks. */
  lemma StageMaskIsReachedMask(rows: seq<Row>, s: Stage)
    ensures StageMask(Prepare(rows), s) == ReachedMask(rows, s)
  {
  }

  /** A row whose later stages imply the earlier ones (deposit before bet before second deposit). */
  predicate Nested(r: Row) {
    (r.secondDepositTime.Some? ==> r.firstBetTime.Some?) && (r.firstBetTime.Some? ==> r.depositTime.Some?)
  }

  lemma PercentMonotone(a: nat, b: nat, den: nat)
    requires a <= b
    ensures Percent(a, den) <= Percent(b, den)
  {
    if den > 0 {
      assert a as real / den as real <= b as real / den as real;
    }
  }

  /**
   * When every row's stages are nested, the counts shrink along the funnel,
   * every conversion is a percentage of at most 100, and the overall
   * conversion never exceeds the registration-to-deposit conversion.
   */
  lemma NestedFunnelBounds(rows: seq<Row>)
    requires forall i :: 0 <= i < |rows| ==> Nested(rows[i])
    ensures var c := FunnelMetrics(rows).counts;
      c.secondDeposits <= c.firstBets <= c.deposits <= c.registrations
    ensures var v := FunnelMetrics(rows).conversions;
      && v.depositToBet <= 100.0
      && v.betToSecondDeposit <= 100.0
      && v.overallConversion <= v.regToDeposit
  {
    var ds := Prepare(rows);
    CountTrueMonotone(StageMask(ds, SecondDeposit), StageMask(ds, FirstBet));
    CountTrueMonotone(StageMask(ds, FirstBet), StageMask(ds, Deposit));
    var c := FunnelMetrics(rows).counts;
    PercentMonotone(c.secondDeposits, c.deposits, c.registrations);
  }

  /** An empty table: all counts 0, all conversions 0, no average. */
  lemma EmptyTableMetrics()
    ensures FunnelMetrics([]) == Metrics(
      Counts(0, 0, 0, 0),
      Conversions(0.0, 0.0, 0.0, 0.0),
      AvgTimes(None, None, None))
  {
    var ds := Prepare([]);
    assert LegColumn(ds, RegToDeposit) == [];
    assert LegColumn(ds, DepositToBet) == [];
    assert LegColumn(ds, BetToSecondDeposit) == [];
  }

  // ---------------------------------------------------------------------
  // Average durations

  /** A row contributes to a leg's average exactly when both its timestamps are present. */
  predicate Qualifies(r: Row, l: Leg) {
    LegStart(r, l).Some? && LegEnd(r, l).Some?
  }

  function QualifyingMask(rows: seq<Row>, l: Leg): (mask: seq<bool>)
    ensures |mask| == |rows|
    ensures forall i :: 0 <= i < |rows| ==> mask[i] == Qualifies(rows[i], l)
  {
    seq(|rows|, i requires 0 <= i < |rows| => Qualifies(rows[i], l))
  }

  /** Total seconds spent on a leg by the qualifying rows, negative spans included. */
  function LegSeconds(rows: seq<Row>, l: Leg): int {
    if |rows| == 0 then 0
    else
      var n := |rows| - 1;
      var r := rows[n];
      LegSeconds(rows[..n], l) + (if Qualifies(r, l) then LegEnd(r, l).value - LegStart(r, l).value else 0)
  }

  lemma {:induction false} LegSum(rows: seq<Row>, l: Leg)
    ensures SumPresent(LegColumn(Prepare(rows), l)) == LegSeconds(rows, l) as real / 3600.0
  {
    if |rows| > 0 {
      var n := |rows| - 1;
      var prefix := rows[..n];
      LegSum(prefix, l);
      var col := LegColumn(Prepare(rows), l);
      var h := col[n];
      assert h == Hours(LegStart(rows[n], l), LegEnd(rows[n], l));
      assert col[..n] == LegColumn(Prepare(prefix), l);
    }
  }

  lemma {:induction false} LegCount(rows: seq<Row>, l: Leg)
    ensures CountTrue(NotNa(LegColumn(Prepare(rows), l))) == CountTrue(QualifyingMask(rows, l))
  {
    if |rows| > 0 {
      var n := |rows| - 1;
      var prefix := rows[..n];
      LegCount(prefix, l);
      var col := LegColumn(Prepare(rows), l);
      assert col[..n] == LegColumn(Prepare(prefix), l);
      var mask := NotNa(col);
      assert mask[..n] == NotNa(col[..n]);
      var q := QualifyingMask(rows, l);
      assert q[..n] == QualifyingMask(prefix, l);
    }
  }

  /** An average is NaN exactly when no row has both timestamps of its leg. */
  lemma AverageDefinedIffQualifying(rows: seq<Row>, l: Leg)
    ensures AvgHours(FunnelMetrics(rows).avgTimesHours, l).None?
        <==> forall i :: 0 <= i < |rows| ==> !Qualifies(rows[i], l)
  {
    AvgHoursIsMean(rows, l);
    LegColumnMissing(rows, l);
    var col := LegColumn(Prepare(rows), l);
    assert Mean(col).None? <==> forall i :: 0 <= i < |col| ==> col[i].None?;
  }

  /** A duration is missing exactly on the rows that lack a timestamp of its leg. */
  lemma LegColumnMissing(rows: seq<Row>, l: Leg)
    ensures forall i :: 0 <= i < |rows| ==> (LegColumn(Prepare(rows), l)[i].None? <==> !Qualifies(rows[i], l))
  {
  }

  /**
   * A defined average is the plain mean, in hours, of `later - earlier` over
   * exactly the rows where both timestamps are present, negative spans
   * counted as they are.
   */
  lemma AverageOverQualifyingRows(rows: seq<Row>, l: Leg)
    requires AvgHours(FunnelMetrics(rows).avgTimesHours, l).Some?
    ensures CountTrue(QualifyingMask(rows, l)) > 0
    ensures AvgHours(FunnelMetrics(rows).avgTimesHours, l).value
         == MeanHours(LegSeconds(rows, l), CountTrue(QualifyingMask(rows, l)))
  {
    AvgHoursIsMean(rows, l);
    MeanOverQualifyingRows(rows, l);
  }

  /** `AverageOverQualifyingRows`, stated on the mean of the prepared duration column. */
  lemma MeanOverQualifyingRows(rows: seq<Row>, l: Leg)
    requires Mean(LegColumn(Prepare(rows), l)).Some?
    ensures CountTrue(QualifyingMask(rows, l)) > 0
    ensures Mean(LegColumn(Prepare(rows), l)).value
         == MeanHours(LegSeconds(rows, l), CountTrue(QualifyingMask(rows, l)))
  {
    LegSum(rows, l);
    LegCount(rows, l);
    var col := LegColumn(Prepare(rows), l);
    var n := CountTrue(NotNa(col));
    var k := CountTrue(QualifyingMask(rows, l));
    var m := Mean(col);
    MeanOfEqualParts(m.value, SumPresent(col), n, LegSeconds(rows, l) as real / 3600.0, k);
  }

  /** Mean in hours of `k` spans that add up to `seconds`. */
  function MeanHours(seconds: int, k: nat): real
    requires k > 0
  {
    seconds as real / 3600.0 / k as real
  }

  lemma MeanOfEqualParts(v: real, sum: real, n: nat, sum': real, n': nat)
    requires n > 0 && v == sum / n as real && sum == sum' && n == n'
    ensures v == sum' / n' as real
  {
  }

  lemma AvgHoursIsMean(rows: seq<Row>, l: Leg)
    ensures AvgHours(FunnelMetrics(rows).avgTimesHours, l) == Mean(LegColumn(Prepare(rows), l))
  {
  }

  lemma {:induction false} LegSecondsBounds(rows: seq<Row>, l: Leg, lo: int, hi: int)
    requires forall i :: 0 <= i < |rows| && Qualifies(rows[i], l) ==>
      lo <= LegEnd(rows[i], l).value - LegStart(rows[i], l).value <= hi
    ensures CountTrue(QualifyingMask(rows, l)) * lo <= LegSeconds(rows, l)
    ensures LegSeconds(rows, l) <= CountTrue(QualifyingMask(rows, l)) * hi
  {
    if |rows| > 0 {
      var n := |rows| - 1;
      var prefix := rows[..n];
      assert forall i :: 0 <= i < n ==> prefix[i] == rows[i];
      LegSecondsBounds(prefix, l, lo, hi);
      var q := QualifyingMask(rows, l);
      assert q[..n] == QualifyingMask(prefix, l);
      var r := rows[n];
      var span := if Qualifies(r, l) then LegEnd(r, l).value - LegStart(r, l).value else 0;
      BoundsStep(CountTrue(q[..n]), LegSeconds(prefix, l), q[n], span, lo, hi, CountTrue(q), LegSeconds(rows, l));
    }
  }

  /** One more row keeps `k * lo <= total <= k * hi`, counted or not. */
  lemma BoundsStep(k: nat, total: int, counted: bool, span: int, lo: int, hi: int, k': nat, total': int)
    requires k * lo <= total <= k * hi
    requires counted ==> lo <= span <= hi
    requires !counted ==> span == 0
    requires k' == k + (if counted then 1 else 0) && total' == total + span
    ensures k' * lo <= total' <= k' * hi
  {
    if counted {
      assert k' * lo == k * lo + lo;
      assert k' * hi == k * hi + hi;
    }
  }

  /** An average lies between the smallest and the largest duration that went into it. */
  lemma AverageWithinBounds(rows: seq<Row>, l: Leg, lo: int, hi: int)
    requires forall i :: 0 <= i < |rows| && Qualifies(rows[i], l) ==>
      lo <= LegEnd(rows[i], l).value - LegStart(rows[i], l).value <= hi
    requires AvgHours(FunnelMetrics(rows).avgTimesHours, l).Some?
    ensures lo as real / 3600.0 <= AvgHours(FunnelMetrics(rows).avgTimesHours, l).value <= hi as real / 3600.0
  {
    AverageOverQualifyingRows(rows, l);
    LegSecondsBounds(rows, l, lo, hi);
    MeanBounds(LegSeconds(rows, l), CountTrue(QualifyingMask(rows, l)), lo, hi,
      AvgHours(FunnelMetrics(rows).avgTimesHours, l).value);
  }

  /** Total seconds between `k * lo` and `k * hi` give a mean in hours between `lo` and `hi` hours. */
  lemma MeanBounds(seconds: int, k: nat, lo: int, hi: int, v: real)
    requires k > 0 && k * lo <= seconds <= k * hi
    requires v == MeanHours(seconds, k)
    ensures lo as real / 3600.0 <= v <= hi as real / 3600.0
  {
    var x := seconds as real / 3600.0;
    assert (k * lo) as real == k as real * lo as real;
    assert (k * hi) as real == k as real * hi as real;
    assert k as real * (lo as real / 3600.0) <= x <= k as real * (hi as real / 3600.0);
    DivideBounds(x, k as real, lo as real / 3600.0, hi as real / 3600.0);
  }

  lemma DivideBounds(x: real, k: real, lo: real, hi: real)
    requires k > 0.0 && k * lo <= x <= k * hi
    ensures lo <= x / k <= hi
  {
  }

  /** Timestamps in funnel order make every average duration non-negative. */
  lemma OrderedTimesNonNegativeAverage(rows: seq<Row>, l: Leg)
    requires forall i :: 0 <= i < |rows| && Qualifies(rows[i], l) ==>
      LegStart(rows[i], l).value <= LegEnd(rows[i], l).value
    requires AvgHours(FunnelMetrics(rows).avgTimesHours, l).Some?
    ensures AvgHours(FunnelMetrics(rows).avgTimesHours, l).value >= 0.0
  {
    AverageWithinBounds(rows, l, 0, MaxSpan(rows, l));
  }

  /** The longest span of a leg over the qualifying rows (0 when there is none). */
  function MaxSpan(rows: seq<Row>, l: Leg): (m: int)
    ensures forall i :: 0 <= i < |rows| && Qualifies(rows[i], l) ==>
      LegEnd(rows[i], l).value - LegStart(rows[i], l).value <= m
  {
    if |rows| == 0 then 0
    else
      var n := |rows| - 1;
      var r := rows[n];
      var m := MaxSpan(rows[..n], l);
      assert forall i :: 0 <= i < n ==> rows[..n][i] == rows[i];
      if Qualifies(r, l) && LegEnd(r, l).value - LegStart(r, l).value > m
      then LegEnd(r, l).value - LegStart(r, l).value else m
  }
}
