/**
 * Cohort analysis (`calculate_cohort_analysis`): the users are grouped by
 * calendar month of registration, in first-seen order, and for each cohort
 * and each of the six periods 0..5 the table counts the users whose deposit
 * month is present and no later than the registration month plus the period.
 */
module Cohorts {
  import opened Wrappers
  import opened Columns
  import opened Table
  import opened Funnel
  import opened Frames

  /** One line of the cohort table; months are numbered `12 * year + (month - 1)`. */
  datatype CohortRow = CohortRow(cohort: int, period: nat, users: nat, retained: nat, retentionRate: real)

  /** Number of periods per cohort. */
  const Periods := 6

  /**
   * Mask `(deposit_month == target) | (deposit_month < target)`; a missing
   * month compares false both ways.
   */
  function RetainedMask(depositMonths: seq<Option<int>>, target: int): (mask: seq<bool>)
    ensures |mask| == |depositMonths|
    ensures forall i :: 0 <= i < |mask| ==>
      (mask[i] <==> depositMonths[i].Some? && depositMonths[i].value <= target)
  {
    seq(|depositMonths|, i requires 0 <= i < |depositMonths| =>
      depositMonths[i] == Some(target) || (depositMonths[i].Some? && depositMonths[i].value < target))
  }

  /** The users registered in `month`: `df[df['reg_month'] == reg_month]`. */
  function CohortUsers(rows: seq<Row>, month: int): seq<Row> {
    Where(rows, RegMonthColumn(rows), month)
  }

  /** The line of one cohort and one period. */
  function CohortRowFor(rows: seq<Row>, month: int, period: nat): (r: CohortRow)
    ensures r.cohort == month && r.period == period
    ensures r.users == CountTrue(EqMask(RegMonthColumn(rows), month))
    ensures r.retained <= r.users
    ensures r.retentionRate == Percent(r.retained, r.users)
  {
    var users := CohortUsers(rows, month);
    var retained := CountTrue(RetainedMask(DepositMonthColumn(users), month + period));
    CohortRow(month, period, |users|, retained, Percent(retained, |users|))
  }

  /** The six lines of one cohort, by period. */
  function CohortBlock(rows: seq<Row>, month: int): (block: seq<CohortRow>)
    ensures |block| == Periods
    ensures forall p :: 0 <= p < Periods ==> block[p] == CohortRowFor(rows, month, p)
    ensures forall p :: 0 <= p < Periods ==>
      block[p].cohort == month && block[p].period == p && block[p].users == CountTrue(EqMask(RegMonthColumn(rows), month))
    ensures forall p, q :: 0 <= p <= q < Periods ==> block[p].retained <= block[q].retained
  {
    BlockRetention(rows, month);
    seq(Periods, p requires 0 <= p < Periods => CohortRowFor(rows, month, p))
  }

  /** Retained counts of one cohort never decrease with the period. */
  lemma BlockRetention(rows: seq<Row>, month: int)
    ensures forall p: nat, q: nat :: p <= q ==> CohortRowFor(rows, month, p).retained <= CohortRowFor(rows, month, q).retained
  {
    forall p: nat, q: nat | p <= q
      ensures CohortRowFor(rows, month, p).retained <= CohortRowFor(rows, month, q).retained
    {
      RetentionNonDecreasing(rows, month, p, q);
    }
  }

  /** The blocks of `months`, in that order. */
  function CohortsOver(rows: seq<Row>, months: seq<int>): seq<CohortRow> {
    Blocks(CohortBlockOf(rows), months)
  }

  /** The block of each month, as a function of the month. */
  function CohortBlockOf(rows: seq<Row>): int -> seq<CohortRow> {
    month => CohortBlock(rows, month)
  }

  /** `df['reg_month'].unique()` with the missing month skipped. */
  function CohortMonths(rows: seq<Row>): (months: seq<int>)
    ensures Distinct(months)
    ensures forall m :: m in months <==> Some(m) in RegMonthColumn(rows)
  {
    Somes(Unique(RegMonthColumn(rows)))
  }

  /** The cohort table. */
  function CohortAnalysis(rows: seq<Row>): seq<CohortRow> {
    CohortsOver(rows, CohortMonths(rows))
  }

  /**
   * `calculate_cohort_analysis(df)`: adds `reg_month` and `deposit_month`
   * to the caller's frame, then emits six lines per registration month.
   */
  method CalculateCohortAnalysis(df: Frame) returns (cohorts: seq<CohortRow>)
    requires df.Valid()
    modifies df
    ensures df.Valid()
    ensures df.regMonth == Some(RegMonthColumn(df.rows)) && df.depositMonth == Some(DepositMonthColumn(df.rows))
    ensures df.prepared == old(df.prepared) && df.regDate == old(df.regDate)
    ensures cohorts == CohortAnalysis(df.rows)
  {
    var rows := df.rows;
    var regMonth := RegMonthColumn(rows);
    var depositMonth := DepositMonthColumn(rows);
    df.regMonth := Some(regMonth);
    df.depositMonth := Some(depositMonth);
    var months := Unique(regMonth);
    cohorts := CohortLoop(rows, regMonth, depositMonth, months);
  }

  /** The loop of `calculate_cohort_analysis` over the unique registration months. */
  method CohortLoop(rows: seq<Row>, regMonth: seq<Option<int>>, depositMonth: seq<Option<int>>, months: seq<Option<int>>)
    returns (cohorts: seq<CohortRow>)
    requires regMonth == RegMonthColumn(rows) && depositMonth == DepositMonthColumn(rows)
    ensures cohorts == CohortsOver(rows, Somes(months))
  {
    cohorts := [];
    for k := 0 to |months|
      invariant cohorts == CohortsOver(rows, Somes(months[..k]))
    {
      SomesSnoc(months[..k], months[k]);
      assert months[..k + 1] == months[..k] + [months[k]];
      if months[k].None? {
        continue;
      }
      var month := months[k].value;
      var cohortUsers := Where(rows, regMonth, month);
      var cohortDeposits := Select(depositMonth, EqMask(regMonth, month));
      SelectColumn(rows, regMonth, month);
      var block := CohortLines(rows, month, cohortUsers, cohortDeposits);
      CohortsSnoc(rows, Somes(months[..k]), month);
      cohorts := cohorts + block;
    }
    assert months[..|months|] == months;
  }

  lemma CohortsSnoc(rows: seq<Row>, months: seq<int>, month: int)
    ensures CohortsOver(rows, months + [month]) == CohortsOver(rows, months) + CohortBlock(rows, month)
  {
    assert (months + [month])[..|months|] == months;
  }

  /** The loop over the six periods of one cohort. */
  method CohortLines(rows: seq<Row>, month: int, cohortUsers: seq<Row>, cohortDeposits: seq<Option<int>>)
    returns (block: seq<CohortRow>)
    requires cohortUsers == CohortUsers(rows, month)
    requires cohortDeposits == DepositMonthColumn(cohortUsers)
    ensures block == CohortBlock(rows, month)
  {
    block := [];
    for period := 0 to Periods
      invariant |block| == period
      invariant forall p :: 0 <= p < period ==> block[p] == CohortRowFor(rows, month, p)
    {
      var line := CohortLine(rows, month, period, cohortUsers, cohortDeposits);
      block := block + [line];
    }
  }

  /** One iteration of the period loop: the users of the cohort retained by month `month + period`. */
  method CohortLine(rows: seq<Row>, month: int, period: nat, cohortUsers: seq<Row>, cohortDeposits: seq<Option<int>>)
    returns (line: CohortRow)
    requires cohortUsers == CohortUsers(rows, month)
    requires cohortDeposits == DepositMonthColumn(cohortUsers)
    ensures line == CohortRowFor(rows, month, period)
  {
    var target := month + period;
    var retained := CountTrue(RetainedMask(cohortDeposits, target));
    line := CohortRow(month, period, |cohortUsers|, retained, Percent(retained, |cohortUsers|));
  }

  /** Selecting the rows of a group, then deriving a column, is selecting that group's entries of the derived column. */
  lemma SelectColumn(rows: seq<Row>, regMonth: seq<Option<int>>, month: int)
    requires regMonth == RegMonthColumn(rows)
    ensures DepositMonthColumn(Where(rows, regMonth, month)) == Select(DepositMonthColumn(rows), EqMask(regMonth, month))
  {
    MapSelect(DepositMonth, rows, EqMask(regMonth, month));
  }

  // ---------------------------------------------------------------------
  // Properties

  /** Six lines per month, month after month: line `6 * k + p` is period `p` of the `k`-th month. */
  lemma CohortLayout(rows: seq<Row>, months: seq<int>)
    ensures |CohortsOver(rows, months)| == Periods * |months|
    ensures forall k, p :: 0 <= k < |months| && 0 <= p < Periods ==>
      CohortsOver(rows, months)[Periods * k + p] == CohortRowFor(rows, months[k], p)
  {
    SixBlocks(CohortBlockOf(rows), months);
  }

  /** Concatenated blocks of six: entry `6 * k + p` is entry `p` of the `k`-th block. */
  lemma {:induction false} SixBlocks<A, B>(f: A -> seq<B>, xs: seq<A>)
    requires forall k :: 0 <= k < |xs| ==> |f(xs[k])| == 6
    ensures |Blocks(f, xs)| == 6 * |xs|
    ensures forall k, p :: 0 <= k < |xs| && 0 <= p < 6 ==> Blocks(f, xs)[6 * k + p] == f(xs[k])[p]
  {
    if |xs| > 0 {
      var n := |xs| - 1;
      var prefix := Blocks(f, xs[..n]);
      assert forall k :: 0 <= k < n ==> xs[..n][k] == xs[k];
      SixBlocks(f, xs[..n]);
      forall k, p | 0 <= k < |xs| && 0 <= p < 6
        ensures Blocks(f, xs)[6 * k + p] == f(xs[k])[p]
      {
        if k < n {
          assert prefix[6 * k + p] == f(xs[..n][k])[p];
        }
      }
    }
  }

  /**
   * In a cohort that exists (its month occurs among the registrations), the
   * cohort has users, the retained users are some of them, and the rate is
   * a percentage of at most 100.
   */
  lemma CohortLineBounds(rows: seq<Row>, month: int, period: nat)
    requires Some(month) in RegMonthColumn(rows)
    ensures var line := CohortRowFor(rows, month, period);
      && 0 < line.users
      && line.retained <= line.users
      && 0.0 <= line.retentionRate <= 100.0
  {
    PresentValueCounted(RegMonthColumn(rows), month);
    var users := CohortUsers(rows, month);
    var mask := RetainedMask(DepositMonthColumn(users), month + period);
    var retained := CountTrue(mask);
    assert retained <= |users|;
    assert |users| > 0;
    assert CohortRowFor(rows, month, period) == CohortRow(month, period, |users|, retained, Percent(retained, |users|));
  }

  /** Retention is cumulative: a later period retains at least the users of an earlier one. */
  lemma RetentionNonDecreasing(rows: seq<Row>, month: int, p: nat, q: nat)
    requires p <= q
    ensures CohortRowFor(rows, month, p).retained <= CohortRowFor(rows, month, q).retained
    ensures CohortRowFor(rows, month, p).retentionRate <= CohortRowFor(rows, month, q).retentionRate
  {
    var deposits := DepositMonthColumn(CohortUsers(rows, month));
    CountTrueMonotone(RetainedMask(deposits, month + p), RetainedMask(deposits, month + q));
    PercentMonotone(
      CountTrue(RetainedMask(deposits, month + p)),
      CountTrue(RetainedMask(deposits, month + q)),
      |CohortUsers(rows, month)|);
  }

  /** Users of the first line of each cohort, summed over `months`. */
  function CohortSizes(rows: seq<Row>, months: seq<int>): nat {
    if |months| == 0 then 0
    else CohortSizes(rows, months[..|months| - 1]) + CohortRowFor(rows, months[|months| - 1], 0).users
  }

  lemma {:induction false} CohortSizesAreSumCounts(rows: seq<Row>, months: seq<int>)
    ensures CohortSizes(rows, months) == SumCounts(RegMonthColumn(rows), months)
  {
    if |months| > 0 {
      CohortSizesAreSumCounts(rows, months[..|months| - 1]);
    }
  }

  /** The cohorts split the users: every user with a registration month is in exactly one cohort. */
  lemma CohortsPartitionUsers(rows: seq<Row>)
    ensures CohortSizes(rows, CohortMonths(rows)) == CountTrue(NotNa(RegMonthColumn(rows)))
  {
    CohortSizesAreSumCounts(rows, CohortMonths(rows));
    Partition(RegMonthColumn(rows), CohortMonths(rows));
  }
}
