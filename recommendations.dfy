/**
 * The recommendation rule of the PDF report: one recommendation per funnel
 * conversion below its threshold, in a fixed order, or a single
 * "all normal" line when none is.
 */
module Recommendations {
  import opened Columns
  import opened Table
  import opened Funnel

  datatype Recommendation =
    | ImproveOnboarding   // low registration-to-deposit conversion
    | ReviewBettingUx     // low deposit-to-first-bet conversion
    | ImproveRetention    // low first-bet-to-second-deposit conversion
    | AllNormal

  const OnboardingThreshold: real := 20.0
  const BettingThreshold: real := 80.0
  const RetentionThreshold: real := 30.0

  function Recommend(c: Conversions): (recs: seq<Recommendation>)
    ensures ImproveOnboarding in recs <==> c.regToDeposit < OnboardingThreshold
    ensures ReviewBettingUx in recs <==> c.depositToBet < BettingThreshold
    ensures ImproveRetention in recs <==> c.betToSecondDeposit < RetentionThreshold
    ensures AllNormal in recs <==>
      c.regToDeposit >= OnboardingThreshold && c.depositToBet >= BettingThreshold && c.betToSecondDeposit >= RetentionThreshold
    ensures AllNormal in recs ==> recs == [AllNormal]
    ensures |recs| > 0 && Distinct(recs)
  {
    var onboarding := if c.regToDeposit < OnboardingThreshold then [ImproveOnboarding] else [];
    var betting := if c.depositToBet < BettingThreshold then [ReviewBettingUx] else [];
    var retention := if c.betToSecondDeposit < RetentionThreshold then [ImproveRetention] else [];
    var recs := onboarding + betting + retention;
    if recs == [] then [AllNormal] else recs
  }

  /** The recommendations the report prints for a table. */
  function ReportRecommendations(rows: seq<Row>): seq<Recommendation> {
    Recommend(FunnelMetrics(rows).conversions)
  }

  /** An empty table has every conversion 0, so all three recommendations are made. */
  lemma EmptyTableRecommendations()
    ensures ReportRecommendations([]) == [ImproveOnboarding, ReviewBettingUx, ImproveRetention]
  {
    EmptyTableMetrics();
  }
}
