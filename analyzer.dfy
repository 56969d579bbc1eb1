/**
 * The analyser object (`FunnelAnalyzer`): it keeps its own prepared copy of
 * the event table and answers funnel, segment and daily queries either on
 * that copy or on a frame the caller passes in.
 */
module Analyzer {
  import opened Wrappers
  import opened Columns
  import opened Table
  import opened Funnel
  import opened Frames
  import opened Segments
  import opened Daily

  class FunnelAnalyzer {
    /** `self.df`: the analyser's own copy of the table. */
    var df: Frame

    /** The own copy is consistent and has been prepared. */
    predicate Valid()
      reads this, df
    {
      df.Valid() && df.prepared.Some?
    }

    /** `FunnelAnalyzer(df)`: copy the caller's frame, then prepare the copy. */
    constructor(source: Frame)
      requires source.Valid()
      ensures Valid() && fresh(df)
      ensures df.rows == source.rows
      ensures df.regDate == source.regDate && df.regMonth == source.regMonth && df.depositMonth == source.depositMonth
    {
      df := new Frame.Copy(source);
      new;
      PrepareData();
    }

    /** `prepare_data()`: add the stage flags and the durations to the own copy. */
    method PrepareData()
      requires df.Valid()
      modifies df
      ensures Valid()
      ensures df.prepared == Some(Prepare(df.rows))
      ensures df.regDate == old(df.regDate) && df.regMonth == old(df.regMonth) && df.depositMonth == old(df.depositMonth)
    {
      df.prepared := Some(Prepare(df.rows));
    }

    /**
     * `calculate_funnel_metrics(df=None)`: on the own prepared copy, or on a
     * freshly prepared copy of the frame passed in; the caller's frame is
     * left as it was.
     */
    method CalculateFunnelMetrics(other: Frame?) returns (m: Metrics)
      requires Valid()
      ensures m == FunnelMetrics(if other == null then df.rows else other.rows)
    {
      var ds: seq<Derived>;
      if other == null {
        ds := df.prepared.value;
      } else {
        var copy := new Frame.Copy(other);
        copy.prepared := Some(Prepare(copy.rows));
        ds := copy.prepared.value;
      }
      m := MetricsOf(ds);
    }

    /** `analyze_by_segments(df=None)`: one segment table per dimension. */
    method AnalyzeBySegments(other: Frame?) returns (results: map<Dimension, seq<SegmentRow>>)
      requires Valid()
      ensures results == AllSegments(if other == null then df.rows else other.rows)
    {
      var rows := if other == null then df.rows else other.rows;
      results := map[];
      for k := 0 to |SegmentDimensions|
        invariant results == SegmentMap(rows, SegmentDimensions[..k])
      {
        var d := SegmentDimensions[k];
        var col := Column(rows, d);
        var analysis := SegmentLines(rows, d, col, Unique(col));
        assert SegmentDimensions[..k + 1][..k] == SegmentDimensions[..k];
        results := results[d := analysis];
      }
      assert SegmentDimensions[..|SegmentDimensions|] == SegmentDimensions;
    }

    /** The inner loop of `analyze_by_segments`: one line per unique, non-missing value of the column `d`. */
    method SegmentLines(rows: seq<Row>, d: Dimension, col: seq<Option<string>>, vals: seq<Option<string>>)
      returns (analysis: seq<SegmentRow>)
      requires Valid()
      requires col == Column(rows, d)
      ensures analysis == SegmentRows(rows, d, Somes(vals))
    {
      analysis := [];
      for i := 0 to |vals|
        invariant analysis == SegmentRows(rows, d, Somes(vals[..i]))
      {
        SegmentLinesStep(rows, d, vals, i);
        if vals[i].Some? {
          var line := SegmentLine(rows, d, col, vals[i].value);
          analysis := analysis + [line];
        }
      }
      assert vals[..|vals|] == vals;
    }

    /** One iteration of the inner loop: the summary line of the users whose value in column `d` is `v`. */
    method SegmentLine(rows: seq<Row>, d: Dimension, col: seq<Option<string>>, v: string) returns (line: SegmentRow)
      requires Valid()
      requires col == Column(rows, d)
      ensures line == SegmentRowFor(rows, d, v)
    {
      var segment := new Frame(Where(rows, col, v));
      var metrics := CalculateFunnelMetrics(segment);
      line := SegmentRow(
        v,
        |segment.rows|,
        metrics.conversions.regToDeposit,
        metrics.conversions.depositToBet,
        metrics.conversions.betToSecondDeposit,
        metrics.conversions.overallConversion);
    }

    /**
     * `calculate_daily_metrics(df=None)`: adds `reg_date` to the frame it
     * works on (the own copy, or the caller's frame), then returns the daily
     * lines sorted by date; with no dated user the table is empty.
     */
    method CalculateDailyMetrics(other: Frame?) returns (daily: seq<DailyRow>)
      requires Valid()
      requires other != null ==> other.Valid()
      modifies if other == null then {df} else {other}
      ensures Valid()
      ensures var target := if other == null then df else other;
        && target.Valid()
        && target.regDate == Some(DayColumn(target.rows))
        && target.prepared == old(target.prepared)
        && target.regMonth == old(target.regMonth)
        && target.depositMonth == old(target.depositMonth)
      ensures daily == DailyMetrics(if other == null then df.rows else other.rows)
    {
      var target := if other == null then df else other;
      var rows := target.rows;
      var col := DayColumn(rows);
      target.regDate := Some(col);
      var stats := DailyLines(rows, col, Unique(col));
      daily := SortByDate(stats);
    }

    /** The loop of `calculate_daily_metrics` over the unique registration days. */
    method DailyLines(rows: seq<Row>, col: seq<Option<int>>, days: seq<Option<int>>) returns (stats: seq<DailyRow>)
      requires Valid()
      requires col == DayColumn(rows)
      ensures stats == DailyRows(rows, Somes(days))
    {
      stats := [];
      for i := 0 to |days|
        invariant stats == DailyRows(rows, Somes(days[..i]))
      {
        DailyLinesStep(rows, days, i);
        if days[i].Some? {
          var line := DayLine(rows, col, days[i].value);
          stats := stats + [line];
        }
      }
      assert days[..|days|] == days;
    }

    /** One iteration of the day loop: the line of the users registered on `date`. */
    method DayLine(rows: seq<Row>, col: seq<Option<int>>, date: int) returns (line: DailyRow)
      requires Valid()
      requires col == DayColumn(rows)
      ensures line == DailyRowFor(rows, date)
    {
      var day := new Frame(Where(rows, col, date));
      var metrics := CalculateFunnelMetrics(day);
      line := DailyRow(
        date,
        metrics.counts.registrations,
        metrics.counts.deposits,
        metrics.conversions.regToDeposit,
        metrics.conversions.overallConversion);
    }
  }

  /** One step of the inner segment loop: a present value adds its line, a missing one adds nothing. */
  lemma SegmentLinesStep(rows: seq<Row>, d: Dimension, vals: seq<Option<string>>, i: nat)
    requires i < |vals|
    ensures SegmentRows(rows, d, Somes(vals[..i + 1]))
         == SegmentRows(rows, d, Somes(vals[..i])) + (if vals[i].Some? then [SegmentRowFor(rows, d, vals[i].value)] else [])
  {
    assert vals[..i + 1] == vals[..i] + [vals[i]];
    SomesSnoc(vals[..i], vals[i]);
    if vals[i].Some? {
      MapSnoc(SegmentLineOf(rows, d), Somes(vals[..i]), vals[i].value);
    }
  }

  /** One step of the day loop: a present day adds its line, a missing one adds nothing. */
  lemma DailyLinesStep(rows: seq<Row>, days: seq<Option<int>>, i: nat)
    requires i < |days|
    ensures DailyRows(rows, Somes(days[..i + 1]))
         == DailyRows(rows, Somes(days[..i])) + (if days[i].Some? then [DailyRowFor(rows, days[i].value)] else [])
  {
    assert days[..i + 1] == days[..i] + [days[i]];
    SomesSnoc(days[..i], days[i]);
    if days[i].Some? {
      MapSnoc(DayLineOf(rows), Somes(days[..i]), days[i].value);
    }
  }
}
