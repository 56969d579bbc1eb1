/**
 * Segment analysis (`FunnelAnalyzer.analyze_by_segments`): for each of the
 * three segment dimensions, one summary row per distinct non-missing value
 * of that column, in first-seen order, holding the number of users with that
 * value and the four conversions of the funnel restricted to them.
 */
module Segments {
  import opened Wrappers
  import opened Columns
  import opened Table
  import opened Funnel

  /** One line of a segment table. */
  datatype SegmentRow = SegmentRow(
    segmentValue: string,
    users: nat,
    regToDepositConv: real,
    depositToBetConv: real,
    betToSecondDepositConv: real,
    overallConv: real)

  /** `df[segment].unique()` with the missing value skipped. */
  function SegmentValues(rows: seq<Row>, d: Dimension): (vals: seq<string>)
    ensures Distinct(vals)
    ensures forall v :: v in vals <==> Some(v) in Column(rows, d)
  {
    Somes(Unique(Column(rows, d)))
  }

  /** The users whose segment value is `v`: `df[df[segment] == segment_value]`. */
  function SegmentUsers(rows: seq<Row>, d: Dimension, v: string): seq<Row> {
    Where(rows, Column(rows, d), v)
  }

  /** The summary line of one segment value, from the funnel metrics of its users. */
  function SegmentRowFor(rows: seq<Row>, d: Dimension, v: string): (r: SegmentRow)
    ensures r.segmentValue == v
    ensures r.users == CountTrue(EqMask(Column(rows, d), v))
  {
    var part := SegmentUsers(rows, d, v);
    var m := FunnelMetrics(part);
    SegmentRow(
      v,
      |part|,
      m.conversions.regToDeposit,
      m.conversions.depositToBet,
      m.conversions.betToSecondDeposit,
      m.conversions.overallConversion)
  }

  /** The summary lines of the values `vals`, in that order. */
  function SegmentRows(rows: seq<Row>, d: Dimension, vals: seq<string>): (segs: seq<SegmentRow>)
    ensures |segs| == |vals|
    ensures forall i :: 0 <= i < |vals| ==> segs[i] == SegmentRowFor(rows, d, vals[i])
    ensures forall i :: 0 <= i < |vals| ==>
      segs[i].segmentValue == vals[i] && segs[i].users == CountTrue(EqMask(Column(rows, d), vals[i]))
  {
    Map(SegmentLineOf(rows, d), vals)
  }

  /** A user is in the subset of `v` exactly when it is a row of the table whose attribute is `v`. */
  lemma SegmentUsersMembers(rows: seq<Row>, d: Dimension, v: string)
    ensures forall r :: r in SegmentUsers(rows, d, v) <==> r in rows && Attr(r, d) == Some(v)
  {
    WhereMembers(rows, Column(rows, d), v);
  }

  /** The summary line of each value, as a function of the value. */
  function SegmentLineOf(rows: seq<Row>, d: Dimension): string -> SegmentRow {
    v => SegmentRowFor(rows, d, v)
  }

  /** The table `results[segment]`. */
  function SegmentAnalysis(rows: seq<Row>, d: Dimension): seq<SegmentRow> {
    SegmentRows(rows, d, SegmentValues(rows, d))
  }

  /** The segment columns analysed, in the order `analyze_by_segments` visits them. */
  const SegmentDimensions: seq<Dimension> := [TrafficSource, Country, Device]

  /** The dictionary after visiting the dimensions `dims` in order. */
  function SegmentMap(rows: seq<Row>, dims: seq<Dimension>): map<Dimension, seq<SegmentRow>> {
    if |dims| == 0 then map[]
    else
      var d := dims[|dims| - 1];
      SegmentMap(rows, dims[..|dims| - 1])[d := SegmentAnalysis(rows, d)]
  }

  /** The dictionary returned by `analyze_by_segments`. */
  function AllSegments(rows: seq<Row>): map<Dimension, seq<SegmentRow>> {
    SegmentMap(rows, SegmentDimensions)
  }

  /** After visiting `dims`, the dictionary maps exactly the visited dimensions to their segment tables. */
  lemma {:induction false} SegmentMapLookup(rows: seq<Row>, dims: seq<Dimension>)
    ensures forall d :: d in SegmentMap(rows, dims) <==> d in dims
    ensures forall d :: d in dims ==> SegmentMap(rows, dims)[d] == SegmentAnalysis(rows, d)
  {
    if |dims| > 0 {
      var n := |dims| - 1;
      SegmentMapLookup(rows, dims[..n]);
      assert dims == dims[..n] + [dims[n]];
    }
  }

  /** Every dimension gets its own segment table in the dictionary. */
  lemma AllSegmentsByDimension(rows: seq<Row>)
    ensures forall d :: d in AllSegments(rows) && AllSegments(rows)[d] == SegmentAnalysis(rows, d)
  {
    SegmentMapLookup(rows, SegmentDimensions);
    forall d
      ensures d in SegmentDimensions
    {
      match d
      case TrafficSource => assert SegmentDimensions[0] == d;
      case Country => assert SegmentDimensions[1] == d;
      case Device => assert SegmentDimensions[2] == d;
    }
  }

  /** Total number of users over the lines of a segment table. */
  function TotalUsers(segs: seq<SegmentRow>): nat {
    if |segs| == 0 then 0 else TotalUsers(segs[..|segs| - 1]) + segs[|segs| - 1].users
  }

  // ---------------------------------------------------------------------
  // Properties

  /**
   * The lines of a segment table name every present value of the column
   * exactly once, and each of them counts the users holding that value,
   * at least one.
   */
  lemma SegmentTableLines(rows: seq<Row>, d: Dimension)
    ensures forall i, j :: 0 <= i < j < |SegmentAnalysis(rows, d)| ==>
      SegmentAnalysis(rows, d)[i].segmentValue != SegmentAnalysis(rows, d)[j].segmentValue
    ensures forall v :: (exists i :: 0 <= i < |SegmentAnalysis(rows, d)| && SegmentAnalysis(rows, d)[i].segmentValue == v)
                    <==> Some(v) in Column(rows, d)
    ensures forall i :: 0 <= i < |SegmentAnalysis(rows, d)| ==>
      0 < SegmentAnalysis(rows, d)[i].users == CountTrue(EqMask(Column(rows, d), SegmentAnalysis(rows, d)[i].segmentValue))
  {
    var vals := SegmentValues(rows, d);
    var segs := SegmentAnalysis(rows, d);
    forall v | Some(v) in Column(rows, d)
      ensures exists i :: 0 <= i < |segs| && segs[i].segmentValue == v
    {
      var i :| 0 <= i < |vals| && vals[i] == v;
      assert segs[i].segmentValue == v;
    }
    forall i | 0 <= i < |segs|
      ensures 0 < segs[i].users == CountTrue(EqMask(Column(rows, d), segs[i].segmentValue))
    {
      assert vals[i] in vals;
      PresentValueCounted(Column(rows, d), vals[i]);
    }
  }

  /** Conversions of a segment are percentages; the first and the overall one at most 100. */
  lemma SegmentConversionBounds(rows: seq<Row>, d: Dimension, v: string)
    ensures var s := SegmentRowFor(rows, d, v);
      && 0.0 <= s.regToDepositConv <= 100.0
      && 0.0 <= s.overallConv <= 100.0
      && 0.0 <= s.depositToBetConv
      && 0.0 <= s.betToSecondDepositConv
  {
  }

  /** Summing users over the lines of `vals` sums the group sizes of `vals`. */
  lemma TotalUsersIsSumCounts(rows: seq<Row>, d: Dimension, vals: seq<string>)
    ensures TotalUsers(SegmentRows(rows, d, vals)) == SumCounts(Column(rows, d), vals)
  {
    var f := SegmentLineOf(rows, d);
    forall v ensures f(v).users == CountTrue(EqMask(Column(rows, d), v)) {
      assert f(v).users == |SegmentUsers(rows, d, v)|;
    }
    TotalUsersOfGroups(f, Column(rows, d), vals);
  }

  /** Lines that each count the users of their value add up to the group sizes of the values. */
  lemma {:induction false} TotalUsersOfGroups(f: string -> SegmentRow, col: seq<Option<string>>, vals: seq<string>)
    requires forall v :: f(v).users == CountTrue(EqMask(col, v))
    ensures TotalUsers(Map(f, vals)) == SumCounts(col, vals)
  {
    if |vals| > 0 {
      var n := |vals| - 1;
      TotalUsersOfGroups(f, col, vals[..n]);
      assert vals == vals[..n] + [vals[n]];
      MapSnoc(f, vals[..n], vals[n]);
    }
  }

  /**
   * The segments of a dimension split the users: the user counts of a
   * segment table add up to the number of users whose value in that
   * dimension is present.
   */
  lemma SegmentsPartitionUsers(rows: seq<Row>, d: Dimension)
    ensures TotalUsers(SegmentAnalysis(rows, d)) == CountTrue(NotNa(Column(rows, d)))
  {
    var vals := SegmentValues(rows, d);
    TotalUsersIsSumCounts(rows, d, vals);
    Partition(Column(rows, d), vals);
  }

  /** Without any present value in the column, the segment table is empty, and conversely. */
  lemma EmptySegmentTable(rows: seq<Row>, d: Dimension)
    ensures SegmentAnalysis(rows, d) == [] <==> forall i :: 0 <= i < |rows| ==> Attr(rows[i], d).None?
  {
    var col := Column(rows, d);
    var vals := SegmentValues(rows, d);
    if vals != [] {
      assert vals[0] in vals;
      var i :| 0 <= i < |col| && col[i] == Some(vals[0]);
    }
  }

  /**
   * When every user shares the same value `v`, the table has exactly one
   * line, and it carries the whole funnel's conversions.
   */
  lemma SingleSegment(rows: seq<Row>, d: Dimension, v: string)
    requires |rows| > 0
    requires forall i :: 0 <= i < |rows| ==> Attr(rows[i], d) == Some(v)
    ensures var c := FunnelMetrics(rows).conversions;
      SegmentAnalysis(rows, d) == [SegmentRow(v, |rows|, c.regToDeposit, c.depositToBet, c.betToSecondDeposit, c.overallConversion)]
  {
    var col := Column(rows, d);
    var vals := SegmentValues(rows, d);
    UniqueOfConstant(col, Some(v));
    assert Somes([Some(v)]) == [v] by {
      assert [Some(v)][..0] == [];
    }
    assert vals == [v];
    SelectAll(rows, EqMask(col, v));
  }
}
