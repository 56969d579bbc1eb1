/**
 * The data frame the engine works on. Its raw columns (the event table) are
 * never rewritten; the engine adds derived columns to it in place:
 * `prepare_data` adds the stage flags and durations, `calculate_daily_metrics`
 * and `detect_anomalies` add `reg_date`, `calculate_cohort_analysis` adds
 * `reg_month` and `deposit_month`. Because these writes land in the frame
 * the caller passed, they are visible to the caller afterwards.
 */
module Frames {
  import opened Wrappers
  import opened Table
  import opened Funnel

  class Frame {
    /** The raw event table. */
    const rows: seq<Row>
    /** The prepared columns (`has_*`, `time_*`), once added. */
    var prepared: Option<seq<Derived>>
    /** The column `reg_date`, once added. */
    var regDate: Option<seq<Option<int>>>
    /** The column `reg_month`, once added. */
    var regMonth: Option<seq<Option<int>>>
    /** The column `deposit_month`, once added. */
    var depositMonth: Option<seq<Option<int>>>

    /** Every derived column that is present holds what its definition computes from the raw columns. */
    predicate Valid()
      reads this
    {
      && (prepared.Some? ==> prepared.value == Prepare(rows))
      && (regDate.Some? ==> regDate.value == DayColumn(rows))
      && (regMonth.Some? ==> regMonth.value == RegMonthColumn(rows))
      && (depositMonth.Some? ==> depositMonth.value == DepositMonthColumn(rows))
    }

    /** A frame holding only the raw table. */
    constructor(rows: seq<Row>)
      ensures this.rows == rows
      ensures prepared == None && regDate == None && regMonth == None && depositMonth == None
      ensures Valid()
    {
      this.rows := rows;
      prepared := None;
      regDate := None;
      regMonth := None;
      depositMonth := None;
    }

    /** `df.copy()`: a new frame with the same columns. */
    constructor Copy(other: Frame)
      ensures rows == other.rows
      ensures prepared == other.prepared && regDate == other.regDate
      ensures regMonth == other.regMonth && depositMonth == other.depositMonth
      ensures other.Valid() ==> Valid()
    {
      rows := other.rows;
      prepared := other.prepared;
      regDate := other.regDate;
      regMonth := other.regMonth;
      depositMonth := other.depositMonth;
    }
  }
}
