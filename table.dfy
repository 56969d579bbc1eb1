/**
 * The event table: one row per user, timestamps as whole seconds since the
 * Unix epoch (a missing or unparseable timestamp is `None`, as pandas'
 * `to_datetime(errors='coerce')` leaves it), and the three categorical
 * segment columns. Also the calendar projections the engine groups by:
 * the calendar date (`.dt.date`) and the calendar month (`.dt.to_period('M')`).
 */
module Table {
  import opened Wrappers
  import opened Columns

  datatype Row = Row(
    userId: int,
    registrationTime: Option<int>,
    depositTime: Option<int>,
    firstBetTime: Option<int>,
    secondDepositTime: Option<int>,
    trafficSource: Option<string>,
    country: Option<string>,
    device: Option<string>)

  /** The three fixed segment dimensions. */
  datatype Dimension = TrafficSource | Country | Device

  function Attr(r: Row, d: Dimension): Option<string> {
    match d
    case TrafficSource => r.trafficSource
    case Country => r.country
    case Device => r.device
  }

  /** The column `df[d]`. */
  function Column(rows: seq<Row>, d: Dimension): (col: seq<Option<string>>)
    ensures |col| == |rows|
    ensures forall i :: 0 <= i < |rows| ==> col[i] == Attr(rows[i], d)
  {
    seq(|rows|, i requires 0 <= i < |rows| => Attr(rows[i], d))
  }

  const SecondsPerDay := 86400

  /** Calendar date as a day number since 1970-01-01 (flooring, also before the epoch). */
  function Day(t: Option<int>): (d: Option<int>)
    ensures d.Some? <==> t.Some?
    ensures d.Some? ==> d.value * SecondsPerDay <= t.value < (d.value + 1) * SecondsPerDay
  {
    match t
    case None => None
    case Some(s) => Some(s / SecondsPerDay)
  }

  /**
   * Month number `12 * year + (month - 1)` of a day number in the proleptic
   * Gregorian calendar (the civil-from-days conversion: 400-year eras of
   * 146097 days, years starting on March 1st inside an era).
   */
  function MonthOfDay(days: int): int {
    var z := days + 719468;
    var era := z / 146097;
    var doe := z - era * 146097;
    var yoe := YearOfEra(doe);
    var doy := doe - DaysBeforeYear(yoe);
    var mp := (5 * doy + 2) / 153;
    var month := if mp < 10 then mp + 3 else mp - 9;
    var year := yoe + era * 400 + (if month <= 2 then 1 else 0);
    12 * year + (month - 1)
  }

  /** The March-based year, inside its era, of day `doe` of the era. */
  function YearOfEra(doe: int): int {
    (doe - doe / 1460 + doe / 36524 - doe / 146096) / 365
  }

  /** The days of an era that precede its March-based year `yoe`. */
  function DaysBeforeYear(yoe: int): int {
    365 * yoe + yoe / 4 - yoe / 100
  }

  /** Months elapsed since the start of the era (March of its first year) on day `doe`. */
  function MonthOfEra(doe: int): int {
    var yoe := YearOfEra(doe);
    12 * yoe + (5 * (doe - DaysBeforeYear(yoe)) + 2) / 153
  }

  /** The calendar month of a timestamp (`Period('M')`); `None` stays missing. */
  function Month(t: Option<int>): (m: Option<int>)
    ensures m.Some? <==> t.Some?
  {
    match t
    case None => None
    case Some(s) => Some(MonthOfDay(s / SecondsPerDay))
  }

  /** The derived column `reg_date`. */
  function DayColumn(rows: seq<Row>): (col: seq<Option<int>>)
    ensures |col| == |rows|
    ensures forall i :: 0 <= i < |rows| ==> col[i] == Day(rows[i].registrationTime)
  {
    seq(|rows|, i requires 0 <= i < |rows| => Day(rows[i].registrationTime))
  }

  /** The derived column `reg_month`. */
  function RegMonthColumn(rows: seq<Row>): (col: seq<Option<int>>)
    ensures |col| == |rows|
    ensures forall i :: 0 <= i < |rows| ==> col[i] == Month(rows[i].registrationTime)
  {
    seq(|rows|, i requires 0 <= i < |rows| => Month(rows[i].registrationTime))
  }

  /** The derived column `deposit_month`. */
  function DepositMonthColumn(rows: seq<Row>): (col: seq<Option<int>>)
    ensures |col| == |rows|
    ensures forall i :: 0 <= i < |rows| ==> col[i] == Month(rows[i].depositTime)
  {
    Map(DepositMonth, rows)
  }

  /** The deposit month of one row. */
  function DepositMonth(r: Row): Option<int> {
    Month(r.depositTime)
  }

  /**
   * `reg_date` is present exactly for the rows with a registration time,
   * each registration falls within its day, and a later registration never
   * has an earlier day.
   */
  lemma DayColumnOrdered(rows: seq<Row>)
    ensures forall i :: 0 <= i < |rows| ==>
      (DayColumn(rows)[i].Some? <==> rows[i].registrationTime.Some?)
    ensures forall i :: 0 <= i < |rows| && rows[i].registrationTime.Some? ==>
      DayColumn(rows)[i].value * SecondsPerDay <= rows[i].registrationTime.value < (DayColumn(rows)[i].value + 1) * SecondsPerDay
    ensures forall i, j ::
      (0 <= i < |rows| && 0 <= j < |rows| &&
       rows[i].registrationTime.Some? && rows[j].registrationTime.Some? &&
       rows[i].registrationTime.value <= rows[j].registrationTime.value) ==>
      DayColumn(rows)[i].value <= DayColumn(rows)[j].value
  {
    var col := DayColumn(rows);
    forall i, j | 0 <= i < |rows| && 0 <= j < |rows| &&
      rows[i].registrationTime.Some? && rows[j].registrationTime.Some? &&
      rows[i].registrationTime.value <= rows[j].registrationTime.value
      ensures col[i].value <= col[j].value
    {
      assert rows[i].registrationTime.value / SecondsPerDay <= rows[j].registrationTime.value / SecondsPerDay;
    }
  }

  /**
   * `reg_month` is present exactly for the rows with a registration time,
   * is the month of the row's `reg_date`, and a later registration never
   * has an earlier month.
   */
  lemma RegMonthOrdered(rows: seq<Row>)
    ensures forall i :: 0 <= i < |rows| ==>
      (RegMonthColumn(rows)[i].Some? <==> rows[i].registrationTime.Some?)
    ensures forall i :: 0 <= i < |rows| && rows[i].registrationTime.Some? ==>
      RegMonthColumn(rows)[i] == Some(MonthOfDay(DayColumn(rows)[i].value))
    ensures forall i, j ::
      (0 <= i < |rows| && 0 <= j < |rows| &&
       rows[i].registrationTime.Some? && rows[j].registrationTime.Some? &&
       rows[i].registrationTime.value <= rows[j].registrationTime.value) ==>
      RegMonthColumn(rows)[i].value <= RegMonthColumn(rows)[j].value
  {
    var col := RegMonthColumn(rows);
    forall i, j | 0 <= i < |rows| && 0 <= j < |rows| &&
      rows[i].registrationTime.Some? && rows[j].registrationTime.Some? &&
      rows[i].registrationTime.value <= rows[j].registrationTime.value
      ensures col[i].value <= col[j].value
    {
      MonthOrder(rows[i].registrationTime, rows[j].registrationTime);
    }
  }

  /**
   * `deposit_month` is present exactly for the rows with a deposit time,
   * and a later deposit never has an earlier month.
   */
  lemma DepositMonthOrdered(rows: seq<Row>)
    ensures forall i :: 0 <= i < |rows| ==>
      (DepositMonthColumn(rows)[i].Some? <==> rows[i].depositTime.Some?)
    ensures forall i, j ::
      (0 <= i < |rows| && 0 <= j < |rows| &&
       rows[i].depositTime.Some? && rows[j].depositTime.Some? &&
       rows[i].depositTime.value <= rows[j].depositTime.value) ==>
      DepositMonthColumn(rows)[i].value <= DepositMonthColumn(rows)[j].value
  {
    var col := DepositMonthColumn(rows);
    forall i, j | 0 <= i < |rows| && 0 <= j < |rows| &&
      rows[i].depositTime.Some? && rows[j].depositTime.Some? &&
      rows[i].depositTime.value <= rows[j].depositTime.value
      ensures col[i].value <= col[j].value
    {
      MonthOrder(rows[i].depositTime, rows[j].depositTime);
    }
  }

  /**
   * The calendar month never runs backwards: a later day is in the same
   * month or a later one. This is what makes `deposit_month <= target`
   * mean "deposited by the end of the target month".
   */
  lemma MonthMonotone(d1: int, d2: int)
    requires d1 <= d2
    ensures MonthOfDay(d1) <= MonthOfDay(d2)
  {
    var z1, z2 := d1 + 719468, d2 + 719468;
    var era1, era2 := z1 / 146097, z2 / 146097;
    var doe1, doe2 := z1 - era1 * 146097, z2 - era2 * 146097;
    assert era1 <= era2;
    MonthOfDayByEra(d1, era1, doe1);
    MonthOfDayByEra(d2, era2, doe2);
    if era1 == era2 {
      EraMonthMonotone(doe1, doe2);
    } else {
      EraMonthRange(doe1);
      EraMonthRange(doe2);
    }
  }

  /** The month of a later timestamp is never earlier. */
  lemma MonthOrder(t1: Option<int>, t2: Option<int>)
    requires t1.Some? && t2.Some? && t1.value <= t2.value
    ensures Month(t1).value <= Month(t2).value
  {
    assert t1.value / SecondsPerDay <= t2.value / SecondsPerDay;
    MonthMonotone(t1.value / SecondsPerDay, t2.value / SecondsPerDay);
  }

  /** Every day of an era lies within its March-based year, which has at most 366 days. */
  lemma DayOfYearRange(doe: int)
    requires 0 <= doe < 146097
    ensures DaysBeforeYear(YearOfEra(doe)) <= doe <= DaysBeforeYear(YearOfEra(doe)) + 365
  {
    if doe == 146096 {
      assert YearOfEra(doe) == 399;
    } else {
      DayOfYearInCentury(doe, doe / 36524);
    }
  }

  /** `DayOfYearRange` inside century `c` of the era. */
  lemma DayOfYearInCentury(doe: int, c: int)
    requires 0 <= c <= 3 && 36524 * c <= doe < 36524 * (c + 1)
    ensures DaysBeforeYear(YearOfEra(doe)) <= doe <= DaysBeforeYear(YearOfEra(doe)) + 365
  {
    assert doe / 36524 == c;
    assert doe / 146096 == 0;
    var y := YearOfEra(doe);
    assert 100 * c <= y < 100 * c + 100;
    assert y / 100 == c;
  }

  /** The next day is in the same year of the era or the next one. */
  lemma YearStep(doe: int)
    requires 0 <= doe < 146096
    ensures YearOfEra(doe) <= YearOfEra(doe + 1) <= YearOfEra(doe) + 1
  {
    assert doe / 1460 <= (doe + 1) / 1460 <= doe / 1460 + 1;
    assert doe / 36524 <= (doe + 1) / 36524 <= doe / 36524 + 1;
    assert doe / 146096 == 0 && (doe + 1) / 146096 <= 1;
    var n := doe - doe / 1460 + doe / 36524 - doe / 146096;
    var n' := doe + 1 - (doe + 1) / 1460 + (doe + 1) / 36524 - (doe + 1) / 146096;
    assert n <= n' <= n + 2;
    assert n / 365 <= n' / 365 <= n / 365 + 1;
  }

  /** A year of an era has 365 or 366 days. */
  lemma YearLength(y: int)
    requires 0 <= y
    ensures 365 <= DaysBeforeYear(y + 1) - DaysBeforeYear(y) <= 366
  {
    assert y / 4 <= (y + 1) / 4 <= y / 4 + 1;
    assert y / 100 <= (y + 1) / 100 <= y / 100 + 1;
    assert (y + 1) / 100 == y / 100 + 1 ==> (y + 1) / 4 == y / 4 + 1;
  }

  /** Renumbering a March-based month `mp` of year `yoe` of an era as a calendar month. */
  lemma MonthIndex(era: int, yoe: int, mp: int)
    requires 0 <= mp <= 11
    ensures
      var month := if mp < 10 then mp + 3 else mp - 9;
      12 * (yoe + era * 400 + (if month <= 2 then 1 else 0)) + (month - 1)
        == 4800 * era + 12 * yoe + mp + 2
  {
  }

  /** The month number is the era's months plus the months since the era began. */
  lemma MonthOfDayByEra(days: int, era: int, doe: int)
    requires era == (days + 719468) / 146097 && doe == days + 719468 - era * 146097
    ensures MonthOfDay(days) == 4800 * era + MonthOfEra(doe) + 2
  {
    var yoe := YearOfEra(doe);
    DayOfYearRange(doe);
    var mp := (5 * (doe - DaysBeforeYear(yoe)) + 2) / 153;
    MonthIndex(era, yoe, mp);
  }

  /** Inside an era, the next day is in the same month or the next one. */
  lemma EraMonthStep(doe: int)
    requires 0 <= doe < 146096
    ensures MonthOfEra(doe) <= MonthOfEra(doe + 1) <= MonthOfEra(doe) + 1
  {
    var y := YearOfEra(doe);
    var y' := YearOfEra(doe + 1);
    DayOfYearRange(doe);
    DayOfYearRange(doe + 1);
    YearStep(doe);
    YearLength(y);
    var d := doe - DaysBeforeYear(y);
    if y' == y {
      assert MonthOfEra(doe + 1) == 12 * y + (5 * (d + 1) + 2) / 153;
    } else {
      var d' := doe + 1 - DaysBeforeYear(y');
      assert 0 <= d' <= 1;
      assert (5 * d + 2) / 153 == 11;
      assert (5 * d' + 2) / 153 == 0;
    }
  }

  /** An era starts in its month 0 and ends in its month 4799. */
  lemma EraBoundary()
    ensures MonthOfEra(146096) == 4799 && MonthOfEra(0) == 0
  {
    assert 146096 / 1460 == 100 && 146096 / 36524 == 4 && 146096 / 146096 == 1;
    assert 145999 / 365 == 399;
    assert YearOfEra(146096) == 399;
    assert DaysBeforeYear(399) == 145731;
    assert 1827 / 153 == 11;
  }

  lemma {:induction false} EraMonthMonotone(doe1: int, doe2: int)
    requires 0 <= doe1 <= doe2 < 146097
    ensures MonthOfEra(doe1) <= MonthOfEra(doe2)
    decreases doe2 - doe1
  {
    if doe1 < doe2 {
      EraMonthMonotone(doe1, doe2 - 1);
      EraMonthStep(doe2 - 1);
    }
  }

  /** The 4800 months of an era. */
  lemma EraMonthRange(doe: int)
    requires 0 <= doe < 146097
    ensures 0 <= MonthOfEra(doe) <= 4799
  {
    EraMonthMonotone(0, doe);
    EraMonthMonotone(doe, 146096);
    EraBoundary();
  }

  /** 2024-02-29 (day 19782) lies in February 2024. */
  lemma LeapDayMonth()
    ensures MonthOfDay(19782) == 12 * 2024 + 1
  {
    assert 739250 / 146097 == 5;
    assert 8765 / 1460 == 6 && 8765 / 36524 == 0 && 8765 / 146096 == 0;
    assert 8759 / 365 == 23;
    assert 1827 / 153 == 11;
  }

  /** 1969-12-31 (day -1) lies in December 1969. */
  lemma BeforeEpochMonth()
    ensures MonthOfDay(-1) == 12 * 1969 + 11
  {
    assert 719467 / 146097 == 4;
    assert 135079 / 1460 == 92 && 135079 / 36524 == 3 && 135079 / 146096 == 0;
    assert 134990 / 365 == 369;
    assert 1527 / 153 == 9;
  }
}
