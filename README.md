# Funnel metrics engine

A Dafny model of the analysis engine of FunnelAnalyzerApp (`utils.py`). The app is a
dashboard for the conversion funnel of a gambling product. Every user row carries up to
four timestamps: registration, first deposit, first bet and second deposit. It also
carries three segment attributes: traffic source, country and device. The engine has
these parts:

- **Frame preparation.** `FunnelAnalyzer(df)` copies the table and prepares the copy
  (`prepare_data`). Preparing adds a flag per reached stage and the hours spent on each
  leg between adjacent stages.
- **Funnel metrics** (`calculate_funnel_metrics`):
  - stage counts;
  - four conversion percentages, each exactly 0 when its denominator is 0;
  - three mean durations in hours, each taken over the rows where both timestamps of
    its leg are present.
- **Segment analysis** (`analyze_by_segments`): one table per segment column, with one
  line per distinct non-missing value in first-seen order. Each line holds that
  subset's size and conversions.
- **Daily metrics** (`calculate_daily_metrics`): one line per calendar day of
  registration, sorted by date. Running it writes `reg_date` into the frame it works on.
- **Anomaly detection** (`detect_anomalies`) works on the daily series. It reports:
  - day-over-day relative swings of the deposit conversion above a threshold;
  - on a series of at least seven days, days whose registrations fall more than two
    sample standard deviations below the mean.
- **Cohort retention** (`calculate_cohort_analysis`): for each registration month, six
  lines for periods 0..5. Each line counts the users who deposited no later than the
  registration month plus the period.
- **Report recommendations:** the rule at the end of the PDF report.

Modelling choices:

- **Tables and timestamps.** A table is a `seq<Row>`. Timestamps are `Option<int>`
  seconds since the Unix epoch, with `None` for a missing or unparsable value (what
  `pd.to_datetime(errors='coerce')` produces). Categorical values are
  `Option<string>`.
- **Days and months.** A day is `floor(t / 86400)`. A month is the index
  `12 * year + (month - 1)` of the proleptic Gregorian calendar.
- **Percentages and hours** are `real`, which is exact rational arithmetic. A pandas
  mean over no value (NaN) is `None`.
- **Frames** are a `Frame` class (`frames.dfy`). Its raw rows are fixed, and it has
  optional derived columns that the engine fills in place. `Frame.Valid` says that
  every derived column present holds what its definition computes.
- **Methods and spec functions.** The analyser (`analyzer.dfy`), `DetectAnomalies`
  and `CalculateCohortAnalysis` are methods with the source's loops. Each is proved
  equal to a specification function:
  - `FunnelMetrics`;
  - `AllSegments`;
  - `DailyMetrics`;
  - `AnomaliesFor`;
  - `CohortAnalysis`.

  The lemmas prove the promised properties about those functions.
- **Anomaly reports** are values (`ConversionShift`, `LowRegistrations`), not formatted
  strings. **Recommendations** are the values of the `Recommendation` datatype.

## Model

| member | source | states |
|---|---|---|
| Frames.Frame.constructor | utils.py:96-97 | a frame holding only the raw table, with no derived column yet, is consistent |
| Frames.Frame.Copy | utils.py:97 | `df.copy()`: same raw rows and same derived columns; a copy of a consistent frame is consistent |
| Analyzer.FunnelAnalyzer.constructor | utils.py:96-98 | the analyser owns a fresh copy of the caller's frame, with the same rows and added columns, and the copy is prepared and consistent |
| Analyzer.FunnelAnalyzer.PrepareData | utils.py:100-124 | the own frame gets the prepared columns of its rows, and the other derived columns are unchanged |
| Funnel.Prepare | utils.py:108-124 | each prepared row flags exactly the stages whose timestamp is present; each duration is present exactly when both timestamps of its leg are, and is their difference in hours |
| Funnel.Hours | utils.py:114-124 | a duration is missing exactly when either timestamp is; otherwise 3600 times the duration equals the difference in seconds |
| Funnel.Mean | utils.py:170-172 | `Series.mean()` is NaN exactly when every entry is missing |
| Funnel.Percent | utils.py:164-167 | denominator 0 gives exactly 0; otherwise the percentage times the denominator equals 100 times the numerator; never negative; at most 100 when the numerator does not exceed the denominator |
| Funnel.FunnelMetrics | utils.py:126-192 | registrations is the row count; every stage count is at most the registrations; each conversion is the zero-guarded percentage of its own pair of counts (deposits of registrations, first bets of deposits, second deposits of first bets, second deposits of registrations); regToDeposit and overall lie in [0, 100]; the other two conversions are non-negative |
| Analyzer.FunnelAnalyzer.CalculateFunnelMetrics | utils.py:126-192 | with no frame passed, the result is read off the own prepared copy; with a frame passed, off a freshly prepared copy of it; both equal `FunnelMetrics` of the rows, and the caller's frame is left untouched |
| Funnel.StageCountIsReachedUsers | utils.py:158-161 | each stage count is the number of users whose timestamp for that stage is present |
| Funnel.StageMaskIsReachedMask | utils.py:109-111 | the prepared flag column of a stage is the `notna()` mask of that stage's timestamp column |
| Funnel.NestedFunnelBounds | utils.py:158-167 | when every user's stages are nested, the counts shrink along the funnel; every conversion is at most 100; overall never exceeds regToDeposit |
| Funnel.PercentMonotone | utils.py:164-167 | for a fixed denominator, a larger numerator never gives a smaller percentage |
| Funnel.EmptyTableMetrics | utils.py:158-172 | the empty table gives all counts 0, all conversions 0 and every average NaN |
| Funnel.AverageDefinedIffQualifying | utils.py:145-155 | an average is NaN exactly when no row has both timestamps of its leg |
| Funnel.AverageOverQualifyingRows | utils.py:145-155 | a defined average is the total seconds of the qualifying rows, over 3600, divided by their number; negative spans count as they are |
| Funnel.MetricsOf | utils.py:158-172 | read off a prepared frame: registrations is its number of rows, no stage count exceeds it, each conversion is the zero-guarded percentage of its own pair of counts, and regToDeposit and overall lie in [0, 100] |
| Funnel.LegSum | utils.py:145-155 | the present durations of a leg add up to its total seconds over 3600 |
| Funnel.LegCount | utils.py:145-155 | the present durations of a leg are exactly the qualifying rows |
| Funnel.LegSecondsBounds | utils.py:145-155 | when every qualifying span lies in [lo, hi], the total lies between count times lo and count times hi |
| Funnel.AverageWithinBounds | utils.py:170-172 | a defined average lies between the smallest and the largest span that went into it, in hours |
| Funnel.MeanBounds | utils.py:170-172 | a mean of spans totalling between k times lo and k times hi lies between lo and hi hours |
| Funnel.OrderedTimesNonNegativeAverage | utils.py:145-155 | when timestamps are in funnel order on every qualifying row, the average duration is non-negative |
| Funnel.MaxSpan | utils.py:145-155 | an upper bound on every qualifying span of a leg |
| Funnel.ReachedCount | utils.py:503 | summing the `notna()` mask of a stage counts exactly the users whose timestamp for that stage is present |
| Table.Day | utils.py:310 | `.dt.date`: a day is present exactly when the timestamp is, and the timestamp lies within that day |
| Table.Month | utils.py:551-552 | `.dt.to_period('M')`: a month is present exactly when the timestamp is |
| Table.MonthMonotone | utils.py:551-552 | the calendar month never runs backwards: a later day is in the same month or a later one |
| Table.MonthOrder | utils.py:566-569 | a later timestamp never has an earlier month, so comparing months keeps the order of the instants |
| Table.EraMonthStep | utils.py:551-552 | within a 400-year era, the next day is in the same month or the next one |
| Table.DayColumnOrdered | utils.py:310 | `reg_date` is present exactly for the rows with a registration time; each registration lies within its day; a later registration never has an earlier day |
| Table.RegMonthOrdered | utils.py:551 | `reg_month` is present exactly for the rows with a registration time, is the month of that row's `reg_date`, and a later registration never has an earlier month |
| Table.DepositMonthOrdered | utils.py:552 | `deposit_month` is present exactly for the rows with a deposit time, and a later deposit never has an earlier month |
| Table.LeapDayMonth | utils.py:551 | 29 February 2024 is in February 2024 |
| Table.BeforeEpochMonth | utils.py:551 | the last day before the epoch is in December 1969 |
| Columns.Unique | utils.py:285 | `unique()`: every value of the column, each exactly once, and nothing else |
| Columns.UniqueFirstSeen | utils.py:285 | `unique()` lists the values in the order of their first appearance in the column |
| Columns.SomesFirstSeen | utils.py:285-287 | after `unique()`, skipping the missing value keeps the present values in the order of their first appearance; the day loop (313-315) and the month loop (556-558) iterate this way |
| Columns.Somes | utils.py:286-287 | skipping `pd.isna` values keeps exactly the present values and keeps them distinct |
| Columns.Select | utils.py:289 | `df[mask]` has as many rows as the mask has `True` entries, and every row it holds comes from the table |
| Columns.SelectMembers | utils.py:289 | a row is in `df[mask]` exactly when it stands at a position the mask keeps |
| Columns.Where | utils.py:289 | `df[df[c] == v]` has as many rows as the column has entries equal to `v` |
| Columns.WhereMembers | utils.py:289 | `df[df[c] == v]` holds exactly the rows whose entry in `c` is `v` |
| Columns.CountTrue | utils.py:159-161 | `len(df[mask])` never exceeds the table size |
| Columns.Sort | utils.py:496 | `sorted`: ascending, and a permutation of its input |
| Columns.Partition | utils.py:278-300 | the group sizes over the distinct present values add up to the number of present entries |
| Columns.CountTrueMonotone | utils.py:566-569 | a mask that implies another selects at most as many rows |
| Segments.SegmentValues | utils.py:285-287 | the segment values are distinct and are exactly the present values of the column |
| Segments.SegmentUsersMembers | utils.py:289 | a user is in the subset of value `v` exactly when it is a row of the table whose attribute is `v` |
| Segments.SegmentRowFor | utils.py:289-298 | the line of a value carries that value, and its users count is the number of rows holding it |
| Segments.SegmentRows | utils.py:289-300 | one line per value, in order; line `i` carries the `i`-th value and the number of rows holding it |
| Analyzer.FunnelAnalyzer.AnalyzeBySegments | utils.py:273-302 | the dictionary built by the loop equals `AllSegments` of the frame worked on |
| Analyzer.FunnelAnalyzer.SegmentLines | utils.py:284-300 | the inner loop yields the segment table of one column |
| Analyzer.FunnelAnalyzer.SegmentLine | utils.py:289-300 | one pass of the inner loop: the line of a value carries that value, the size of its subset and the conversions of the subset's funnel metrics |
| Segments.SegmentMapLookup | utils.py:280-300 | after the loop, the dictionary holds exactly the visited columns, each mapped to its segment table |
| Segments.AllSegmentsByDimension | utils.py:280-302 | traffic source, country and device each map to their own segment table |
| Segments.SegmentTableLines | utils.py:284-300 | lines have distinct values; the values are exactly the present values; each line's users count is positive and equals the size of that value's subset |
| Segments.SegmentConversionBounds | utils.py:290-298 | a segment line's conversions are non-negative, and regToDeposit and overall are at most 100 |
| Segments.TotalUsersIsSumCounts | utils.py:292-294 | summing users over lines sums the group sizes of their values |
| Segments.TotalUsersOfGroups | utils.py:292-294 | lines that each count the users of their own value add up to the group sizes of the values |
| Segments.SegmentsPartitionUsers | utils.py:278-300 | the users of a segment table add up to the number of rows with that attribute present |
| Segments.EmptySegmentTable | utils.py:284-287 | a segment table is empty exactly when no row has that attribute |
| Segments.SingleSegment | utils.py:284-300 | when all rows share one value, the table is a single line with the whole table's size and conversions |
| Analyzer.FunnelAnalyzer.CalculateDailyMetrics | utils.py:304-328 | writes `reg_date` into the frame it works on (the own copy or the caller's) and leaves its other columns as they were; the result equals `DailyMetrics` of its rows |
| Analyzer.FunnelAnalyzer.DailyLines | utils.py:313-326 | the day loop yields the line of each present day of the list it walks, in that list's order, skipping the missing date |
| Analyzer.FunnelAnalyzer.DayLine | utils.py:318-326 | one pass of the day loop: the line of a day carries the date and the counts and conversions of that day's funnel metrics |
| Daily.DailyRowFor | utils.py:317-326 | the line of a day carries that date; its registrations are the number of users registered that day; its deposits never exceed them; its regToDeposit is the zero-guarded percentage of the two |
| Daily.DailyRows | utils.py:319-326 | one line per day, in order; line `i` carries the `i`-th day and the number of users registered on it |
| Daily.SeenDays | utils.py:313-315 | the days present, each once |
| Daily.DatedDays | utils.py:313-328 | the days present, strictly ascending |
| Daily.SortByDate | utils.py:328 | `sort_values('date')` returns a permutation of the lines |
| Daily.InsertCommutes | utils.py:328 | inserting a day's line by date is inserting the day |
| Daily.SortCommutes | utils.py:328 | sorting the lines by date gives the lines of the sorted days |
| Daily.DailyTableByDate | utils.py:304-328 | the daily table is the lines of the present days in ascending order |
| Daily.DailyDates | utils.py:304-328 | dates strictly increase down the table, and a date occurs exactly when some user registered that day |
| Daily.TotalIsSumCounts | utils.py:319-326 | summing registrations over lines sums the group sizes of the days |
| Daily.DailyRegistrationsAddUp | utils.py:304-328 | daily registrations add up to the number of users with a registration date |
| Daily.DailyLineBounds | utils.py:319-326 | on each day, deposits never exceed registrations, and both conversions lie in [0, 100] |
| Daily.AsWrittenFailsWithoutDates | utils.py:328 | the code as written fails exactly when no user has a registration date |
| Daily.AsWrittenFailsOnEmptyTable | utils.py:328 | the empty table makes the code as written fail |
| Daily.CorrectedDailyMetrics | utils.py:304-328 | the corrected table agrees with the code wherever the code succeeds, and is empty exactly where it fails |
| Anomalies.DayStatFor | utils.py:499-512 | the entry of a day carries that date; its registrations are the number of users registered that day; its deposits never exceed them; its rate is the zero-guarded percentage of the two |
| Anomalies.Series | utils.py:496-512 | one entry per day, in order; entry `i` carries the `i`-th day and the number of users registered on it |
| Anomalies.DetectAnomalies | utils.py:488-546 | writes `reg_date` into the caller's frame and leaves its other columns as they were; the result equals `AnomaliesFor` of its rows |
| Anomalies.DailyStats | utils.py:496-512 | the loop builds the daily series of the sorted days |
| Anomalies.ShiftReports | utils.py:520-532 | the loop yields the conversion reports of days 1 onwards |
| Anomalies.VolumeReports | utils.py:535-544 | the loop yields the volume reports, given the mean and the sample variance |
| Anomalies.SeriesReports | utils.py:516-546 | fewer than two days give no report; otherwise the conversion reports come first, then, on at least seven days, the volume reports; the list equals `AnomaliesOf` of the series |
| Anomalies.ShiftAt | utils.py:524-532 | a shift report carries the day's date; it says "fell" exactly when the rate dropped; its magnitude exceeds the threshold times 100, and times the previous rate it equals 100 times the absolute move of the rate |
| Anomalies.ChangeMagnitude | utils.py:527-530 | `abs(change) * 100` is the absolute move of the rate as a percentage of the previous rate |
| Anomalies.FallIffNegativeChange | utils.py:528 | the relative change is negative exactly when the rate fell |
| Anomalies.ShiftsExactly | utils.py:520-532 | the conversion reports are exactly the reports of the days whose previous rate is positive and whose relative change in absolute value exceeds the threshold |
| Anomalies.VolumesExactly | utils.py:539-544 | the volume reports are exactly the reports of the days below the two-sigma bound |
| Anomalies.ShiftReported | utils.py:516-532 | on distinct days, a day gets a conversion report exactly when it is a shift |
| Anomalies.LowVolumeReported | utils.py:535-544 | on at least seven distinct days, a day gets a volume report exactly when its registrations are below mean minus two sample deviations |
| Anomalies.NoVolumeCheckOnShortSeries | utils.py:535 | with fewer than seven days, only conversion reports occur |
| Anomalies.ShiftsOrdered | utils.py:520-532 | the conversion reports follow strictly increasing dates |
| Anomalies.VolumesOrdered | utils.py:539-544 | the volume reports follow strictly increasing dates |
| Anomalies.ReportOrder | utils.py:516-546 | all conversion reports come before all volume reports, and each kind follows increasing dates |
| Anomalies.TwoSigmaTest | utils.py:537-540 | for a non-negative deviation, `x < mean - 2 * std` holds exactly when the squared test on the variance does |
| Anomalies.SquareMonotone | utils.py:540 | squaring keeps the order of non-negative reals |
| Anomalies.SumOfConstant | utils.py:536 | a series with constant registrations c sums to its length times c |
| Anomalies.SteadyVolumeNeverLow | utils.py:535-544 | a constant registration series gets no volume report |
| Anomalies.NothingLowNoVolumes | utils.py:539-544 | with no day below the bound, there is no volume report |
| Anomalies.SteadyConversionNoShift | utils.py:520-532 | a constant conversion rate gets no conversion report |
| Anomalies.DailySeriesDates | utils.py:496-512 | the series' dates strictly increase, and each is a present registration day |
| Anomalies.SeriesMatchesDailyTable | utils.py:496-512 | the anomaly series matches the daily table line by line: date, registrations, deposits, and rate equal to regToDeposit |
| Cohorts.RetainedMask | utils.py:566-569 | `(m == t) \| (m < t)` holds exactly for a present month no later than the target |
| Cohorts.CohortRowFor | utils.py:560-576 | the line of a cohort and a period carries both; users is the number of rows registered in that month; retained never exceeds users; the rate is the zero-guarded percentage of the two |
| Cohorts.CohortBlock | utils.py:563-577 | six lines per cohort; line `p` is period `p` of that cohort with the cohort's size; retained never decreases from a period to a later one |
| Cohorts.CohortMonths | utils.py:556-558 | the cohort months are distinct and are exactly the present registration months |
| Cohorts.CalculateCohortAnalysis | utils.py:548-579 | writes `reg_month` and `deposit_month` into the caller's frame and leaves its other columns as they were; the result equals `CohortAnalysis` of its rows |
| Cohorts.CohortLoop | utils.py:556-577 | the month loop yields the block of each present month of the list it walks, in that list's order, skipping the missing month |
| Cohorts.CohortLines | utils.py:563-577 | the period loop yields one cohort's block |
| Cohorts.CohortLine | utils.py:564-576 | one pass of the period loop: the line of a cohort and a period counts the cohort's users deposited by the target month |
| Cohorts.SelectColumn | utils.py:560 | the deposit months of a cohort are the cohort's entries of the deposit-month column |
| Columns.MapSelect | utils.py:560 | deriving a column and then filtering rows gives the same as filtering the derived column with the same mask |
| Cohorts.CohortLayout | utils.py:556-577 | the table has six lines per cohort month, and line `6k + p` is period `p` of the k-th month |
| Cohorts.CohortLineBounds | utils.py:563-576 | in a present cohort, users is positive, retained is at most users, and the rate lies in [0, 100] |
| Cohorts.RetentionNonDecreasing | utils.py:563-576 | retained users and rate never decrease with the period |
| Cohorts.CohortSizesAreSumCounts | utils.py:574 | the cohort sizes add up to the group sizes of the months |
| Cohorts.CohortsPartitionUsers | utils.py:556-574 | every user with a registration month is in exactly one cohort |
| Recommendations.Recommend | utils.py:457-470 | each of the three recommendations appears exactly when its conversion is below its threshold (20, 80, 30); "all normal" appears exactly when none is, and then alone; recommendations are never empty and never repeated |
| Recommendations.EmptyTableRecommendations | utils.py:457-470 | an empty table gets all three recommendations |
| Scenarios.ReportFixtureCounts | test_english_report.py:12-20 | the report table counts 5, 3, 2, 1 users along the funnel |
| Scenarios.ReportFixtureConversions | test_english_report.py:12-20 | its conversions are 60, 200/3, 50 and 20 percent |
| Scenarios.ReportFixtureRecommendations | test_english_report.py:12-20 | its report recommends only reviewing the betting flow |
| Scenarios.ConversionFallReported | utils.py:520-532 | a rate that falls from 50 to 10 is reported as a fall of 80% at threshold 0.5 |
| Scenarios.RiseFromZeroNotReported | utils.py:524 | a day after a zero rate is never compared |
| Scenarios.LastDayLowVolume | utils.py:535-544 | a week ending in a day of 1 registration, after six days of 10, reports that day |

## Left out

- Charts (`create_funnel_chart`, `create_sankey_chart`), the PDF layout of `generate_pdf_report` and font registration: they only produce figures and documents. Only the recommendation rule of the report is modelled.
- The Streamlit app, mock data generation, font download and the launcher script: UI, randomness, network and process control.
- Parsing of timestamps: `pd.to_datetime(errors='coerce')` is taken as already done; timestamps are whole seconds, so sub-second precision is not modelled.
- Floating point: percentages, hours, means and the variance are exact reals.
- The `has_registration` flag and the `user_id` column: the engine never reads them.
- Anomalies.DetectAnomalies: the model agrees with the source only when the registration times are all present or all missing. When both occur, `sorted(df['reg_date'].unique())` compares the missing date with real dates: current pandas raises `TypeError` there, and older pandas, where such comparisons are false, can leave the days out of order. The model drops the missing date and sorts the present days.
- Anomalies.TwoSigmaTest: the standard deviation is never computed; the test is made on its square, and this lemma proves both agree for any non-negative square root.
- Anomalies.ShiftAt: reports are values; the message text, the `.1f` rounding and the date formatting are not modelled.
- Cohorts.CalculateCohortAnalysis: the cohort label is the month index, not the string `str(reg_month)`.
- Cohorts.CohortLineBounds: the rate is computed with the zero-guarded percentage, whereas the source divides directly; the divisor is never zero because a cohort exists only when one of its users has that month, which this lemma proves.
- Analyzer.FunnelAnalyzer.CalculateFunnelMetrics: the prepared copy of a frame that was already prepared gives the same columns again, so re-preparing a subset of the own frame is not distinguished from reading its columns.
- Analyzer.FunnelAnalyzer.CalculateDailyMetrics: it follows the corrected daily table; with no dated user it returns the empty table instead of failing (see Findings).
- Pandas data-frame and dictionary containers: the results are sequences of line records and a map.

## Findings

| source | as written | input that shows it | evidently intended | confidence | as-written member | corrected member |
|---|---|---|---|---|---|---|
| utils.py:328 | `pd.DataFrame(daily_stats).sort_values('date')` sorts a frame built from the collected lines; with no line it has no `date` column and raises `KeyError` | an empty table, or any table where no user has a registration time | an empty daily table, which the caller tests with `.empty` (app.py:287-289) | not executed | Daily.AsWrittenFailsOnEmptyTable | Daily.CorrectedDailyMetrics |
