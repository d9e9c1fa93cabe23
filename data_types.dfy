/** The records the dashboard loads and derives (src/types/data.ts). */
module DataTypes {

  import opened Wrappers

  /** The value of one of the record columns the dashboard logic never reads. */
  datatype FieldValue = Number(n: real) | Str(s: string) | Null

  /**
   * One ZIP code's row of metrics. The four columns the logic reads are fields of their own;
   * the other columns (appreciation, cap_rate, the `_t` texts, ...) are kept by name in
   * `others` and are only ever carried along.
   */
  datatype ZipRecord = ZipRecord(
    zipCode: string,
    city: string,
    state: string,
    rentGrowth: real,
    others: map<string, FieldValue>)

  datatype FitScoreEntry = FitScoreEntry(zipCode: string, fitScore: real)

  datatype FitScoreData = FitScoreData(fitScoreOverall: real, fScores: seq<FitScoreEntry>)

  /** A point of the chart data file (the chart panel plots table rows instead). */
  datatype TableChartPoint = TableChartPoint(
    zipCode: string,
    state: string,
    city: string,
    rentGrowth: real,
    appreciation: real,
    capRate: real)

  /** A ZIP record extended with its fit score, `None` standing for `null`. */
  datatype TableRow = TableRow(record: ZipRecord, fitScore: Option<real>)

  datatype KpiSummary = KpiSummary(rentGrowthAvg: real, fitScoreOverall: real, overall: real)
}
