/**
  One row of the job's tabular data (a pandas DataFrame row, and a row of the
  warehouse table). The four key columns are always present; a metric column
  that a row lacks is absent from `metrics` (pandas shows it as NaN, the
  warehouse as NULL).
 */
module Frame {

  /** A metric cell: a parsed float, or an integer once the sink has coerced it. */
  datatype Metric = Float(x: real) | Int(n: int)

  datatype Row = Row(accountId: string, date: string, domain: string, country: string,
                     metrics: map<string, Metric>)
}
