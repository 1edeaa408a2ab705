/**
 * The shape of a `runReport` result as the processing functions read it,
 * and JavaScript's `parseInt`/`parseFloat` on the numeric text of a metric.
 */
module Report {
  import opened Wrappers

  /**
   * A metric cell: the number its `value` text spells, or None when the cell
   * has no `value` or the text is empty (both are falsy, so `|| 0` applies).
   */
  type Cell = Option<real>

  /**
   * One report row. Either array may be missing from the row (None); inside
   * `dimensionValues` each entry is the `value` text of that dimension.
   */
  datatype Row = Row(dims: Option<seq<string>>, metrics: Option<seq<Cell>>)

  /**
   * `response.data`: the rows (None when the field is absent) and the length
   * of `dateRanges` (0 when that field is absent).
   */
  datatype ReportData = ReportData(rows: Option<seq<Row>>, rangeCount: nat)

  /** What the fetch wrapper returns: `{ success: false, ... }` or `{ success: true, data }`. */
  datatype Response = Failure | Success(data: ReportData)

  /** The rows the processing functions work on: None on failure or when `rows` is absent. */
  function RowsOf(response: Response): (rows: Option<seq<Row>>)
    ensures rows.Some? <==> response.Success? && response.data.rows.Some?
    ensures rows.Some? ==> rows.value == response.data.rows.value
  {
    if response.Failure? then None else response.data.rows
  }

  /** `parseInt` of a number's text: the integer part, truncated toward zero. */
  function Trunc(x: real): (n: int)
    ensures 0.0 <= x ==> 0 <= n && n as real <= x < n as real + 1.0
    ensures x < 0.0 ==> n <= 0 && n as real - 1.0 < x <= n as real
  {
    if x >= 0.0 then x.Floor else -((-x).Floor)
  }

  /** `cells[i]?.value || 0` read as a number: 0 for a missing cell or an empty value. */
  function CellOrZero(cells: seq<Cell>, i: nat): (x: real)
    ensures i < |cells| && cells[i].Some? ==> x == cells[i].value
    ensures i >= |cells| || cells[i].None? ==> x == 0.0
  {
    if i < |cells| then cells[i].GetOr(0.0) else 0.0
  }

  /** `dims[i]?.value || fallback`: the text, unless it is missing or empty. */
  function DimOr(dims: seq<string>, i: nat, fallback: string): (s: string)
    ensures i < |dims| && dims[i] != "" ==> s == dims[i]
    ensures i >= |dims| || dims[i] == "" ==> s == fallback
  {
    if i < |dims| && dims[i] != "" then dims[i] else fallback
  }
}
