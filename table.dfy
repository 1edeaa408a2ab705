/**
 * `processTableData`: every report row becomes a fixed-shape record for the
 * top-pages or traffic-sources table, and the first 20 records are kept.
 */
module Table {
  import opened Wrappers
  import opened Report

  /** The record for one row; `Undefined` is what the map callback returns for any other table type. */
  datatype Entry =
    | Page(page: string, title: string, pageviews: int, sessions: int, users: int,
           bounceRate: real, avgDuration: real)
    | Source(source: string, medium: string, sessions: int, users: int, pageviews: int,
             bounceRate: real)
    | Undefined

  /** The table keeps at most this many records. */
  const Limit: nat := 20

  /**
   * The map callback on one row. For the two known types a row without
   * `dimensionValues` or `metricValues` throws a TypeError.
   */
  function EntryOf(row: Row, kind: string): Result<Entry> {
    if kind == "pages" then
      if row.dims.None? || row.metrics.None? then Err(TypeError)
      else
        var dims := row.dims.value;
        var cells := row.metrics.value;
        Ok(Page(DimOr(dims, 1, "(not set)"), DimOr(dims, 0, "(not set)"),
                Trunc(CellOrZero(cells, 0)), Trunc(CellOrZero(cells, 1)), Trunc(CellOrZero(cells, 2)),
                CellOrZero(cells, 3), CellOrZero(cells, 4)))
    else if kind == "sources" then
      if row.dims.None? || row.metrics.None? then Err(TypeError)
      else
        var dims := row.dims.value;
        var cells := row.metrics.value;
        Ok(Source(DimOr(dims, 0, "(direct)"), DimOr(dims, 1, "(none)"),
                  Trunc(CellOrZero(cells, 0)), Trunc(CellOrZero(cells, 1)), Trunc(CellOrZero(cells, 2)),
                  CellOrZero(cells, 3)))
    else Ok(Undefined)
  }

  /** `rows.map(callback)`: the records in row order, or the first row's TypeError. */
  function MapRows(rows: seq<Row>, kind: string): (r: Result<seq<Entry>>)
    ensures r.Err? <==> exists j :: 0 <= j < |rows| && EntryOf(rows[j], kind).Err?
    ensures r.Err? ==> r.error == TypeError
    ensures r.Ok? ==> |r.value| == |rows| && forall j :: 0 <= j < |rows| ==> EntryOf(rows[j], kind) == Ok(r.value[j])
  {
    if rows == [] then Ok([])
    else
      match EntryOf(rows[0], kind)
      case Err(e) => Err(e)
      case Ok(entry) =>
        match MapRows(rows[1..], kind)
        case Err(e) => Err(e)
        case Ok(rest) => Ok([entry] + rest)
  }

  /** `processTableData(response, type)`. */
  function ProcessTableData(response: Response, kind: string): (r: Result<seq<Entry>>)
    ensures RowsOf(response).None? ==> r == Ok([])
    ensures r.Err? ==> r.error == TypeError
  {
    match RowsOf(response)
    case None => Ok([])
    case Some(rows) =>
      match MapRows(rows, kind)
      case Err(e) => Err(e)
      case Ok(entries) => Ok(if |entries| <= Limit then entries else entries[..Limit])
  }

  /**
   * The records are those of the first min(n, 20) rows, in row order, one
   * per row.
   */
  lemma TableRows(response: Response, kind: string)
    requires RowsOf(response).Some? && ProcessTableData(response, kind).Ok?
    ensures var rows := RowsOf(response).value;
      var entries := ProcessTableData(response, kind).value;
      && |entries| == (if |rows| <= Limit then |rows| else Limit)
      && forall j :: 0 <= j < |entries| ==> EntryOf(rows[j], kind) == Ok(entries[j])
  {
  }

  /**
   * Every row is mapped before the slice, so a row without dimensions or
   * metrics throws even when it lies beyond the first 20; other types never
   * throw.
   */
  lemma TableThrows(response: Response, kind: string)
    requires RowsOf(response).Some?
    ensures var rows := RowsOf(response).value;
      ProcessTableData(response, kind).Err? <==>
        (kind == "pages" || kind == "sources")
        && exists j :: 0 <= j < |rows| && (rows[j].dims.None? || rows[j].metrics.None?)
  {
    var rows := RowsOf(response).value;
    if ProcessTableData(response, kind).Err? {
      var j :| 0 <= j < |rows| && EntryOf(rows[j], kind).Err?;
    }
  }

  /**
   * A pages record: the page is dimension 1 and the title dimension 0, each
   * "(not set)" when missing or empty; the numbers are metrics 0 to 4.
   */
  lemma PageEntry(row: Row)
    requires row.dims.Some? && row.metrics.Some?
    ensures var dims := row.dims.value;
      var cells := row.metrics.value;
      EntryOf(row, "pages").Ok? && EntryOf(row, "pages").value.Page?
      && var e := EntryOf(row, "pages").value;
      && (if |dims| > 1 && dims[1] != "" then e.page == dims[1] else e.page == "(not set)")
      && (if |dims| > 0 && dims[0] != "" then e.title == dims[0] else e.title == "(not set)")
      && e.pageviews == Trunc(CellOrZero(cells, 0))
      && e.sessions == Trunc(CellOrZero(cells, 1))
      && e.users == Trunc(CellOrZero(cells, 2))
      && e.bounceRate == CellOrZero(cells, 3)
      && e.avgDuration == CellOrZero(cells, 4)
  {
  }

  /**
   * A sources record: the source is dimension 0, defaulting to "(direct)",
   * and the medium dimension 1, defaulting to "(none)"; the numbers are
   * metrics 0 to 3.
   */
  lemma SourceEntry(row: Row)
    requires row.dims.Some? && row.metrics.Some?
    ensures var dims := row.dims.value;
      EntryOf(row, "sources").Ok? && EntryOf(row, "sources").value.Source?
      && var e := EntryOf(row, "sources").value;
      && (if |dims| > 0 && dims[0] != "" then e.source == dims[0] else e.source == "(direct)")
      && (if |dims| > 1 && dims[1] != "" then e.medium == dims[1] else e.medium == "(none)")
      && e.sessions == Trunc(CellOrZero(row.metrics.value, 0))
      && e.users == Trunc(CellOrZero(row.metrics.value, 1))
      && e.pageviews == Trunc(CellOrZero(row.metrics.value, 2))
      && e.bounceRate == CellOrZero(row.metrics.value, 3)
  {
  }

  /** Any other type gives one `undefined` per row, still cut to 20. */
  lemma OtherKindEntries(response: Response, kind: string)
    requires RowsOf(response).Some? && kind != "pages" && kind != "sources"
    ensures ProcessTableData(response, kind).Ok?
    ensures forall e :: e in ProcessTableData(response, kind).value ==> e == Undefined
  {
  }
}
