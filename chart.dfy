/**
 * `processChartData`: rows of (date; sessions, page views) are filed by date
 * into a current and a previous Map, then read out under the sorted dates.
 */
module Chart {
  import opened Wrappers
  import opened Report
  import StringSort

  /** The `{ sessions, pageviews }` value stored per date. */
  datatype Point = Point(sessions: int, pageviews: int)

  /** The object `processChartData` returns; a previous series is None where the source gives `null`. */
  datatype ChartData = ChartData(
    labels: seq<string>,
    sessions: seq<int>,
    pageviews: seq<int>,
    previousSessions: Option<seq<int>>,
    previousPageviews: Option<seq<int>>)

  /** A JavaScript `Map` from strings: its keys in insertion order and the entry per key. */
  class JsMap {
    var keys: seq<string>
    var entries: map<string, Point>

    /** Every key is listed once in the insertion order, and the listed keys are exactly those with an entry. */
    ghost predicate Valid()
      reads this
    {
      StringSort.Distinct(keys) && forall k :: k in keys <==> k in entries
    }

    /** `new Map()`. */
    constructor ()
      ensures Valid()
      ensures keys == [] && entries == map[]
    {
      keys := [];
      entries := map[];
    }

    /** `get(k)`: the entry, or None (`undefined`) for a key that `keys()` does not list. */
    function Get(k: string): (p: Option<Point>)
      requires Valid()
      reads this
      ensures p.Some? <==> k in keys
      ensures p.Some? ==> p.value == entries[k]
    {
      if k in entries then Some(entries[k]) else None
    }

    /** `set(k, v)`: overwrite the entry; a new key goes to the end of the key order. */
    method Set(k: string, v: Point)
      requires Valid()
      modifies this
      ensures Valid()
      ensures entries == old(entries)[k := v]
      ensures keys == if k in old(entries) then old(keys) else old(keys) + [k]
    {
      if k !in entries {
        keys := keys + [k];
      }
      entries := entries[k := v];
    }
  }

  /**
   * A row the loop can read: `dimensionValues[0]`, `metricValues[0]` and
   * `metricValues[1]` all exist; otherwise reading `.value` throws a TypeError.
   */
  predicate Readable(row: Row) {
    row.dims.Some? && |row.dims.value| >= 1 && row.metrics.Some? && |row.metrics.value| >= 2
  }

  predicate AllReadable(rows: seq<Row>) {
    forall j :: 0 <= j < |rows| ==> Readable(rows[j])
  }

  function DateOf(row: Row): string
    requires Readable(row)
  {
    row.dims.value[0]
  }

  /** `parseInt(row.metricValues[k].value || 0)` for the two metrics. */
  function PointOf(row: Row): Point
    requires Readable(row)
  {
    Point(Trunc(CellOrZero(row.metrics.value, 0)), Trunc(CellOrZero(row.metrics.value, 1)))
  }

  /** The entries a Map holds after `set` of each row in turn: the later row for a date wins. */
  function Buckets(rows: seq<Row>): map<string, Point>
    requires AllReadable(rows)
  {
    if rows == [] then map[]
    else
      var last := rows[|rows| - 1];
      Buckets(rows[..|rows| - 1])[DateOf(last) := PointOf(last)]
  }

  /** The keys of that Map in insertion order: each date where it first occurs. */
  function DateOrder(rows: seq<Row>): seq<string>
    requires AllReadable(rows)
  {
    if rows == [] then []
    else
      var init := rows[..|rows| - 1];
      var date := DateOf(rows[|rows| - 1]);
      DateOrder(init) + if date in Buckets(init) then [] else [date]
  }

  /** `sortedDates.map(date => map.get(date)?.<metric> || 0)`, for sessions and page views. */
  function SessionSeries(labels: seq<string>, m: map<string, Point>): (s: seq<int>)
    ensures |s| == |labels|
  {
    seq(|labels|, i requires 0 <= i < |labels| => if labels[i] in m then m[labels[i]].sessions else 0)
  }

  function PageviewSeries(labels: seq<string>, m: map<string, Point>): (s: seq<int>)
    ensures |s| == |labels|
  {
    seq(|labels|, i requires 0 <= i < |labels| => if labels[i] in m then m[labels[i]].pageviews else 0)
  }

  /** `labels.map(date => m.get(date)?.sessions || 0)`: the session series read through `get`. */
  function ReadSessions(labels: seq<string>, m: JsMap): (s: seq<int>)
    requires m.Valid()
    reads m
    ensures s == SessionSeries(labels, m.entries)
  {
    seq(|labels|, i requires 0 <= i < |labels| && m.Valid() reads m =>
      match m.Get(labels[i])
      case Some(p) => p.sessions
      case None => 0)
  }

  /** `labels.map(date => m.get(date)?.pageviews || 0)`: the page-view series read through `get`. */
  function ReadPageviews(labels: seq<string>, m: JsMap): (s: seq<int>)
    requires m.Valid()
    reads m
    ensures s == PageviewSeries(labels, m.entries)
  {
    seq(|labels|, i requires 0 <= i < |labels| && m.Valid() reads m =>
      match m.Get(labels[i])
      case Some(p) => p.pageviews
      case None => 0)
  }

  /**
   * Line 221's test. It does not look at the row, so with comparison and more
   * than one declared range every row is filed as previous-period data.
   */
  predicate FilesAsPrevious(data: ReportData, isComparing: bool) {
    isComparing && data.rangeCount > 1
  }

  /** The result of `processChartData(response, isComparing)`, or the TypeError it throws. */
  function ChartOf(response: Response, isComparing: bool): (r: Result<ChartData>)
    ensures r.Err? ==> r.error == TypeError
    ensures r.Ok? ==> |r.value.sessions| == |r.value.labels| && |r.value.pageviews| == |r.value.labels|
    ensures r.Ok? ==> (r.value.previousSessions.Some? <==> r.value.previousPageviews.Some?)
    ensures r.Ok? && r.value.previousSessions.Some? ==>
      |r.value.previousSessions.value| == |r.value.labels| && |r.value.previousPageviews.value| == |r.value.labels|
  {
    match RowsOf(response)
    case None => Ok(ChartData([], [], [], Some([]), Some([])))
    case Some(rows) =>
      if !AllReadable(rows) then Err(TypeError)
      else
        var asPrevious := FilesAsPrevious(response.data, isComparing);
        var current := if asPrevious then map[] else Buckets(rows);
        var previous := if asPrevious then Buckets(rows) else map[];
        var labels := StringSort.Sort(if asPrevious then [] else DateOrder(rows));
        Ok(ChartData(
          labels,
          SessionSeries(labels, current),
          PageviewSeries(labels, current),
          if isComparing then Some(SessionSeries(labels, previous)) else None,
          if isComparing then Some(PageviewSeries(labels, previous)) else None))
  }

  /** Map `m` holds what `set` of each of `rows` in turn leaves in a new Map. */
  ghost predicate Filed(m: JsMap, rows: seq<Row>)
    reads m
  {
    AllReadable(rows) && m.Valid() && m.entries == Buckets(rows) && m.keys == DateOrder(rows)
  }

  /** Filing row `i` after the rows before it: one more `set` on the Map. */
  lemma FilingStep(rows: seq<Row>, i: nat)
    requires i < |rows| && AllReadable(rows[..i]) && Readable(rows[i])
    ensures AllReadable(rows[..i + 1])
    ensures Buckets(rows[..i + 1]) == Buckets(rows[..i])[DateOf(rows[i]) := PointOf(rows[i])]
    ensures DateOrder(rows[..i + 1]) ==
      DateOrder(rows[..i]) + if DateOf(rows[i]) in Buckets(rows[..i]) then [] else [DateOf(rows[i])]
  {
    assert rows[..i + 1][..i] == rows[..i];
  }

  /** The `forEach` callback on a readable row: `set` its date to its point. */
  method FileRow(m: JsMap, rows: seq<Row>, i: nat)
    requires i < |rows| && Readable(rows[i]) && Filed(m, rows[..i])
    modifies m
    ensures Filed(m, rows[..i + 1])
  {
    var row := rows[i];
    var date := row.dims.value[0];
    var sessions := Trunc(CellOrZero(row.metrics.value, 0));
    var pageviews := Trunc(CellOrZero(row.metrics.value, 1));
    FilingStep(rows, i);
    m.Set(date, Point(sessions, pageviews));
  }

  /**
   * The `forEach` of `processChartData`: each row is `set` into the current
   * or the previous Map; `readable` is false where a row throws.
   */
  method FileRows(rows: seq<Row>, asPrevious: bool) returns (readable: bool, dateMap: JsMap, previousDateMap: JsMap)
    ensures readable <==> AllReadable(rows)
    ensures readable ==> Filed(dateMap, if asPrevious then [] else rows)
    ensures readable ==> Filed(previousDateMap, if asPrevious then rows else [])
  {
    dateMap := new JsMap();
    previousDateMap := new JsMap();
    var i := 0;
    while i < |rows|
      invariant 0 <= i <= |rows|
      invariant AllReadable(rows[..i])
      invariant Filed(dateMap, if asPrevious then [] else rows[..i])
      invariant Filed(previousDateMap, if asPrevious then rows[..i] else [])
    {
      if !Readable(rows[i]) {
        assert !AllReadable(rows);
        return false, dateMap, previousDateMap;
      }
      if asPrevious {
        FileRow(previousDateMap, rows, i);
      } else {
        FileRow(dateMap, rows, i);
      }
      i := i + 1;
    }
    assert rows[..i] == rows;
    readable := true;
  }

  /** `processChartData(response, isComparing)`. */
  method ProcessChartData(response: Response, isComparing: bool) returns (r: Result<ChartData>)
    ensures r == ChartOf(response, isComparing)
  {
    if response.Failure? || response.data.rows.None? {
      return Ok(ChartData([], [], [], Some([]), Some([])));
    }
    var rows := response.data.rows.value;
    var asPrevious := FilesAsPrevious(response.data, isComparing);
    var readable, dateMap, previousDateMap := FileRows(rows, asPrevious);
    if !readable {
      return Err(TypeError);
    }
    var sortedDates := StringSort.Sort(dateMap.keys);
    var previousSessions := None;
    var previousPageviews := None;
    if isComparing {
      previousSessions := Some(ReadSessions(sortedDates, previousDateMap));
      previousPageviews := Some(ReadPageviews(sortedDates, previousDateMap));
    }
    return Ok(ChartData(
      sortedDates,
      ReadSessions(sortedDates, dateMap),
      ReadPageviews(sortedDates, dateMap),
      previousSessions,
      previousPageviews));
  }

  /** The insertion-order keys are exactly the dates of the rows, each once, and the keys of the Map. */
  lemma {:induction false} DateOrderKeys(rows: seq<Row>)
    requires AllReadable(rows)
    ensures StringSort.Distinct(DateOrder(rows))
    ensures forall d :: d in DateOrder(rows) <==> d in Buckets(rows)
    ensures forall d :: d in Buckets(rows) <==> exists j :: 0 <= j < |rows| && DateOf(rows[j]) == d
  {
    if rows != [] {
      var init := rows[..|rows| - 1];
      var last := rows[|rows| - 1];
      DateOrderKeys(init);
      forall d
        ensures d in Buckets(rows) <==> exists j :: 0 <= j < |rows| && DateOf(rows[j]) == d
      {
        if d in Buckets(init) {
          var j :| 0 <= j < |init| && DateOf(init[j]) == d;
          assert DateOf(rows[j]) == d;
        }
        if exists j :: 0 <= j < |rows| && DateOf(rows[j]) == d {
          var j :| 0 <= j < |rows| && DateOf(rows[j]) == d;
          if j < |init| {
            assert DateOf(init[j]) == d;
          }
        }
      }
    }
  }

  /**
   * The entry for a date is the point of the last row with that date: a row
   * with the date exists, it carries the entry, and no later row has the date.
   */
  lemma {:induction false} BucketsLastRowWins(rows: seq<Row>, d: string)
    requires AllReadable(rows) && d in Buckets(rows)
    ensures exists j :: 0 <= j < |rows| && DateOf(rows[j]) == d && Buckets(rows)[d] == PointOf(rows[j])
                        && forall k :: j < k < |rows| ==> DateOf(rows[k]) != d
  {
    var init := rows[..|rows| - 1];
    var last := rows[|rows| - 1];
    if DateOf(last) == d {
      assert DateOf(rows[|rows| - 1]) == d;
    } else {
      BucketsLastRowWins(init, d);
      var j :| 0 <= j < |init| && DateOf(init[j]) == d && Buckets(init)[d] == PointOf(init[j])
               && forall k :: j < k < |init| ==> DateOf(init[k]) != d;
      assert DateOf(rows[j]) == d && PointOf(rows[j]) == PointOf(init[j]);
      forall k | j < k < |rows|
        ensures DateOf(rows[k]) != d
      {
        if k < |init| {
          assert DateOf(init[k]) != d;
        }
      }
    }
  }

  /** A malformed row anywhere makes the whole call throw; with well-formed rows it succeeds. */
  lemma ChartThrows(response: Response, isComparing: bool)
    ensures ChartOf(response, isComparing).Err? <==>
      RowsOf(response).Some? && exists j :: 0 <= j < |RowsOf(response).value| && !Readable(RowsOf(response).value[j])
  {
  }

  /** A failed response or absent rows: five empty arrays, the previous ones empty rather than null. */
  lemma ChartFailure(response: Response, isComparing: bool)
    requires RowsOf(response).None?
    ensures ChartOf(response, isComparing) == Ok(ChartData([], [], [], Some([]), Some([])))
  {
  }

  /**
   * The labels are the dates of the rows, each once, in ascending order,
   * unless the rows are all filed as previous data, which leaves no labels.
   */
  lemma ChartLabels(response: Response, isComparing: bool)
    requires ChartOf(response, isComparing).Ok? && RowsOf(response).Some?
    ensures var labels := ChartOf(response, isComparing).value.labels;
      var rows := RowsOf(response).value;
      && StringSort.Ascending(labels)
      && (FilesAsPrevious(response.data, isComparing) ==> labels == [])
      && (!FilesAsPrevious(response.data, isComparing) ==>
            forall d :: d in labels <==> exists j :: 0 <= j < |rows| && DateOf(rows[j]) == d)
  {
    var rows := RowsOf(response).value;
    if FilesAsPrevious(response.data, isComparing) {
      StringSort.SortAscending([]);
    } else {
      DateOrderKeys(rows);
      StringSort.SortAscending(DateOrder(rows));
    }
  }

  /**
   * Each current-series entry is the point of the last row with that label's
   * date; the previous series, when present, are all zero because nothing is
   * filed as previous data.
   */
  lemma ChartCurrentSeries(response: Response, isComparing: bool, i: nat)
    requires ChartOf(response, isComparing).Ok? && RowsOf(response).Some?
    requires !FilesAsPrevious(response.data, isComparing)
    requires i < |ChartOf(response, isComparing).value.labels|
    ensures var chart := ChartOf(response, isComparing).value;
      var rows := RowsOf(response).value;
      && (exists j :: 0 <= j < |rows| && DateOf(rows[j]) == chart.labels[i]
                      && chart.sessions[i] == PointOf(rows[j]).sessions
                      && chart.pageviews[i] == PointOf(rows[j]).pageviews
                      && forall k :: j < k < |rows| ==> DateOf(rows[k]) != chart.labels[i])
      && (chart.previousSessions.Some? ==> chart.previousSessions.value[i] == 0 && chart.previousPageviews.value[i] == 0)
  {
    var chart := ChartOf(response, isComparing).value;
    var rows := RowsOf(response).value;
    ChartLabels(response, isComparing);
    DateOrderKeys(rows);
    assert chart.labels[i] in chart.labels;
    BucketsLastRowWins(rows, chart.labels[i]);
  }

  /** Without comparison the previous series are `null`; with comparison they are arrays. */
  lemma ChartPreviousPresence(response: Response, isComparing: bool)
    requires ChartOf(response, isComparing).Ok? && RowsOf(response).Some?
    ensures ChartOf(response, isComparing).value.previousSessions.Some? <==> isComparing
  {
  }

  /**
   * Comparing against a response that declares more than one date range:
   * no labels, empty current series and empty previous series.
   */
  lemma ChartAllPrevious(response: Response, isComparing: bool)
    requires ChartOf(response, isComparing).Ok? && RowsOf(response).Some?
    requires FilesAsPrevious(response.data, isComparing)
    ensures ChartOf(response, isComparing).value == ChartData([], [], [], Some([]), Some([]))
  {
    StringSort.SortAscending([]);
  }
}
