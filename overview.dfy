/**
 * `calculatePercentChange` and `processOverviewData`: the seven headline
 * cards, built from report row 0 (the current period) and, when comparing,
 * row 1 (the previous period).
 */
module Overview {
  import opened Wrappers
  import opened Report

  /** One headline card; `change` and `changeDiff` are None where the source leaves them `undefined`. */
  datatype Card = Card(title: string, value: real, change: Option<real>, changeDiff: Option<real>)

  /** The card titles, in the order the overview metrics are requested. */
  const Titles: seq<string> := ["Page Views", "Sessions", "Users", "Bounce Rate",
                                "Avg. Session Duration", "Conversions", "Engagement Rate"]

  /** The metric that passes `inverse = true`: a lower bounce rate is better. */
  const BounceRate: nat := 3

  /** The count metrics, read with `parseInt`; the others are rates read with `parseFloat`. */
  predicate IsCount(i: nat) {
    i == 0 || i == 1 || i == 2 || i == 5
  }

  /** A cell's number as its card reads it: truncated for counts, as is for rates. */
  function CardNumber(i: nat, x: real): real {
    if IsCount(i) then Trunc(x) as real else x
  }

  /**
   * `calculatePercentChange(current, previous, inverse)`: the change from
   * `previous` to `current` in percent of `previous`, negated for inverse
   * metrics, and 0 when `previous` is 0 or missing.
   */
  function PercentChange(current: Cell, previous: Cell, inverse: bool): (r: real)
    ensures previous.GetOr(0.0) == 0.0 ==> r == 0.0
    ensures previous.GetOr(0.0) != 0.0 ==>
      r * previous.GetOr(0.0) == (if inverse then -100.0 else 100.0) * (current.GetOr(0.0) - previous.GetOr(0.0))
  {
    var curr := current.GetOr(0.0);
    var prev := previous.GetOr(0.0);
    if prev == 0.0 then 0.0
    else
      var change := (curr - prev) / prev * 100.0;
      if inverse then -change else change
  }

  /** The inverse flag only flips the sign. */
  lemma PercentChangeInverse(current: Cell, previous: Cell)
    ensures PercentChange(current, previous, true) == -PercentChange(current, previous, false)
  {
  }

  /** Against a positive previous value, the plain change is positive exactly when the value grew. */
  lemma PercentChangeGrowth(current: Cell, previous: Cell)
    requires previous.GetOr(0.0) > 0.0
    ensures PercentChange(current, previous, false) > 0.0 <==> current.GetOr(0.0) > previous.GetOr(0.0)
    ensures PercentChange(current, previous, false) == 0.0 <==> current.GetOr(0.0) == previous.GetOr(0.0)
  {
    var r := PercentChange(current, previous, false);
    var p := previous.GetOr(0.0);
    assert r * p == 100.0 * (current.GetOr(0.0) - p);
    if r > 0.0 {
      assert r * p > 0.0;
    } else if r < 0.0 {
      assert r * p < 0.0;
    }
  }

  /** `response.data.rows[0]?.metricValues || []`. */
  function CurrentCells(rows: seq<Row>): seq<Cell> {
    if |rows| > 0 && rows[0].metrics.Some? then rows[0].metrics.value else []
  }

  /** `isComparing && rows[1]?.metricValues ? rows[1].metricValues : null`. */
  function PreviousCells(rows: seq<Row>, isComparing: bool): Option<seq<Cell>> {
    if isComparing && |rows| > 1 && rows[1].metrics.Some? then Some(rows[1].metrics.value) else None
  }

  /** The card for metric `i`. */
  function CardAt(i: nat, current: seq<Cell>, previous: Option<seq<Cell>>): Card
    requires i < |Titles|
  {
    var now := CardNumber(i, CellOrZero(current, i));
    match previous
    case None => Card(Titles[i], now, None, None)
    case Some(cells) =>
      var before := CardNumber(i, CellOrZero(cells, i));
      var currentCell := if i < |current| then current[i] else None;
      var previousCell := if i < |cells| then cells[i] else None;
      Card(Titles[i], now, Some(PercentChange(currentCell, previousCell, i == BounceRate)), Some(now - before))
  }

  /** `processOverviewData(response, isComparing)`. */
  function ProcessOverviewData(response: Response, isComparing: bool): (cards: seq<Card>)
    ensures RowsOf(response).None? ==> cards == []
    ensures RowsOf(response).Some? ==> |cards| == |Titles|
    ensures RowsOf(response).Some? ==> forall i :: 0 <= i < |cards| ==> cards[i].title == Titles[i]
  {
    match RowsOf(response)
    case None => []
    case Some(rows) =>
      var current := CurrentCells(rows);
      var previous := PreviousCells(rows, isComparing);
      seq(|Titles|, i requires 0 <= i < |Titles| => CardAt(i, current, previous))
  }

  /**
   * Each card's value is metric `i` of row 0, truncated for the count
   * metrics, and 0 when row 0, its metrics or that cell are missing.
   */
  lemma OverviewValues(response: Response, isComparing: bool, i: nat)
    requires RowsOf(response).Some? && i < |Titles|
    ensures var rows := RowsOf(response).value;
      var cell := if |rows| > 0 && rows[0].metrics.Some? && i < |rows[0].metrics.value|
                  then rows[0].metrics.value[i].GetOr(0.0) else 0.0;
      ProcessOverviewData(response, isComparing)[i].value == if IsCount(i) then Trunc(cell) as real else cell
  {
  }

  /** A present but empty rows list still gives the seven cards, all zero and without change. */
  lemma OverviewEmptyRows(response: Response, isComparing: bool)
    requires RowsOf(response) == Some([])
    ensures var cards := ProcessOverviewData(response, isComparing);
      |cards| == 7
      && forall i :: 0 <= i < |cards| ==> cards[i].value == 0.0 && cards[i].change.None? && cards[i].changeDiff.None?
  {
  }

  /**
   * `change` and `changeDiff` are defined exactly when comparing and row 1
   * carries metric values.
   */
  lemma OverviewChangePresence(response: Response, isComparing: bool, i: nat)
    requires RowsOf(response).Some? && i < |Titles|
    ensures var rows := RowsOf(response).value;
      var card := ProcessOverviewData(response, isComparing)[i];
      && (card.change.Some? <==> isComparing && |rows| > 1 && rows[1].metrics.Some?)
      && (card.changeDiff.Some? <==> card.change.Some?)
  {
  }

  /**
   * With a previous period, every card but Bounce Rate reports the plain
   * percent change, Bounce Rate reports it negated, and every `changeDiff`
   * is the un-negated current minus previous value.
   */
  lemma OverviewChanges(response: Response, isComparing: bool, i: nat)
    requires RowsOf(response).Some? && i < |Titles|
    requires PreviousCells(RowsOf(response).value, isComparing).Some?
    ensures var rows := RowsOf(response).value;
      var current := CurrentCells(rows);
      var previous := PreviousCells(rows, isComparing).value;
      var cur := if i < |current| then current[i] else None;
      var prev := if i < |previous| then previous[i] else None;
      var card := ProcessOverviewData(response, isComparing)[i];
      && card.change == Some(if i == BounceRate then -PercentChange(cur, prev, false) else PercentChange(cur, prev, false))
      && card.changeDiff == Some(CardNumber(i, cur.GetOr(0.0)) - CardNumber(i, prev.GetOr(0.0)))
  {
    var rows := RowsOf(response).value;
    var current := CurrentCells(rows);
    var previous := PreviousCells(rows, isComparing).value;
    var cur := if i < |current| then current[i] else None;
    var prev := if i < |previous| then previous[i] else None;
    PercentChangeInverse(cur, prev);
  }

  /**
   * The inverse flag makes Bounce Rate's `change` disagree in sign with its
   * `changeDiff`: against a positive previous rate, a rise shows as a
   * negative change and a positive difference.
   */
  lemma BounceRateSigns(response: Response, isComparing: bool)
    requires RowsOf(response).Some?
    requires PreviousCells(RowsOf(response).value, isComparing).Some?
    requires var previous := PreviousCells(RowsOf(response).value, isComparing).value;
      CellOrZero(previous, BounceRate) > 0.0
    ensures var card := ProcessOverviewData(response, isComparing)[BounceRate];
      card.changeDiff.value > 0.0 <==> card.change.value < 0.0
  {
    var rows := RowsOf(response).value;
    var current := CurrentCells(rows);
    var previous := PreviousCells(rows, isComparing).value;
    var cur := if BounceRate < |current| then current[BounceRate] else None;
    var prev := if BounceRate < |previous| then previous[BounceRate] else None;
    OverviewChanges(response, isComparing, BounceRate);
    PercentChangeGrowth(cur, prev);
  }
}
