/**
 * `getDateRange`: the requested inclusive range, and, when comparing, the
 * range of the same number of days that ends the day before it starts.
 * Dates are JavaScript Date objects at UTC midnight; the process time zone is
 * taken to be UTC, so `getDate`/`setDate` work on the UTC calendar.
 */
module DateRange {
  import opened Wrappers
  import opened Calendar
  import opened IsoDate

  datatype DateRange = DateRange(startDate: string, endDate: string)

  /** The ordinal of the first day of the month that day `z` falls in. */
  function MonthStart(z: int): int {
    var c := CivilFromDays(z);
    CivilFromDaysValid(z);
    DaysFromCivil(c.year, c.month, 1)
  }

  /** A JavaScript Date object: a mutable time value. */
  class JsDate {
    var time: TimeValue

    /** `new Date(t)`, for a time value `t` (also the copy `new Date(other)`). */
    constructor (t: TimeValue)
      requires IsTimeValue(t)
      ensures time == t
    {
      time := t;
    }

    /** `getDate()`: the day of the month, NaN for an invalid Date. */
    function GetDate(): (d: Option<int>)
      reads this
      ensures d.Some? <==> time.Some?
      ensures d.Some? ==> 1 <= d.value <= 31 && MonthStart(time.value) + d.value - 1 == time.value
    {
      match time
      case None => None
      case Some(z) =>
        MonthStartPlusDay(z);
        Some(CivilFromDays(z).day)
    }

    /**
     * `setDate(d)`: keep the year and month, take day of month `d` (a day
     * outside the month rolls into a neighbouring one), then clip.
     */
    method SetDate(d: Option<int>)
      modifies this
      ensures time == if old(time).None? || d.None? then None
                      else TimeClip(MonthStart(old(time).value) + d.value - 1)
    {
      if time.None? || d.None? {
        time := None;
      } else {
        time := TimeClip(MonthStart(time.value) + d.value - 1);
      }
    }
  }

  /** Whole days from `start` to `end`, plus one: the inclusive length of the range. */
  function InclusiveDays(start: int, end: int): (days: int)
    ensures start + days - 1 == end
  {
    end - start + 1
  }

  /**
   * The comparison range: both ends moved back by the inclusive length of
   * the requested range; a RangeError when either leaves the Date range.
   */
  function PreviousRange(start: int, end: int): (r: Result<DateRange>)
    ensures r.Err? ==> r.error == RangeError
  {
    var days := InclusiveDays(start, end);
    var s := TimeClip(start - days);
    var e := TimeClip(end - days);
    if s.None? || e.None? then Err(RangeError)
    else Ok(DateRange(FormatDate(s.value), FormatDate(e.value)))
  }

  /**
   * The ranges `getDateRange` returns for already-parsed start and end time
   * values; every failure is the RangeError `toISOString` throws on NaN.
   */
  function DateRanges(start: TimeValue, end: TimeValue, compare: bool): (r: Result<seq<DateRange>>)
    ensures r.Err? ==> r.error == RangeError
    ensures r.Ok? ==> start.Some? && end.Some?
    ensures r.Ok? ==> |r.value| == (if compare then 2 else 1)
    ensures r.Ok? ==> r.value[0] == DateRange(FormatDate(start.value), FormatDate(end.value))
  {
    if start.None? || end.None? then Err(RangeError)
    else
      var current := DateRange(FormatDate(start.value), FormatDate(end.value));
      if !compare then Ok([current])
      else
        var previous := PreviousRange(start.value, end.value);
        if previous.Err? then Err(previous.error)
        else Ok([current, previous.value])
  }

  /** The Date arithmetic of the comparison branch of `getDateRange`. */
  method ShiftRange(start: JsDate, end: JsDate) returns (r: Result<DateRange>)
    requires start.time.Some? && end.time.Some?
    requires IsTimeValue(start.time) && IsTimeValue(end.time)
    ensures r == PreviousRange(start.time.value, end.time.value)
  {
    var days := InclusiveDays(start.time.value, end.time.value);
    var compareStart := new JsDate(start.time);
    var d := compareStart.GetDate();
    compareStart.SetDate(Some(d.value - days));
    var compareEnd := new JsDate(end.time);
    d := compareEnd.GetDate();
    compareEnd.SetDate(Some(d.value - days));
    var compareStartText := FormatTimeValue(compareStart.time);
    if compareStartText.Err? {
      return Err(compareStartText.error);
    }
    var compareEndText := FormatTimeValue(compareEnd.time);
    if compareEndText.Err? {
      return Err(compareEndText.error);
    }
    return Ok(DateRange(compareStartText.value, compareEndText.value));
  }

  /** `getDateRange(startDate, endDate, compare)`, with the two strings already parsed. */
  method GetDateRange(startDate: TimeValue, endDate: TimeValue, compare: bool)
    returns (r: Result<seq<DateRange>>)
    requires IsTimeValue(startDate) && IsTimeValue(endDate)
    ensures r == DateRanges(startDate, endDate, compare)
  {
    var start := new JsDate(startDate);
    var end := new JsDate(endDate);
    var startText := FormatTimeValue(start.time);
    if startText.Err? {
      return Err(startText.error);
    }
    var endText := FormatTimeValue(end.time);
    if endText.Err? {
      return Err(endText.error);
    }
    var ranges := [DateRange(startText.value, endText.value)];
    if compare {
      var previous := ShiftRange(start, end);
      if previous.Err? {
        return Err(previous.error);
      }
      ranges := ranges + [previous.value];
      assert ranges == [DateRange(FormatDate(startDate.value), FormatDate(endDate.value)), previous.value];
    }
    return Ok(ranges);
  }

  /** Without comparison, full-date inputs come back verbatim as the one range. */
  lemma SingleRangeVerbatim(startDate: string, endDate: string)
    requires ParseFullDate(startDate).Some? && ParseFullDate(endDate).Some?
    ensures DateRanges(ParseFullDate(startDate), ParseFullDate(endDate), false)
         == Ok([DateRange(startDate, endDate)])
  {
    FormatParse(startDate);
    FormatParse(endDate);
  }

  /**
   * With comparison, read as calendar dates: the previous range ends the day
   * before the current one starts and spans the same number of days.
   */
  lemma PreviousRangeAdjacent(start: int, end: int)
    requires FourDigitYear(start) && FourDigitYear(end)
    requires FourDigitYear(start - InclusiveDays(start, end)) && FourDigitYear(end - InclusiveDays(start, end))
    ensures DateRanges(Some(start), Some(end), true).Ok?
    ensures var r := DateRanges(Some(start), Some(end), true).value;
      var curStart := ParseFullDate(r[0].startDate);
      var curEnd := ParseFullDate(r[0].endDate);
      var prevStart := ParseFullDate(r[1].startDate);
      var prevEnd := ParseFullDate(r[1].endDate);
      && curStart.Some? && curEnd.Some? && prevStart.Some? && prevEnd.Some?
      && prevEnd.value == curStart.value - 1
      && prevEnd.value - prevStart.value == curEnd.value - curStart.value
  {
    var days := InclusiveDays(start, end);
    FourDigitYearBounds(start - days);
    FourDigitYearBounds(end - days);
    ComparedRanges(start, end);
    var r := DateRanges(Some(start), Some(end), true).value;
    RangeParses(r[0], start, end);
    RangeParses(r[1], start - days, end - days);
  }

  /** A range written from two four-digit-year days reads back as those days. */
  lemma RangeParses(r: DateRange, first: int, last: int)
    requires FourDigitYear(first) && FourDigitYear(last)
    requires r == DateRange(FormatDate(first), FormatDate(last))
    ensures ParseFullDate(r.startDate) == Some(first) && ParseFullDate(r.endDate) == Some(last)
  {
    ParseFormat(first);
    ParseFormat(last);
  }

  /** When both shifted ends stay inside the Date range, the comparison succeeds. */
  lemma ComparedRanges(start: int, end: int)
    requires -MaxDay <= start - InclusiveDays(start, end) <= MaxDay
    requires -MaxDay <= end - InclusiveDays(start, end) <= MaxDay
    ensures var days := InclusiveDays(start, end);
      DateRanges(Some(start), Some(end), true)
      == Ok([DateRange(FormatDate(start), FormatDate(end)),
             DateRange(FormatDate(start - days), FormatDate(end - days))])
  {
  }
}
