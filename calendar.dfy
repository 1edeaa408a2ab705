/**
 * The proleptic Gregorian calendar that JavaScript's Date uses, with days
 * counted as integer ordinals: day 0 is 1970-01-01, day -1 is 1969-12-31.
 * A Date at UTC midnight is exactly such an ordinal times 86,400,000 ms.
 */
module Calendar {

  datatype Civil = Civil(year: int, month: int, day: int)

  predicate IsLeapYear(y: int) {
    y % 4 == 0 && (y % 100 != 0 || y % 400 == 0)
  }

  function YearLength(y: int): int {
    if IsLeapYear(y) then 366 else 365
  }

  function DaysInMonth(y: int, m: int): int
    requires 1 <= m <= 12
  {
    if m == 2 then (if IsLeapYear(y) then 29 else 28)
    else if m == 4 || m == 6 || m == 9 || m == 11 then 30
    else 31
  }

  predicate ValidCivil(c: Civil) {
    1 <= c.month <= 12 && 1 <= c.day <= DaysInMonth(c.year, c.month)
  }

  /** Days from 0001-01-01 to January 1st of year `y`. */
  function DaysBeforeYear(y: int): int {
    var p := y - 1;
    365 * p + p / 4 - p / 100 + p / 400
  }

  /** Days from January 1st to the first of month `m` of year `y`. */
  function DaysBeforeMonth(y: int, m: int): int
    requires 1 <= m <= 12
  {
    var leap := if IsLeapYear(y) then 1 else 0;
    match m
    case 1 => 0
    case 2 => 31
    case 3 => 59 + leap
    case 4 => 90 + leap
    case 5 => 120 + leap
    case 6 => 151 + leap
    case 7 => 181 + leap
    case 8 => 212 + leap
    case 9 => 243 + leap
    case 10 => 273 + leap
    case 11 => 304 + leap
    case _ => 334 + leap
  }

  /** Days from 0001-01-01 to 1970-01-01. */
  const UnixEpoch: int := 719162

  /**
   * The day ordinal of a calendar date. As in ECMAScript's MakeDay, a day of
   * month past the end of the month simply rolls forward.
   */
  function DaysFromCivil(y: int, m: int, d: int): int
    requires 1 <= m <= 12
  {
    DaysBeforeYear(y) + DaysBeforeMonth(y, m) + d - 1 - UnixEpoch
  }

  /** The month holding day `doy` (0-based) of a year, and that day's day of month. */
  function MonthDay(y: int, doy: int): (md: (int, int))
    requires 0 <= doy < YearLength(y)
    ensures 1 <= md.0 <= 12 && 1 <= md.1 <= DaysInMonth(y, md.0)
    ensures DaysBeforeMonth(y, md.0) + md.1 - 1 == doy
  {
    MonthFrom(y, doy, 1)
  }

  /** The month, from `m` on, that day `doy` of year `y` falls in, and its day in that month. */
  function MonthFrom(y: int, doy: int, m: int): (md: (int, int))
    requires 1 <= m <= 12 && DaysBeforeMonth(y, m) <= doy < YearLength(y)
    ensures m <= md.0 <= 12 && 1 <= md.1 <= DaysInMonth(y, md.0)
    ensures DaysBeforeMonth(y, md.0) + md.1 - 1 == doy
    decreases 12 - m
  {
    if m == 12 || doy < DaysBeforeMonth(y, m + 1) then (m, doy - DaysBeforeMonth(y, m) + 1)
    else MonthFrom(y, doy, m + 1)
  }

  /** The calendar date of a day ordinal. */
  function CivilFromDays(z: int): (c: Civil)
    ensures ValidCivil(c)
  {
    CivilFrom(1970, z)
  }

  /**
   * The calendar date `d` days after January 1st of year `y` (before it,
   * when `d` is negative), found by stepping a year at a time.
   */
  function CivilFrom(y: int, d: int): (c: Civil)
    ensures ValidCivil(c)
    decreases if d < 0 then 366 - d else d
  {
    if d < 0 then CivilFrom(y - 1, d + YearLength(y - 1))
    else if d >= YearLength(y) then CivilFrom(y + 1, d - YearLength(y))
    else
      var md := MonthDay(y, d);
      Civil(y, md.0, md.1)
  }

  /** Each year starts where the previous one ends. */
  lemma NextYear(y: int)
    ensures DaysBeforeYear(y + 1) == DaysBeforeYear(y) + YearLength(y)
  {
    StepQuotient4(y);
    StepQuotient100(y);
    StepQuotient400(y);
  }

  lemma StepQuotient4(y: int)
    ensures y / 4 - (y - 1) / 4 == if y % 4 == 0 then 1 else 0
  {
    if y % 4 == 0 { DivisionBy4(y - 1, y / 4 - 1, 3); } else { DivisionBy4(y - 1, y / 4, y % 4 - 1); }
  }

  lemma StepQuotient100(y: int)
    ensures y / 100 - (y - 1) / 100 == if y % 100 == 0 then 1 else 0
  {
    if y % 100 == 0 { DivisionBy100(y - 1, y / 100 - 1, 99); } else { DivisionBy100(y - 1, y / 100, y % 100 - 1); }
  }

  lemma StepQuotient400(y: int)
    ensures y / 400 - (y - 1) / 400 == if y % 400 == 0 then 1 else 0
  {
    if y % 400 == 0 { DivisionBy400(y - 1, y / 400 - 1, 399); } else { DivisionBy400(y - 1, y / 400, y % 400 - 1); }
  }

  /** An earlier year ends no later than a later year starts. */
  lemma {:induction false} YearsOrdered(y1: int, y2: int)
    requires y1 < y2
    ensures DaysBeforeYear(y1) + YearLength(y1) <= DaysBeforeYear(y2)
    decreases y2 - y1
  {
    NextYear(y1);
    if y1 + 1 < y2 {
      YearsOrdered(y1 + 1, y2);
    }
  }

  /** The ordinal of a valid date falls inside its own year. */
  lemma WithinYear(c: Civil)
    requires ValidCivil(c)
    ensures DaysBeforeYear(c.year) - UnixEpoch <= DaysFromCivil(c.year, c.month, c.day)
    ensures DaysFromCivil(c.year, c.month, c.day) < DaysBeforeYear(c.year) + YearLength(c.year) - UnixEpoch
  {
  }

  /** Distinct valid dates have distinct ordinals. */
  lemma DaysFromCivilInjective(a: Civil, b: Civil)
    requires ValidCivil(a) && ValidCivil(b)
    requires DaysFromCivil(a.year, a.month, a.day) == DaysFromCivil(b.year, b.month, b.day)
    ensures a == b
  {
    WithinYear(a);
    WithinYear(b);
    if a.year < b.year {
      YearsOrdered(a.year, b.year);
    } else if b.year < a.year {
      YearsOrdered(b.year, a.year);
    }
    assert a.year == b.year;
    assert a.month == b.month;
  }

  lemma DivisionBy4(x: int, q: int, r: int)
    requires x == 4 * q + r && 0 <= r < 4
    ensures x / 4 == q && x % 4 == r
  {
  }

  lemma DivisionBy100(x: int, q: int, r: int)
    requires x == 100 * q + r && 0 <= r < 100
    ensures x / 100 == q && x % 100 == r
  {
  }

  lemma DivisionBy400(x: int, q: int, r: int)
    requires x == 400 * q + r && 0 <= r < 400
    ensures x / 400 == q && x % 400 == r
  {
  }

  lemma {:induction false} CivilFromValid(y: int, d: int)
    ensures var c := CivilFrom(y, d); DaysFromCivil(c.year, c.month, c.day) == DaysBeforeYear(y) - UnixEpoch + d
    decreases if d < 0 then 366 - d else d
  {
    if d < 0 {
      CivilFromValid(y - 1, d + YearLength(y - 1));
      StepBack(y, d);
    } else if d >= YearLength(y) {
      CivilFromValid(y + 1, d - YearLength(y));
      StepForward(y, d);
    }
  }

  /** A day before January 1st of `y` is counted from January 1st of `y - 1`. */
  lemma StepBack(y: int, d: int)
    requires d < 0
    requires var c := CivilFrom(y - 1, d + YearLength(y - 1));
      DaysFromCivil(c.year, c.month, c.day) == DaysBeforeYear(y - 1) - UnixEpoch + d + YearLength(y - 1)
    ensures var c := CivilFrom(y, d); DaysFromCivil(c.year, c.month, c.day) == DaysBeforeYear(y) - UnixEpoch + d
  {
    NextYear(y - 1);
  }

  /** A day past the end of year `y` is counted from January 1st of `y + 1`. */
  lemma StepForward(y: int, d: int)
    requires 0 <= d && d >= YearLength(y)
    requires var c := CivilFrom(y + 1, d - YearLength(y));
      DaysFromCivil(c.year, c.month, c.day) == DaysBeforeYear(y + 1) - UnixEpoch + d - YearLength(y)
    ensures var c := CivilFrom(y, d); DaysFromCivil(c.year, c.month, c.day) == DaysBeforeYear(y) - UnixEpoch + d
  {
    NextYear(y);
  }

  /** Every ordinal names a valid date, and that date's ordinal is the ordinal itself. */
  lemma CivilFromDaysValid(z: int)
    ensures var c := CivilFromDays(z); DaysFromCivil(c.year, c.month, c.day) == z
  {
    CivilFromValid(1970, z);
    assert DaysBeforeYear(1970) == UnixEpoch;
  }

  /** Converting a valid date to its ordinal and back gives the date. */
  lemma CivilRoundTrip(c: Civil)
    requires ValidCivil(c)
    ensures CivilFromDays(DaysFromCivil(c.year, c.month, c.day)) == c
  {
    var z := DaysFromCivil(c.year, c.month, c.day);
    CivilFromDaysValid(z);
    DaysFromCivilInjective(CivilFromDays(z), c);
  }

  /**
   * ECMAScript's `setDate`: the first of the ordinal's month plus the day of
   * month minus one is the ordinal itself.
   */
  lemma MonthStartPlusDay(z: int)
    ensures var c := CivilFromDays(z); DaysFromCivil(c.year, c.month, 1) + c.day - 1 == z
  {
    CivilFromDaysValid(z);
  }
}
