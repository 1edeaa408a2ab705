/**
 * The date part of ECMAScript's `Date.prototype.toISOString`, which is what
 * `formatDate` keeps (`toISOString().split('T')[0]`), and the RFC 3339
 * `full-date` reading of such text (section 5.6 of RFC 3339), its inverse.
 */
module IsoDate {
  import opened Wrappers
  import opened Calendar

  /** ECMAScript's TimeClip bound, 8.64e15 ms, in days. */
  const MaxDay: int := 100_000_000

  /** A Date's time value at UTC midnight: a day ordinal, or None for NaN ("Invalid Date"). */
  type TimeValue = Option<int>

  /** A time value a Date can hold: NaN, or a day within the TimeClip bound. */
  predicate IsTimeValue(t: TimeValue) {
    t.None? || -MaxDay <= t.value <= MaxDay
  }

  /** ECMAScript's TimeClip on a day ordinal: beyond the bound the time value is NaN. */
  function TimeClip(z: int): (t: TimeValue)
    ensures t.Some? <==> -MaxDay <= z <= MaxDay
    ensures t.Some? ==> t.value == z
  {
    if -MaxDay <= z <= MaxDay then Some(z) else None
  }

  function Pow10(w: nat): nat {
    if w == 0 then 1 else 10 * Pow10(w - 1)
  }

  predicate IsDigit(c: char) {
    '0' <= c <= '9'
  }

  predicate AllDigits(s: string) {
    forall i :: 0 <= i < |s| ==> IsDigit(s[i])
  }

  /** The `w` lowest decimal digits of `n`, zero-padded on the left. */
  function Pad(n: nat, w: nat): (s: string)
    ensures |s| == w && AllDigits(s)
  {
    if w == 0 then [] else Pad(n / 10, w - 1) + [(48 + n % 10) as char]
  }

  /** The number a string of decimal digits spells. */
  function DigitsValue(s: string): nat
    requires AllDigits(s)
  {
    if s == [] then 0 else 10 * DigitsValue(s[..|s| - 1]) + (s[|s| - 1] as int - 48)
  }

  lemma {:induction false} PadValue(n: nat, w: nat)
    requires n < Pow10(w)
    ensures DigitsValue(Pad(n, w)) == n
  {
    if w > 0 {
      PadValue(n / 10, w - 1);
      var s := Pad(n, w);
      assert s[..w - 1] == Pad(n / 10, w - 1);
    }
  }

  lemma {:induction false} ValuePad(s: string)
    requires AllDigits(s)
    ensures DigitsValue(s) < Pow10(|s|)
    ensures Pad(DigitsValue(s), |s|) == s
  {
    if s != [] {
      var p := s[..|s| - 1];
      ValuePad(p);
      var v := DigitsValue(s);
      assert v / 10 == DigitsValue(p) && v % 10 == s[|s| - 1] as int - 48;
      assert s == p + [s[|s| - 1]];
    }
  }

  /**
   * The year as `toISOString` writes it: four digits for years 0 to 9999,
   * otherwise a sign and six digits.
   */
  function YearText(y: int): string {
    if 0 <= y <= 9999 then Pad(y, 4)
    else if y < 0 then "-" + Pad(-y, 6)
    else "+" + Pad(y, 6)
  }

  /** A calendar date as `toISOString` writes its date part. */
  function FormatCivil(c: Civil): (s: string)
    requires ValidCivil(c)
    ensures 0 <= c.year <= 9999 ==> IsFullDate(s)
  {
    YearText(c.year) + "-" + Pad(c.month, 2) + "-" + Pad(c.day, 2)
  }

  /** `formatDate` on a valid time value: `YYYY-MM-DD` in UTC. */
  function FormatDate(z: int): (s: string)
    ensures FourDigitYear(z) ==> IsFullDate(s)
  {
    FormatCivil(CivilFromDays(z))
  }

  /** `formatDate`: an invalid Date makes `toISOString` throw a RangeError. */
  function FormatTimeValue(t: TimeValue): (r: Result<string>)
    ensures r.Err? <==> t.None?
    ensures r.Err? ==> r.error == RangeError
  {
    match t
    case None => Err(RangeError)
    case Some(z) => Ok(FormatDate(z))
  }

  /** The shape of an RFC 3339 `full-date`: `DDDD-DD-DD`. */
  predicate IsFullDate(s: string) {
    |s| == 10 && s[4] == '-' && s[7] == '-'
    && AllDigits(s[..4]) && AllDigits(s[5..7]) && AllDigits(s[8..])
  }

  /** The day ordinal an RFC 3339 `full-date` names, if it names a real calendar date. */
  function ParseFullDate(s: string): Option<int> {
    if !IsFullDate(s) then None
    else
      var c := Civil(DigitsValue(s[..4]), DigitsValue(s[5..7]), DigitsValue(s[8..]));
      if ValidCivil(c) then Some(DaysFromCivil(c.year, c.month, c.day)) else None
  }

  /** Years that `toISOString` writes with four digits: 0000-01-01 .. 9999-12-31. */
  predicate FourDigitYear(z: int) {
    0 <= CivilFromDays(z).year <= 9999
  }

  /** Four-digit years are the days from 0000-01-01 to 9999-12-31, well inside the Date range. */
  lemma FourDigitYearBounds(z: int)
    ensures FourDigitYear(z) <==> -719528 <= z <= 2932896
    ensures FourDigitYear(z) ==> -MaxDay <= z <= MaxDay
  {
    var c := CivilFromDays(z);
    CivilFromDaysValid(z);
    WithinYear(c);
    if c.year < 0 {
      YearsOrdered(c.year, 0);
    } else if c.year > 0 {
      YearsOrdered(0, c.year);
    }
    if c.year < 10000 {
      YearsOrdered(c.year, 10000);
    } else if c.year > 10000 {
      YearsOrdered(10000, c.year);
    }
    assert DaysBeforeYear(0) == -366;
    assert DaysBeforeYear(10000) == 3652059;
  }

  /** A day in a four-digit year is written as its zero-padded year, month and day. */
  lemma FormatFourDigitYear(z: int, c: Civil)
    requires CivilFromDays(z) == c && 0 <= c.year <= 9999
    ensures FormatDate(z) == Pad(c.year, 4) + "-" + Pad(c.month, 2) + "-" + Pad(c.day, 2)
  {
    CivilFromDaysValid(z);
  }

  /** Zero-padded fields of a valid four-digit-year date read back as that date. */
  lemma ParsePadded(c: Civil)
    requires ValidCivil(c) && 0 <= c.year <= 9999
    ensures ParseFullDate(Pad(c.year, 4) + "-" + Pad(c.month, 2) + "-" + Pad(c.day, 2))
         == Some(DaysFromCivil(c.year, c.month, c.day))
  {
    var s := Pad(c.year, 4) + "-" + Pad(c.month, 2) + "-" + Pad(c.day, 2);
    assert s[..4] == Pad(c.year, 4);
    assert s[5..7] == Pad(c.month, 2);
    assert s[8..] == Pad(c.day, 2);
    PadValue(c.year, 4);
    PadValue(c.month, 2);
    PadValue(c.day, 2);
  }

  /** Reading back a formatted date gives the day it was formatted from. */
  lemma ParseFormat(z: int)
    requires FourDigitYear(z)
    ensures ParseFullDate(FormatDate(z)) == Some(z)
  {
    var c := CivilFromDays(z);
    CivilFromDaysValid(z);
    FormatFourDigitYear(z, c);
    ParsePadded(c);
  }

  /** A full-date that parses is exactly how `formatDate` writes the parsed day. */
  lemma FormatParse(s: string)
    requires ParseFullDate(s).Some?
    ensures FourDigitYear(ParseFullDate(s).value)
    ensures FormatDate(ParseFullDate(s).value) == s
  {
    var c := Civil(DigitsValue(s[..4]), DigitsValue(s[5..7]), DigitsValue(s[8..]));
    var z := DaysFromCivil(c.year, c.month, c.day);
    CivilRoundTrip(c);
    ValuePad(s[..4]);
    ValuePad(s[5..7]);
    ValuePad(s[8..]);
    FormatFourDigitYear(z, c);
    assert s == s[..4] + "-" + s[5..7] + "-" + s[8..];
  }
}
