/**
 * The worked example of a week compared with the week before it, checked by
 * computing the calendar dates, their ordinals and their text.
 */
module DateRangeExample {
  import opened Wrappers
  import opened Calendar
  import opened IsoDate
  import opened DateRange

  /** Day 19716 is 2023-12-25. */
  lemma PreviousWeekStart()
    ensures CivilFromDays(19716) == Civil(2023, 12, 25)
  {
    assert DaysFromCivil(2023, 12, 25) == 19716;
    CivilRoundTrip(Civil(2023, 12, 25));
  }

  /** Day 19722 is 2023-12-31. */
  lemma PreviousWeekEnd()
    ensures CivilFromDays(19722) == Civil(2023, 12, 31)
  {
    assert DaysFromCivil(2023, 12, 31) == 19722;
    CivilRoundTrip(Civil(2023, 12, 31));
  }

  /** Day 19723 is 2024-01-01, the first day of the next year. */
  lemma CurrentWeekStart()
    ensures CivilFromDays(19723) == Civil(2024, 1, 1)
  {
    assert DaysFromCivil(2024, 1, 1) == 19723;
    CivilRoundTrip(Civil(2024, 1, 1));
  }

  /** Day 19729 is 2024-01-07. */
  lemma CurrentWeekEnd()
    ensures CivilFromDays(19729) == Civil(2024, 1, 7)
  {
    assert DaysFromCivil(2024, 1, 7) == 19729;
    CivilRoundTrip(Civil(2024, 1, 7));
  }

  /** The zero-padded fields of the four dates. */
  lemma WeekExamplePadding()
    ensures Pad(2024, 4) == "2024" && Pad(2023, 4) == "2023"
    ensures Pad(1, 2) == "01" && Pad(7, 2) == "07" && Pad(12, 2) == "12"
    ensures Pad(25, 2) == "25" && Pad(31, 2) == "31"
  {
  }

  /** Civil(2024, 1, 1) written out. */
  lemma CurrentWeekStartFields()
    ensures FormatCivil(Civil(2024, 1, 1)) == "2024-01-01"
  {
    WeekExamplePadding();
  }

  /** Day 19723 as `formatDate` writes it. */
  lemma CurrentWeekStartText()
    ensures FormatDate(19723) == "2024-01-01"
  {
    CurrentWeekStart();
    CurrentWeekStartFields();
  }

  /** Civil(2024, 1, 7) written out. */
  lemma CurrentWeekEndFields()
    ensures FormatCivil(Civil(2024, 1, 7)) == "2024-01-07"
  {
    WeekExamplePadding();
  }

  /** Day 19729 as `formatDate` writes it. */
  lemma CurrentWeekEndText()
    ensures FormatDate(19729) == "2024-01-07"
  {
    CurrentWeekEnd();
    CurrentWeekEndFields();
  }

  /** Civil(2023, 12, 25) written out. */
  lemma PreviousWeekStartFields()
    ensures FormatCivil(Civil(2023, 12, 25)) == "2023-12-25"
  {
    WeekExamplePadding();
  }

  /** Day 19716 as `formatDate` writes it. */
  lemma PreviousWeekStartText()
    ensures FormatDate(19716) == "2023-12-25"
  {
    PreviousWeekStart();
    PreviousWeekStartFields();
  }

  /** Civil(2023, 12, 31) written out. */
  lemma PreviousWeekEndFields()
    ensures FormatCivil(Civil(2023, 12, 31)) == "2023-12-31"
  {
    WeekExamplePadding();
  }

  /** Day 19722 as `formatDate` writes it. */
  lemma PreviousWeekEndText()
    ensures FormatDate(19722) == "2023-12-31"
  {
    PreviousWeekEnd();
    PreviousWeekEndFields();
  }

  /** The two input strings name days 19723 and 19729. */
  lemma WeekExampleInputs()
    ensures ParseFullDate("2024-01-01") == Some(19723)
    ensures ParseFullDate("2024-01-07") == Some(19729)
  {
    CurrentWeekStartText();
    CurrentWeekEndText();
    FourDigitYearBounds(19723);
    FourDigitYearBounds(19729);
    ParseFormat(19723);
    ParseFormat(19729);
  }

  /** A week compared with the week before: 2024-01-01..07 against 2023-12-25..31. */
  lemma WeekExample()
    ensures DateRanges(ParseFullDate("2024-01-01"), ParseFullDate("2024-01-07"), true)
         == Ok([DateRange("2024-01-01", "2024-01-07"), DateRange("2023-12-25", "2023-12-31")])
  {
    WeekExampleInputs();
    ComparedRanges(19723, 19729);
    CurrentWeekStartText();
    CurrentWeekEndText();
    PreviousWeekStartText();
    PreviousWeekEndText();
  }
}
