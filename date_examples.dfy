/**
 * Expected outputs of the date utilities on the sample dates of the
 * repository's unit tests, derived from the model.
 */
module DateExamples {
  import opened Wrappers
  import opened Strings
  import opened DateUtils

  // ----- reading and writing short decimal numbers -----

  lemma DigitsValue2(s: string)
    requires |s| == 2 && AllDigits(s)
    ensures DigitsValue(s) == 10 * DigitValue(s[0]) + DigitValue(s[1])
  {
    assert s[..1][..0] == [];
  }

  lemma DigitsValue4(s: string)
    requires |s| == 4 && AllDigits(s)
    ensures DigitsValue(s) == 1000 * DigitValue(s[0]) + 100 * DigitValue(s[1]) + 10 * DigitValue(s[2]) + DigitValue(s[3])
  {
    assert s[..1][..0] == [] && s[..2][..1] == s[..1] && s[..3][..2] == s[..2] && s[..4] == s;
    assert DigitsValue(s[..1]) == DigitValue(s[0]);
    assert DigitsValue(s[..2]) == 10 * DigitValue(s[0]) + DigitValue(s[1]);
    assert DigitsValue(s[..3]) == 100 * DigitValue(s[0]) + 10 * DigitValue(s[1]) + DigitValue(s[2]);
  }

  /** How a `YYYY-MM-DD` string is read, field by field. */
  lemma ParseFields(s: string)
    requires |s| == 10 && s[4] == '-' && s[7] == '-' && AllDigits(s[..4]) && AllDigits(s[5..7]) && AllDigits(s[8..])
    ensures var d := Date(DigitsValue(s[..4]), DigitsValue(s[5..7]), DigitsValue(s[8..]));
            Parse(s) == if ValidDate(d) then Some(d) else None
    ensures DigitsValue(s[..4]) == 1000 * DigitValue(s[0]) + 100 * DigitValue(s[1]) + 10 * DigitValue(s[2]) + DigitValue(s[3])
    ensures DigitsValue(s[5..7]) == 10 * DigitValue(s[5]) + DigitValue(s[6])
    ensures DigitsValue(s[8..]) == 10 * DigitValue(s[8]) + DigitValue(s[9])
  {
    DigitsValue4(s[..4]);
    DigitsValue2(s[5..7]);
    DigitsValue2(s[8..]);
  }

  // ----- the numbers of the samples, in decimal -----

  lemma Spell1()
    ensures NatToString(1) == "1"
  {
  }

  lemma Spell4()
    ensures NatToString(4) == "4"
  {
  }

  lemma Spell15()
    ensures NatToString(15) == "15"
  {
  }

  lemma Spell25()
    ensures NatToString(25) == "25"
  {
  }

  lemma Spell29()
    ensures NatToString(29) == "29"
  {
  }

  lemma Spell31()
    ensures NatToString(31) == "31"
  {
  }

  lemma Spell2000()
    ensures NatToString(2000) == "2000"
  {
  }

  lemma Spell2023()
    ensures NatToString(2023) == "2023"
  {
  }

  lemma Spell2024()
    ensures NatToString(2024) == "2024"
  {
  }

  /** `formatDate` on a string that parses: month name, day, comma, year. */
  lemma FormatDateOf(s: string, d: Date, month: string, day: string, year: string)
    requires Parse(s) == Some(d)
    requires MonthName(d.month) == month && NatToString(d.day) == day && NatToString(d.year) == year
    ensures FormatDate(s) == month + " " + day + ", " + year
  {
  }

  // ----- the sample dates -----
  //
  // Each sample is read field by field first, then displayed.

  lemma ParseJan15()
    ensures Parse("2024-01-15") == Some(Date(2024, 1, 15))
  {
    ParseFields("2024-01-15");
  }

  lemma FormatJan15()
    ensures FormatDate("2024-01-15") == "Jan 15, 2024"
  {
    var s := "2024-01-15";
    ParseJan15();
    Spell2024();
    Spell15();
    FormatDateOf(s, Date(2024, 1, 15), "Jan", "15", "2024");
    assert "Jan" + " " + "15" + ", " + "2024" == "Jan 15, 2024";
  }

  lemma ParseDec25()
    ensures Parse("2023-12-25") == Some(Date(2023, 12, 25))
  {
    ParseFields("2023-12-25");
  }

  lemma FormatDec25()
    ensures FormatDate("2023-12-25") == "Dec 25, 2023"
  {
    var s := "2023-12-25";
    ParseDec25();
    Spell2023();
    Spell25();
    FormatDateOf(s, Date(2023, 12, 25), "Dec", "25", "2023");
    assert "Dec" + " " + "25" + ", " + "2023" == "Dec 25, 2023";
  }

  lemma ParseJul4()
    ensures Parse("2024-07-04") == Some(Date(2024, 7, 4))
  {
    ParseFields("2024-07-04");
  }

  lemma FormatJul4()
    ensures FormatDate("2024-07-04") == "Jul 4, 2024"
  {
    var s := "2024-07-04";
    ParseJul4();
    Spell2024();
    Spell4();
    FormatDateOf(s, Date(2024, 7, 4), "Jul", "4", "2024");
    assert "Jul" + " " + "4" + ", " + "2024" == "Jul 4, 2024";
  }

  lemma ParseLeapDay()
    ensures Parse("2024-02-29") == Some(Date(2024, 2, 29))
  {
    ParseFields("2024-02-29");
  }

  lemma FormatLeapDay()
    ensures FormatDate("2024-02-29") == "Feb 29, 2024"
  {
    var s := "2024-02-29";
    ParseLeapDay();
    Spell2024();
    Spell29();
    FormatDateOf(s, Date(2024, 2, 29), "Feb", "29", "2024");
    assert "Feb" + " " + "29" + ", " + "2024" == "Feb 29, 2024";
  }

  lemma ParseNewYear2000()
    ensures Parse("2000-01-01") == Some(Date(2000, 1, 1))
  {
    ParseFields("2000-01-01");
  }

  lemma FormatNewYear2000()
    ensures FormatDate("2000-01-01") == "Jan 1, 2000"
  {
    var s := "2000-01-01";
    ParseNewYear2000();
    Spell2000();
    Spell1();
    FormatDateOf(s, Date(2000, 1, 1), "Jan", "1", "2000");
    assert "Jan" + " " + "1" + ", " + "2000" == "Jan 1, 2000";
  }

  /** Strings that are not `YYYY-MM-DD` at all are shown as the sentinel. */
  lemma FormatDateRejects()
    ensures FormatDate("invalid") == "Invalid Date"
    ensures FormatDate("") == "Invalid Date"
    ensures FormatDate("not-a-date") == "Invalid Date"
  {
  }

  /** The leap day of a common year is not a real day. */
  lemma RejectCommonYearLeapDay()
    ensures FormatDate("2023-02-29") == "Invalid Date"
  {
    var s := "2023-02-29";
    ParseFields(s);
    assert DigitsValue(s[..4]) == 2023 && DigitsValue(s[5..7]) == 2 && DigitsValue(s[8..]) == 29;
    assert !ValidDate(Date(2023, 2, 29));
  }

  // ----- periods -----

  lemma ParseJan1()
    ensures Parse("2024-01-01") == Some(Date(2024, 1, 1))
  {
    ParseFields("2024-01-01");
  }

  lemma ParseJan31()
    ensures Parse("2024-01-31") == Some(Date(2024, 1, 31))
  {
    ParseFields("2024-01-31");
  }

  lemma ParseFeb15()
    ensures Parse("2024-02-15") == Some(Date(2024, 2, 15))
  {
    ParseFields("2024-02-15");
  }

  lemma FormatFeb15()
    ensures FormatDate("2024-02-15") == "Feb 15, 2024"
  {
    var s := "2024-02-15";
    ParseFeb15();
    Spell2024();
    Spell15();
    FormatDateOf(s, Date(2024, 2, 15), "Feb", "15", "2024");
    assert "Feb" + " " + "15" + ", " + "2024" == "Feb 15, 2024";
  }

  lemma ParseDec15()
    ensures Parse("2023-12-15") == Some(Date(2023, 12, 15))
  {
    ParseFields("2023-12-15");
  }

  lemma FormatDec15()
    ensures FormatDate("2023-12-15") == "Dec 15, 2023"
  {
    var s := "2023-12-15";
    ParseDec15();
    Spell2023();
    Spell15();
    FormatDateOf(s, Date(2023, 12, 15), "Dec", "15", "2023");
    assert "Dec" + " " + "15" + ", " + "2023" == "Dec 15, 2023";
  }

  /** `formatPeriod` in each of its three layouts, from the parsed dates. */
  lemma SameMonthOf(a: string, b: string, f: Date, t: Date)
    requires Parse(a) == Some(f) && Parse(b) == Some(t) && f.year == t.year && f.month == t.month
    ensures FormatPeriod(a, b) == (MonthName(f.month) + " " + NatToString(f.day)) + Separator
                                  + (NatToString(t.day) + ", " + NatToString(t.year))
  {
  }

  lemma SameYearOf(a: string, b: string, f: Date, t: Date)
    requires Parse(a) == Some(f) && Parse(b) == Some(t) && f.year == t.year && f.month != t.month
    ensures FormatPeriod(a, b) == MonthName(f.month) + " " + NatToString(f.day) + Separator + FormatDate(b)
  {
  }

  lemma CrossYearOf(a: string, b: string, f: Date, t: Date)
    requires Parse(a) == Some(f) && Parse(b) == Some(t) && f.year != t.year
    ensures FormatPeriod(a, b) == FormatDate(a) + Separator + FormatDate(b)
  {
  }

  lemma ShownJan1()
    ensures MonthName(1) + " " + NatToString(1) == "Jan 1"
  {
    Spell1();
  }

  lemma Shown31Of2024()
    ensures NatToString(31) + ", " + NatToString(2024) == "31, 2024"
  {
    Spell31();
    Spell2024();
  }

  /** A period within one month names the month once and the year once. */
  lemma PeriodSameMonth()
    ensures FormatPeriod("2024-01-01", "2024-01-31") == "Jan 1" + Separator + "31, 2024"
  {
    var a, b := "2024-01-01", "2024-01-31";
    ParseJan1();
    ParseJan31();
    SameMonthOf(a, b, Date(2024, 1, 1), Date(2024, 1, 31));
    ShownJan1();
    Shown31Of2024();
  }

  /** A period within one year names both months and the year once. */
  lemma PeriodSameYear()
    ensures FormatPeriod("2024-01-01", "2024-02-15") == "Jan 1" + Separator + "Feb 15, 2024"
  {
    var a, b := "2024-01-01", "2024-02-15";
    ParseJan1();
    ParseFeb15();
    SameYearOf(a, b, Date(2024, 1, 1), Date(2024, 2, 15));
    ShownJan1();
    FormatFeb15();
  }

  /** A period across years shows both dates in full. */
  lemma PeriodCrossYear()
    ensures FormatPeriod("2023-12-15", "2024-01-15") == "Dec 15, 2023" + Separator + "Jan 15, 2024"
  {
    var a, b := "2023-12-15", "2024-01-15";
    ParseDec15();
    ParseJan15();
    CrossYearOf(a, b, Date(2023, 12, 15), Date(2024, 1, 15));
    FormatDec15();
    FormatJan15();
  }

  lemma PeriodRejects()
    ensures FormatPeriod("invalid", "2024-01-31") == "Invalid Period"
    ensures FormatPeriod("2024-01-01", "invalid") == "Invalid Period"
    ensures FormatPeriod("invalid", "also-invalid") == "Invalid Period"
  {
  }
}
