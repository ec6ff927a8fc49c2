/**
 * Date utilities of the payslip app: parsing `YYYY-MM-DD` calendar dates
 * (section 4.1.2.2 of ISO 8601:2004, extended complete form), the short
 * English display form, the period display with its four cases, and the
 * chronological comparator used for sorting.
 */
module DateUtils {
  import opened Wrappers
  import opened Strings

  /** A calendar date as its three fields; `month` is 1-based. */
  datatype Date = Date(year: int, month: int, day: int)

  predicate IsLeapYear(y: int) {
    y % 4 == 0 && (y % 100 != 0 || y % 400 == 0)
  }

  function DaysInMonth(y: int, m: int): int
    requires 1 <= m <= 12
  {
    if m == 2 then (if IsLeapYear(y) then 29 else 28)
    else if m == 4 || m == 6 || m == 9 || m == 11 then 30
    else 31
  }

  /** A real day of the proleptic Gregorian calendar, with a 4-digit year. */
  predicate ValidDate(d: Date) {
    0 <= d.year <= 9999 && 1 <= d.month <= 12 && 1 <= d.day <= DaysInMonth(d.year, d.month)
  }

  /**
   * `new Date(s)` succeeds. Only the exact `YYYY-MM-DD` form is accepted, and
   * only when it names a real day.
   */
  function Parse(s: string): (r: Option<Date>)
    ensures r.Some? ==> ValidDate(r.value)
  {
    if |s| == 10 && s[4] == '-' && s[7] == '-'
       && AllDigits(s[..4]) && AllDigits(s[5..7]) && AllDigits(s[8..]) then
      var d := Date(DigitsValue(s[..4]), DigitsValue(s[5..7]), DigitsValue(s[8..]));
      if ValidDate(d) then Some(d) else None
    else
      None
  }

  /** The `YYYY-MM-DD` spelling of a date: the partner of `Parse`. */
  function ToIso(d: Date): (s: string)
    requires ValidDate(d)
    ensures |s| == 10
  {
    PadDigits(d.year, 4) + "-" + PadDigits(d.month, 2) + "-" + PadDigits(d.day, 2)
  }

  /** Every valid date is parsed back from its ISO spelling. */
  lemma ParseToIso(d: Date)
    requires ValidDate(d)
    ensures Parse(ToIso(d)) == Some(d)
  {
    var s := ToIso(d);
    assert s[..4] == PadDigits(d.year, 4);
    assert s[5..7] == PadDigits(d.month, 2);
    assert s[8..] == PadDigits(d.day, 2);
    PadDigitsValue(d.year, 4);
    PadDigitsValue(d.month, 2);
    PadDigitsValue(d.day, 2);
  }

  /** A string that parses is the ISO spelling of its date. */
  lemma ToIsoParse(s: string)
    requires Parse(s).Some?
    ensures ToIso(Parse(s).value) == s
  {
    DigitsValuePad(s[..4]);
    DigitsValuePad(s[5..7]);
    DigitsValuePad(s[8..]);
    assert s == s[..4] + "-" + s[5..7] + "-" + s[8..];
  }

  /** Two strings that parse to the same date are the same string. */
  lemma ParseInjective(a: string, b: string)
    requires Parse(a).Some? && Parse(a) == Parse(b)
    ensures a == b
  {
    ToIsoParse(a);
    ToIsoParse(b);
  }

  const MonthNames: seq<string> :=
    ["Jan", "Feb", "Mar", "Apr", "May", "Jun", "Jul", "Aug", "Sep", "Oct", "Nov", "Dec"]

  /** The `en-US` `month: 'short'` name of a month. */
  function MonthName(m: int): (name: string)
    requires 1 <= m <= 12
    ensures |name| == 3
  {
    MonthNames[m - 1]
  }

  /** The separator between the two sides of a period: an en dash with a space on each side. */
  const Separator: string := " \U{2013} "

  /** `Mon D`, the day not zero-padded. */
  function MonthDay(d: Date): (s: string)
    requires 1 <= d.month <= 12 && d.day >= 0
    ensures |s| > 3 && s[0] == MonthName(d.month)[0]
  {
    MonthName(d.month) + " " + NatToString(d.day)
  }

  /** `Mon D, YYYY`, the `en-US` short date form. */
  function ShortDate(d: Date): (s: string)
    requires ValidDate(d)
    ensures |s| > 3 && s[0] == MonthName(d.month)[0]
  {
    MonthDay(d) + ", " + NatToString(d.year)
  }

  /** No month name starts with the `I` of the two sentinels. */
  lemma MonthNameInitial(m: int)
    requires 1 <= m <= 12
    ensures MonthName(m)[0] != 'I'
  {
  }

  /** `formatDate`: the short date, or the literal `Invalid Date`. */
  function FormatDate(isoDate: string): (r: string)
    ensures r == "Invalid Date" <==> Parse(isoDate).None?
  {
    match Parse(isoDate)
    case None => "Invalid Date"
    case Some(d) =>
      MonthNameInitial(d.month);
      ShortDate(d)
  }

  /** `formatPeriod`: either side unparseable gives the literal `Invalid Period`, before any other case. */
  function FormatPeriod(fromDate: string, toDate: string): (r: string)
    ensures r == "Invalid Period" <==> Parse(fromDate).None? || Parse(toDate).None?
  {
    match (Parse(fromDate), Parse(toDate))
    case (Some(from), Some(to)) =>
      MonthNameInitial(from.month);
      MonthNameInitial(to.month);
      var sameYear := from.year == to.year;
      var sameMonth := sameYear && from.month == to.month;
      if sameMonth then
        var r := MonthName(to.month) + " " + NatToString(from.day) + Separator
                 + NatToString(to.day) + ", " + NatToString(to.year);
        assert r[0] == MonthName(to.month)[0];
        r
      else if sameYear then
        MonthDay(from) + Separator + ShortDate(to)
      else
        FormatDate(fromDate) + Separator + FormatDate(toDate)
    case _ => "Invalid Period"
  }

  // ----- chronological order -----

  /** `a` is an earlier calendar day than `b`: year, then month, then day. */
  predicate Before(a: Date, b: Date) {
    || a.year < b.year
    || (a.year == b.year && a.month < b.month)
    || (a.year == b.year && a.month == b.month && a.day < b.day)
  }

  function YearLength(y: int): int {
    if IsLeapYear(y) then 366 else 365
  }

  /** Days in the years 0 .. y-1. */
  function DaysBeforeYear(y: nat): nat {
    if y == 0 then 0 else DaysBeforeYear(y - 1) + YearLength(y - 1)
  }

  /** Days in the months 1 .. m-1 of year `y`. */
  function DaysBeforeMonth(y: int, m: int): int
    requires 1 <= m <= 12
  {
    [0, 31, 59, 90, 120, 151, 181, 212, 243, 273, 304, 334][m - 1]
    + (if IsLeapYear(y) && m > 2 then 1 else 0)
  }

  /** Days from 0000-01-01 to `d`: the model of a millisecond timestamp, divided by a day. */
  function DayNumber(d: Date): int
    requires ValidDate(d)
  {
    DaysBeforeYear(d.year) + DaysBeforeMonth(d.year, d.month) + d.day - 1
  }

  const MillisPerDay: int := 86_400_000

  lemma DayOfYearBounds(d: Date)
    requires ValidDate(d)
    ensures 0 <= DaysBeforeMonth(d.year, d.month) + d.day - 1 < YearLength(d.year)
  {
  }

  lemma MonthsInOrder(y: int, m1: int, m2: int)
    requires 1 <= m1 < m2 <= 12
    ensures DaysBeforeMonth(y, m1) + DaysInMonth(y, m1) <= DaysBeforeMonth(y, m2)
  {
  }

  lemma {:induction false} YearsInOrder(y1: nat, y2: nat)
    requires y1 < y2
    ensures DaysBeforeYear(y1) + YearLength(y1) <= DaysBeforeYear(y2)
    decreases y2
  {
    if y1 < y2 - 1 {
      YearsInOrder(y1, y2 - 1);
    }
  }

  /** Day numbers follow the calendar: an earlier day has a smaller number. */
  lemma DayNumberMonotone(a: Date, b: Date)
    requires ValidDate(a) && ValidDate(b)
    ensures Before(a, b) ==> DayNumber(a) < DayNumber(b)
    ensures a == b <==> DayNumber(a) == DayNumber(b)
  {
    DayOfYearBounds(a);
    DayOfYearBounds(b);
    if a.year < b.year {
      YearsInOrder(a.year, b.year);
    } else if b.year < a.year {
      YearsInOrder(b.year, a.year);
    } else if a.month < b.month {
      MonthsInOrder(a.year, a.month, b.month);
    } else if b.month < a.month {
      MonthsInOrder(a.year, b.month, a.month);
    }
  }

  /**
   * `compareDates(dateA, dateB, ascending)`: the difference of the two
   * timestamps, `a - b` when ascending and `b - a` otherwise.
   */
  function CompareDates(dateA: string, dateB: string, ascending: bool := true): (r: int)
    requires Parse(dateA).Some? && Parse(dateB).Some?
    ensures r == 0 <==> dateA == dateB
    ensures r < 0 <==> if ascending then Before(Parse(dateA).value, Parse(dateB).value)
                                     else Before(Parse(dateB).value, Parse(dateA).value)
    ensures r > 0 <==> if ascending then Before(Parse(dateB).value, Parse(dateA).value)
                                     else Before(Parse(dateA).value, Parse(dateB).value)
  {
    var a := Parse(dateA).value;
    var b := Parse(dateB).value;
    DayNumberMonotone(a, b);
    DayNumberMonotone(b, a);
    assert Parse(dateA) == Parse(dateB) ==> dateA == dateB by {
      if Parse(dateA) == Parse(dateB) {
        ParseInjective(dateA, dateB);
      }
    }
    var ta := DayNumber(a) * MillisPerDay;
    var tb := DayNumber(b) * MillisPerDay;
    if ascending then ta - tb else tb - ta
  }

  /** Swapping the arguments and swapping the direction agree, and both negate the ascending result. */
  lemma CompareDatesAntisymmetric(a: string, b: string)
    requires Parse(a).Some? && Parse(b).Some?
    ensures CompareDates(a, b, false) == CompareDates(b, a, true) == -CompareDates(a, b, true)
    ensures CompareDates(a, b) == CompareDates(a, b, true)
  {
  }
}
