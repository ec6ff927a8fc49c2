/**
 * Reading the display strings back. `formatDate` and `formatPeriod` are
 * checked against this reader: every string they produce is read back to
 * exactly the dates it was made from, and in the layout that the period's
 * year and month decide, while the two sentinels are read as nothing.
 */
module DateDisplay {
  import opened Wrappers
  import opened Strings
  import opened DateUtils

  /** Length of the run of digits at the front of `s`. */
  function DigitRun(s: string): (k: nat)
    ensures k <= |s| && AllDigits(s[..k])
    ensures k < |s| ==> !IsDigit(s[k])
  {
    if s != [] && IsDigit(s[0]) then
      var k := 1 + DigitRun(s[1..]);
      assert s[..k] == [s[0]] + s[1..][..k - 1];
      k
    else
      0
  }

  /** A decimal number without leading zeros at the front of `s`, and what follows it. */
  function ReadNat(s: string): Option<(nat, string)> {
    var k := DigitRun(s);
    if k == 0 || (k > 1 && s[0] == '0') then None else Some((DigitsValue(s[..k]), s[k..]))
  }

  /** `lit` at the front of `s`, and what follows it. */
  function ReadLiteral(lit: string, s: string): Option<string> {
    if |lit| <= |s| && s[..|lit|] == lit then Some(s[|lit|..]) else None
  }

  /** The first month, from `m` on, whose short name is `name`. */
  function FindMonth(name: string, m: int): (r: Option<int>)
    requires 1 <= m <= 13
    ensures r.Some? ==> m <= r.value <= 12 && MonthName(r.value) == name
    decreases 13 - m
  {
    if m == 13 then None
    else if MonthName(m) == name then Some(m)
    else FindMonth(name, m + 1)
  }

  /** A short month name at the front of `s`, and what follows it. */
  function ReadMonth(s: string): Option<(int, string)> {
    if |s| < 3 then None
    else
      match FindMonth(s[..3], 1)
      case None => None
      case Some(m) => Some((m, s[3..]))
  }

  /** `Mon D` at the front of `s`. */
  function ReadMonthDay(s: string): Option<(int, nat, string)> {
    var m :- ReadMonth(s);
    var r :- ReadLiteral(" ", m.1);
    var d :- ReadNat(r);
    Some((m.0, d.0, d.1))
  }

  /** `Mon D, YYYY` at the front of `s`. */
  function ReadShortDate(s: string): Option<(Date, string)> {
    var md :- ReadMonthDay(s);
    var r :- ReadLiteral(", ", md.2);
    var y :- ReadNat(r);
    Some((Date(y.0, md.0, md.1), y.1))
  }

  /** The whole of `s` is a short date. */
  function ParseShortDate(s: string): Option<Date> {
    var t :- ReadShortDate(s);
    if t.1 == [] then Some(t.0) else None
  }

  /** The three layouts of a displayed period. */
  datatype PeriodLayout =
    | SameMonth(month: int, fromDay: int, toDay: int, year: int)
    | SameYear(fromMonth: int, fromDay: int, toMonth: int, toDay: int, year: int)
    | CrossYear(from: Date, to: Date)

  /** The layout a period of two valid dates is shown in: decided by its years and months. */
  function Layout(from: Date, to: Date): PeriodLayout {
    if from.year == to.year && from.month == to.month then SameMonth(to.month, from.day, to.day, to.year)
    else if from.year == to.year then SameYear(from.month, from.day, to.month, to.day, to.year)
    else CrossYear(from, to)
  }

  /** The two dates a layout shows. */
  function Endpoints(p: PeriodLayout): (Date, Date) {
    match p
    case SameMonth(m, d1, d2, y) => (Date(y, m, d1), Date(y, m, d2))
    case SameYear(m1, d1, m2, d2, y) => (Date(y, m1, d1), Date(y, m2, d2))
    case CrossYear(f, t) => (f, t)
  }

  /** `Mon D, YYYY – Mon D, YYYY` */
  function ParseCrossYear(s: string): Option<PeriodLayout> {
    var a :- ReadShortDate(s);
    var r :- ReadLiteral(Separator, a.1);
    var b :- ReadShortDate(r);
    if b.1 == [] then Some(CrossYear(a.0, b.0)) else None
  }

  /** `Mon D – Mon D, YYYY` */
  function ParseSameYear(s: string): Option<PeriodLayout> {
    var a :- ReadMonthDay(s);
    var r :- ReadLiteral(Separator, a.2);
    var b :- ReadShortDate(r);
    if b.1 == [] then Some(SameYear(a.0, a.1, b.0.month, b.0.day, b.0.year)) else None
  }

  /** `Mon D – D, YYYY` */
  function ParseSameMonth(s: string): Option<PeriodLayout> {
    var a :- ReadMonthDay(s);
    var r :- ReadLiteral(Separator, a.2);
    var d :- ReadNat(r);
    var r2 :- ReadLiteral(", ", d.1);
    var y :- ReadNat(r2);
    if y.1 == [] then Some(SameMonth(a.0, a.1, d.0, y.0)) else None
  }

  /** Read a displayed period in any of its three layouts. */
  function ParsePeriod(s: string): Option<PeriodLayout> {
    var c := ParseCrossYear(s);
    if c.Some? then c
    else
      var y := ParseSameYear(s);
      if y.Some? then y else ParseSameMonth(s)
  }

  // ----- reading back what was written -----

  /** The text after a number: nothing, or something that is not a digit. */
  predicate Stops(rest: string) {
    rest == [] || !IsDigit(rest[0])
  }

  lemma {:induction false} DigitRunAppend(a: string, rest: string)
    requires AllDigits(a) && Stops(rest)
    ensures DigitRun(a + rest) == |a|
  {
    if a != [] {
      assert (a + rest)[1..] == a[1..] + rest;
      DigitRunAppend(a[1..], rest);
    }
  }

  lemma ReadNatString(n: nat, rest: string)
    requires Stops(rest)
    ensures ReadNat(NatToString(n) + rest) == Some((n, rest))
  {
    var a := NatToString(n);
    DigitRunAppend(a, rest);
    assert (a + rest)[..|a|] == a;
    assert (a + rest)[|a|..] == rest;
  }

  lemma ReadLiteralOf(lit: string, rest: string)
    ensures ReadLiteral(lit, lit + rest) == Some(rest)
  {
    assert (lit + rest)[..|lit|] == lit;
    assert (lit + rest)[|lit|..] == rest;
  }

  lemma {:induction false} FindMonthName(m: int, k: int)
    requires 1 <= k <= m <= 12
    ensures FindMonth(MonthName(m), k) == Some(m)
    decreases m - k
  {
    if k < m {
      assert MonthName(k) != MonthName(m) by {
        assert MonthNames[k - 1] != MonthNames[m - 1];
      }
      FindMonthName(m, k + 1);
    }
  }

  lemma ReadMonthName(m: int, rest: string)
    requires 1 <= m <= 12
    ensures ReadMonth(MonthName(m) + rest) == Some((m, rest))
  {
    var s := MonthName(m) + rest;
    assert s[..3] == MonthName(m);
    assert s[3..] == rest;
    FindMonthName(m, 1);
  }

  /** A month is read only where a month name's capital initial stands. */
  lemma ReadMonthInitial(s: string)
    ensures ReadMonth(s).Some? ==> 'A' <= s[0] <= 'Z' && s[0] != 'I'
  {
    if ReadMonth(s).Some? {
      var m := FindMonth(s[..3], 1).value;
      assert s[0] == MonthName(m)[0];
    }
  }

  // Each reader, one step at a time, on a string it is not allowed to look into.

  lemma MonthDaySteps(s: string, m: int, r1: string, r2: string, day: nat, rest: string)
    requires ReadMonth(s) == Some((m, r1)) && ReadLiteral(" ", r1) == Some(r2)
    requires ReadNat(r2) == Some((day, rest))
    ensures ReadMonthDay(s) == Some((m, day, rest))
  {
  }

  lemma ShortDateSteps(s: string, m: int, day: nat, r1: string, r2: string, year: nat, rest: string)
    requires ReadMonthDay(s) == Some((m, day, r1)) && ReadLiteral(", ", r1) == Some(r2)
    requires ReadNat(r2) == Some((year, rest))
    ensures ReadShortDate(s) == Some((Date(year, m, day), rest))
  {
  }

  lemma ShortDateNeedsComma(s: string)
    requires ReadMonthDay(s).Some? && ReadLiteral(", ", ReadMonthDay(s).value.2).None?
    ensures ReadShortDate(s).None?
  {
  }

  lemma ShortDateNeedsMonth(s: string)
    requires ReadMonth(s).None?
    ensures ReadMonthDay(s).None? && ReadShortDate(s).None?
  {
  }

  lemma CrossYearSteps(s: string, f: Date, r1: string, r2: string, t: Date)
    requires ReadShortDate(s) == Some((f, r1)) && ReadLiteral(Separator, r1) == Some(r2)
    requires ReadShortDate(r2) == Some((t, []))
    ensures ParsePeriod(s) == Some(CrossYear(f, t))
  {
  }

  lemma SameYearSteps(s: string, m: int, day: nat, r1: string, r2: string, t: Date)
    requires ReadShortDate(s).None?
    requires ReadMonthDay(s) == Some((m, day, r1)) && ReadLiteral(Separator, r1) == Some(r2)
    requires ReadShortDate(r2) == Some((t, []))
    ensures ParsePeriod(s) == Some(SameYear(m, day, t.month, t.day, t.year))
  {
  }

  lemma SameMonthSteps(s: string, m: int, d1: nat, r1: string, r2: string, d2: nat,
                       r3: string, r4: string, year: nat)
    requires ReadShortDate(s).None?
    requires ReadMonthDay(s) == Some((m, d1, r1)) && ReadLiteral(Separator, r1) == Some(r2)
    requires ReadShortDate(r2).None?
    requires ReadNat(r2) == Some((d2, r3)) && ReadLiteral(", ", r3) == Some(r4)
    requires ReadNat(r4) == Some((year, []))
    ensures ParsePeriod(s) == Some(SameMonth(m, d1, d2, year))
  {
  }

  lemma NothingReadWithoutMonth(s: string)
    requires ReadMonth(s).None?
    ensures ParseShortDate(s).None? && ParsePeriod(s).None?
  {
    ShortDateNeedsMonth(s);
  }

  // The pieces the formatters write, read back.

  lemma ReadMonthDayOf(m: int, day: nat, rest: string)
    requires 1 <= m <= 12 && Stops(rest)
    ensures ReadMonthDay(MonthName(m) + " " + NatToString(day) + rest) == Some((m, day, rest))
  {
    var n := NatToString(day);
    assert MonthName(m) + " " + n + rest == MonthName(m) + (" " + (n + rest));
    ReadMonthName(m, " " + (n + rest));
    ReadLiteralOf(" ", n + rest);
    ReadNatString(day, rest);
    MonthDaySteps(MonthName(m) + " " + n + rest, m, " " + (n + rest), n + rest, day, rest);
  }

  lemma ReadShortDateOf(d: Date, rest: string)
    requires ValidDate(d) && Stops(rest)
    ensures ReadShortDate(ShortDate(d) + rest) == Some((d, rest))
  {
    var y := NatToString(d.year);
    assert ShortDate(d) + rest == MonthDay(d) + (", " + (y + rest));
    ReadMonthDayOf(d.month, d.day, ", " + (y + rest));
    ReadLiteralOf(", ", y + rest);
    ReadNatString(d.year, rest);
    ShortDateSteps(ShortDate(d) + rest, d.month, d.day, ", " + (y + rest), y + rest, d.year, rest);
  }

  lemma ReadWholeShortDate(d: Date)
    requires ValidDate(d)
    ensures ReadShortDate(ShortDate(d)) == Some((d, []))
  {
    ReadShortDateOf(d, []);
    assert ShortDate(d) + [] == ShortDate(d);
  }

  /** `formatDate` loses nothing: its output is read back to the date it was given, and `Invalid Date` to nothing. */
  lemma FormatDateRoundTrip(isoDate: string)
    ensures ParseShortDate(FormatDate(isoDate)) == Parse(isoDate)
  {
    match Parse(isoDate)
    case None =>
      ReadMonthInitial(FormatDate(isoDate));
      NothingReadWithoutMonth(FormatDate(isoDate));
    case Some(d) =>
      ReadWholeShortDate(d);
  }

  /** After `Mon D` comes the separator, so a short date cannot be read there. */
  lemma NoShortDateBeforeSeparator(m: int, day: nat, tail: string)
    requires 1 <= m <= 12
    ensures ReadMonthDay(MonthName(m) + " " + NatToString(day) + Separator + tail) == Some((m, day, Separator + tail))
    ensures ReadShortDate(MonthName(m) + " " + NatToString(day) + Separator + tail).None?
  {
    var s := MonthName(m) + " " + NatToString(day) + Separator + tail;
    assert s == MonthName(m) + " " + NatToString(day) + (Separator + tail);
    ReadMonthDayOf(m, day, Separator + tail);
    SeparatorIsNoComma(tail);
    ShortDateNeedsComma(s);
  }

  lemma SeparatorIsNoComma(tail: string)
    ensures ReadLiteral(", ", Separator + tail).None?
  {
    assert (Separator + tail)[1] == '\U{2013}';
  }

  lemma SameMonthRoundTrip(f: Date, t: Date)
    requires ValidDate(f) && ValidDate(t) && f.year == t.year && f.month == t.month
    ensures var s := MonthName(t.month) + " " + NatToString(f.day) + Separator
                     + NatToString(t.day) + ", " + NatToString(t.year);
            ParsePeriod(s) == Some(SameMonth(t.month, f.day, t.day, t.year))
  {
    var head := MonthName(t.month) + " " + NatToString(f.day);
    var d2 := NatToString(t.day);
    var y := NatToString(t.year);
    var tail := d2 + (", " + y);
    var s := head + Separator + d2 + ", " + y;
    assert s == head + Separator + tail by {
      assert head + Separator + d2 + ", " + y == head + Separator + (d2 + (", " + y));
    }
    NoShortDateBeforeSeparator(t.month, f.day, tail);
    ReadLiteralOf(Separator, tail);
    ReadMonthInitial(tail);
    ShortDateNeedsMonth(tail);
    ReadNatString(t.day, ", " + y);
    ReadLiteralOf(", ", y);
    ReadNatString(t.year, []);
    assert y + [] == y;
    SameMonthSteps(s, t.month, f.day, Separator + tail, tail, t.day, ", " + y, y, t.year);
  }

  lemma SameYearRoundTrip(f: Date, t: Date)
    requires ValidDate(f) && ValidDate(t) && f.year == t.year && f.month != t.month
    ensures ParsePeriod(MonthDay(f) + Separator + ShortDate(t))
            == Some(SameYear(f.month, f.day, t.month, t.day, t.year))
  {
    var s := MonthDay(f) + Separator + ShortDate(t);
    NoShortDateBeforeSeparator(f.month, f.day, ShortDate(t));
    ReadLiteralOf(Separator, ShortDate(t));
    ReadWholeShortDate(t);
    SameYearSteps(s, f.month, f.day, Separator + ShortDate(t), ShortDate(t), t);
  }

  lemma CrossYearRoundTrip(f: Date, t: Date)
    requires ValidDate(f) && ValidDate(t)
    ensures ParsePeriod(ShortDate(f) + Separator + ShortDate(t)) == Some(CrossYear(f, t))
  {
    var s := ShortDate(f) + Separator + ShortDate(t);
    assert s == ShortDate(f) + (Separator + ShortDate(t));
    ReadShortDateOf(f, Separator + ShortDate(t));
    ReadLiteralOf(Separator, ShortDate(t));
    ReadWholeShortDate(t);
    CrossYearSteps(s, f, Separator + ShortDate(t), ShortDate(t), t);
  }

  /**
   * `formatPeriod` loses nothing and picks its layout from the years and
   * months alone: its output is read back to both dates, in the layout
   * `Layout` names, and `Invalid Period` is read as nothing.
   */
  lemma FormatPeriodRoundTrip(fromDate: string, toDate: string)
    ensures ParsePeriod(FormatPeriod(fromDate, toDate))
            == if Parse(fromDate).Some? && Parse(toDate).Some?
               then Some(Layout(Parse(fromDate).value, Parse(toDate).value))
               else None
  {
    match (Parse(fromDate), Parse(toDate))
    case (Some(f), Some(t)) =>
      if f.year == t.year && f.month == t.month {
        SameMonthRoundTrip(f, t);
      } else if f.year == t.year {
        SameYearRoundTrip(f, t);
      } else {
        CrossYearRoundTrip(f, t);
      }
    case _ =>
      var s := FormatPeriod(fromDate, toDate);
      ReadMonthInitial(s);
      NothingReadWithoutMonth(s);
  }

  /** A zero-padded day is not the display form, so the reader refuses it. */
  lemma PaddedDayRefused()
    ensures ParseShortDate("Jul 04, 2024").None?
  {
    var s := "Jul 04, 2024";
    ReadMonthName(7, s[3..]);
    assert s == MonthName(7) + s[3..];
    ReadLiteralOf(" ", s[4..]);
    assert s[3..] == " " + s[4..];
    assert DigitRun(s[4..]) > 1 && s[4..][0] == '0';
  }

  /** Each layout shows both dates in full. */
  lemma LayoutKeepsEndpoints(from: Date, to: Date)
    ensures Endpoints(Layout(from, to)) == (from, to)
  {
  }
}
