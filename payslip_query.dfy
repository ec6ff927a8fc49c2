/**
 * What the payslip store derives from its records: the search predicate,
 * the filtered view, its stable ordering by `fromDate`, lookup by id and the
 * list of years. The store's methods are proved against these functions.
 */
module PayslipQuery {
  import opened Wrappers
  import opened Strings
  import opened DateUtils
  import opened PayslipTypes
  import opened StableSort

  // ----- lookup -----

  /** `payslips.find(p => p.id === id)`: the first record with that id, if any. */
  function FindById(records: seq<Payslip>, id: string): (r: Option<Payslip>)
    ensures r.None? <==> forall p :: p in records ==> p.id != id
    ensures r.Some? ==> exists i :: 0 <= i < |records| && records[i] == r.value && r.value.id == id
                                    && forall j :: 0 <= j < i ==> records[j].id != id
  {
    if records == [] then None
    else if records[0].id == id then
      assert records[0] == records[0];
      Some(records[0])
    else
      var r := FindById(records[1..], id);
      assert forall p :: p in records ==> p == records[0] || p in records[1..];
      if r.Some? then
        var i :| 0 <= i < |records[1..]| && records[1..][i] == r.value && r.value.id == id
                 && forall j :: 0 <= j < i ==> records[1..][j].id != id;
        assert records[i + 1] == r.value;
        assert forall j :: 1 <= j < i + 1 ==> records[j].id != id by {
          forall j | 1 <= j < i + 1 ensures records[j].id != id {
            assert records[j] == records[1..][j - 1];
          }
        }
        r
      else
        r
  }

  // ----- the search predicate -----

  /** The lower-case month table of the search, indexed by `getMonth()`. */
  const MonthKeys: seq<string> :=
    ["jan", "feb", "mar", "apr", "may", "jun", "jul", "aug", "sep", "oct", "nov", "dec"]

  /** The search table is the display table lower-cased. */
  lemma MonthKeysAreLowerNames(m: int)
    requires 1 <= m <= 12
    ensures MonthKeys[m - 1] == Lower(MonthName(m))
  {
  }

  /**
   * `months[new Date(date).getMonth()]?.includes(needle)`: the lower-cased
   * display name of the date's month contains the needle; false when the
   * date does not parse.
   */
  predicate MonthMatches(date: string, needle: string): (r: bool)
    ensures r <==> Parse(date).Some? && Contains(Lower(MonthName(Parse(date).value.month)), needle)
  {
    match Parse(date)
    case None => false
    case Some(d) =>
      MonthKeysAreLowerNames(d.month);
      Contains(MonthKeys[d.month - 1], needle)
  }

  /**
   * The three clauses of the search: the id, the raw date strings, the month
   * names. The empty needle matches every record, and a record whose dates do
   * not parse can match only through its id or its raw date strings.
   */
  predicate Matches(p: Payslip, needle: string): (r: bool)
    ensures needle == [] ==> r
    ensures Parse(p.fromDate).None? && Parse(p.toDate).None? ==>
              (r <==> Contains(Lower(p.id), needle) || Contains(p.fromDate, needle) || Contains(p.toDate, needle))
  {
    assert needle == [] ==> OccursAt(Lower(p.id), needle, 0);
    || Contains(Lower(p.id), needle)
    || Contains(p.fromDate, needle) || Contains(p.toDate, needle)
    || MonthMatches(p.fromDate, needle) || MonthMatches(p.toDate, needle)
  }

  /**
   * `records.filter(p => Matches(p, needle))`: every matching record as often
   * as in the list, no other record; `FilterAppend` gives the order.
   */
  function FilterSeq(records: seq<Payslip>, needle: string): (r: seq<Payslip>)
    ensures forall p :: p in r <==> p in records && Matches(p, needle)
    ensures multiset(r) <= multiset(records)
    ensures forall p :: multiset(r)[p] == if Matches(p, needle) then multiset(records)[p] else 0
  {
    if records == [] then []
    else
      var init := records[..|records| - 1];
      var last := records[|records| - 1];
      assert records == init + [last];
      FilterSeq(init, needle) + (if Matches(last, needle) then [last] else [])
  }

  lemma FilterSnoc(s: seq<Payslip>, x: Payslip, needle: string)
    ensures FilterSeq(s + [x], needle) == FilterSeq(s, needle) + (if Matches(x, needle) then [x] else [])
  {
    assert (s + [x])[..|s|] == s;
  }

  /**
   * Regrouping a concatenation. Stated apart, over plain sequences: in the
   * context of `FilterAppend` the solver does not find this step in time.
   */
  lemma Concat3<T>(x: seq<T>, y: seq<T>, z: seq<T>)
    ensures (x + y) + z == x + (y + z)
  {
  }

  /** The filter keeps the order of the list: filtering a concatenation concatenates the results. */
  lemma {:induction false} FilterAppend(a: seq<Payslip>, b: seq<Payslip>, needle: string)
    ensures FilterSeq(a + b, needle) == FilterSeq(a, needle) + FilterSeq(b, needle)
    decreases |b|
  {
    if b == [] {
      assert a + b == a;
    } else {
      var init := b[..|b| - 1];
      var last := b[|b| - 1];
      var t := if Matches(last, needle) then [last] else [];
      assert b == init + [last];
      assert a + b == (a + init) + [last];
      FilterAppend(a, init, needle);
      FilterSnoc(a + init, last, needle);
      FilterSnoc(init, last, needle);
      var fa := FilterSeq(a, needle);
      var fi := FilterSeq(init, needle);
      assert FilterSeq(a + b, needle) == (fa + fi) + t;
      assert FilterSeq(b, needle) == fi + t;
      Concat3(fa, fi, t);
    }
  }

  /** The records the view keeps: all of them when the trimmed filter is empty. */
  function Kept(records: seq<Payslip>, filterText: string): (r: seq<Payslip>)
    ensures Trim(filterText) == "" ==> r == records
    ensures forall p :: multiset(r)[p] ==
              if Trim(filterText) == "" || Matches(p, Trim(Lower(filterText))) then multiset(records)[p] else 0
  {
    if Trim(filterText) != "" then FilterSeq(records, Trim(Lower(filterText))) else records
  }

  // ----- ordering by fromDate -----

  /**
   * The sort comparator `compareDates(a.fromDate, b.fromDate, sortOrder === 'oldest')`.
   * When either date does not parse, JavaScript's difference is `NaN`, which
   * `Array.prototype.sort` reads as 0.
   */
  function ComparePayslips(order: SortOrder, a: Payslip, b: Payslip): (r: int)
    ensures Key(a).None? || Key(b).None? ==> r == 0
    ensures Key(a).Some? && Key(b).Some? ==>
              && (r == 0 <==> Key(a) == Key(b))
              && (r > 0 <==> if order == Oldest then Before(Key(b).value, Key(a).value)
                             else Before(Key(a).value, Key(b).value))
  {
    SameKey(a, b);
    if Parse(a.fromDate).Some? && Parse(b.fromDate).Some? then
      CompareDates(a.fromDate, b.fromDate, order == Oldest)
    else
      0
  }

  /** `a` must be placed after `b`. */
  predicate Outranks(order: SortOrder, a: Payslip, b: Payslip) {
    ComparePayslips(order, a, b) > 0
  }

  /** The comparator as the sort sees it: `a` must be placed after `b`. */
  function After(order: SortOrder): (Payslip, Payslip) -> bool {
    (a, b) => Outranks(order, a, b)
  }

  /** The parsed `fromDate`, the key the records are sorted by. */
  function Key(p: Payslip): Option<Date> {
    Parse(p.fromDate)
  }

  /** Two records share a parsed `fromDate` only when they share the string. */
  lemma SameKey(a: Payslip, b: Payslip)
    ensures Key(a).Some? && Key(a) == Key(b) ==> a.fromDate == b.fromDate
  {
    if Key(a).Some? && Key(a) == Key(b) {
      ParseInjective(a.fromDate, b.fromDate);
    }
  }

  predicate AllDatesParse(records: seq<Payslip>) {
    forall p :: p in records ==> Key(p).Some?
  }

  /** The derived view `filteredPayslips`: filter a copy, then stable-sort it by `fromDate`. */
  function View(records: seq<Payslip>, filterText: string, order: SortOrder): (r: seq<Payslip>)
    ensures multiset(r) == multiset(Kept(records, filterText))
  {
    Sort(After(order), Kept(records, filterText))
  }

  /** Where both dates parse, the comparator orders by day number, later first for `newest`. */
  function Rank(order: SortOrder): Payslip -> int {
    p => if Key(p).None? then 0
         else if order == Oldest then DayNumber(Key(p).value) else -DayNumber(Key(p).value)
  }

  lemma OutranksByRank(order: SortOrder, records: seq<Payslip>)
    requires AllDatesParse(records)
    ensures RankedBy(After(order), Rank(order), records)
  {
  }

  lemma OutranksSeparatesKeys(order: SortOrder, records: seq<Payslip>)
    ensures KeyedBy(After(order), Key, records)
  {
  }

  // ----- what the view promises -----

  /** The view holds exactly the records that pass the search, each as often as in the list. */
  lemma ViewMembers(records: seq<Payslip>, filterText: string, order: SortOrder)
    ensures multiset(View(records, filterText, order)) == multiset(Kept(records, filterText))
    ensures forall p :: p in View(records, filterText, order) <==>
              p in records && (Trim(filterText) == "" || Matches(p, Trim(Lower(filterText))))
  {
    var v := View(records, filterText, order);
    forall p ensures p in v <==> p in Kept(records, filterText) {
      assert p in v <==> p in multiset(v);
    }
  }

  /** An empty or blank filter shows every record. */
  lemma ViewUnfiltered(records: seq<Payslip>, filterText: string, order: SortOrder)
    requires Trim(filterText) == ""
    ensures multiset(View(records, filterText, order)) == multiset(records)
  {
  }

  /** The view's records have parsed dates when all the kept records do. */
  lemma ViewParses(records: seq<Payslip>, filterText: string, order: SortOrder)
    requires AllDatesParse(Kept(records, filterText))
    ensures AllDatesParse(View(records, filterText, order))
  {
    var v := View(records, filterText, order);
    forall p | p in v ensures Key(p).Some? {
      assert multiset(v)[p] > 0;
    }
  }

  /** Two parsed records the comparator leaves in place are in the requested order. */
  lemma InPlaceIsOrdered(order: SortOrder, a: Payslip, b: Payslip)
    requires Key(a).Some? && Key(b).Some? && !After(order)(a, b)
    ensures if order == Newest then !Before(Key(a).value, Key(b).value)
            else !Before(Key(b).value, Key(a).value)
  {
    assert !Outranks(order, a, b);
  }

  /**
   * `newest` lists later `fromDate`s first and `oldest` earlier ones first,
   * whenever every record the search keeps has a `fromDate` that parses.
   */
  lemma ViewChronological(records: seq<Payslip>, filterText: string, order: SortOrder)
    requires AllDatesParse(Kept(records, filterText))
    ensures var v := View(records, filterText, order);
            forall i, j :: 0 <= i < j < |v| ==>
              Key(v[i]).Some? && Key(v[j]).Some? &&
              if order == Newest then !Before(Key(v[i]).value, Key(v[j]).value)
              else !Before(Key(v[j]).value, Key(v[i]).value)
  {
    var kept := Kept(records, filterText);
    var v := View(records, filterText, order);
    ViewParses(records, filterText, order);
    OutranksByRank(order, kept);
    SortSorted(After(order), Rank(order), kept);
    forall i, j | 0 <= i < j < |v|
      ensures Key(v[i]).Some? && Key(v[j]).Some? &&
              if order == Newest then !Before(Key(v[i]).value, Key(v[j]).value)
              else !Before(Key(v[j]).value, Key(v[i]).value)
    {
      assert v[i] in v && v[j] in v;
      InPlaceIsOrdered(order, v[i], v[j]);
    }
  }

  /** Records with the same `fromDate` keep the order they had in the list. */
  lemma ViewStable(records: seq<Payslip>, filterText: string, order: SortOrder, k: Option<Date>)
    ensures WithKey(Key, View(records, filterText, order), k) == WithKey(Key, Kept(records, filterText), k)
  {
    OutranksSeparatesKeys(order, Kept(records, filterText));
    SortStable(After(order), Key, Kept(records, filterText), k);
  }

  /** The sort order changes only the order of the view, never its contents. */
  lemma SortOrderKeepsMembers(records: seq<Payslip>, filterText: string)
    ensures multiset(View(records, filterText, Newest)) == multiset(View(records, filterText, Oldest))
  {
  }

  /** Filters that differ only in letter case or surrounding whitespace give the same view. */
  lemma ViewIgnoresCaseAndPadding(records: seq<Payslip>, f1: string, f2: string, order: SortOrder)
    requires Lower(Trim(f1)) == Lower(Trim(f2))
    ensures View(records, f1, order) == View(records, f2, order)
  {
    TrimLowerCommute(f1);
    TrimLowerCommute(f2);
    assert |Trim(f1)| == |Lower(Trim(f1))|;
    assert |Trim(f2)| == |Lower(Trim(f2))|;
  }

  // ----- years -----

  /** The calendar years of the records' `fromDate`s, skipping dates that do not parse. */
  function YearsOf(records: seq<Payslip>): (r: set<int>)
    ensures forall y :: y in r <==> exists p :: p in records && Key(p).Some? && Key(p).value.year == y
  {
    if records == [] then {}
    else
      var init := records[..|records| - 1];
      var last := records[|records| - 1];
      assert records == init + [last];
      YearsOf(init) + (if Key(last).Some? then {Key(last).value.year} else {})
  }

  predicate StrictlyDescending(s: seq<int>) {
    forall i, j :: 0 <= i < j < |s| ==> s[i] > s[j]
  }

  predicate NoDuplicates(s: seq<int>) {
    forall i, j :: 0 <= i < j < |s| ==> s[i] != s[j]
  }

  /**
   * The years in the order a JavaScript `Set` holds them: each year once, at
   * the position of the first record that has it.
   */
  function FirstSeenYears(records: seq<Payslip>): (r: seq<int>)
    ensures NoDuplicates(r)
    ensures forall y :: y in r <==> y in YearsOf(records)
  {
    if records == [] then []
    else
      var init := records[..|records| - 1];
      var last := records[|records| - 1];
      assert records == init + [last];
      var seen := FirstSeenYears(init);
      if Key(last).Some? && Key(last).value.year !in seen then seen + [Key(last).value.year] else seen
  }

  /** The comparator `(a, b) => b - a`: `a` goes after `b` when `b` is the later year. */
  function Later(): (int, int) -> bool {
    (a, b) => b - a > 0
  }

  /** `Array.from(years).sort((a, b) => b - a)`. */
  function YearList(records: seq<Payslip>): seq<int> {
    Sort(Later(), FirstSeenYears(records))
  }

  lemma {:induction false} NoDuplicatesCounts(s: seq<int>)
    requires NoDuplicates(s)
    ensures forall y :: multiset(s)[y] <= 1
  {
    if s != [] {
      var init := s[..|s| - 1];
      assert s == init + [s[|s| - 1]];
      assert NoDuplicates(init) by {
        forall i, j | 0 <= i < j < |init| ensures init[i] != init[j] {
          assert init[i] == s[i] && init[j] == s[j];
        }
      }
      NoDuplicatesCounts(init);
      assert s[|s| - 1] !in init by {
        forall k | 0 <= k < |init| ensures init[k] != s[|s| - 1] {
          assert init[k] == s[k];
        }
      }
    }
  }

  lemma CountsNoDuplicates(s: seq<int>)
    requires forall y :: multiset(s)[y] <= 1
    ensures NoDuplicates(s)
  {
    forall i, j | 0 <= i < j < |s| ensures s[i] != s[j] {
      assert s == s[..j] + [s[j]] + s[j + 1..];
      assert s[i] in s[..j];
      assert multiset(s)[s[j]] >= multiset(s[..j])[s[j]] + 1;
    }
  }

  /** The hook's result: every year of a parsed `fromDate`, once each, latest first. */
  lemma YearListDescending(records: seq<Payslip>)
    ensures StrictlyDescending(YearList(records))
    ensures forall y :: y in YearList(records) <==> y in YearsOf(records)
  {
    var s := FirstSeenYears(records);
    var r := YearList(records);
    SortSorted(Later(), y => -y, s);
    NoDuplicatesCounts(s);
    CountsNoDuplicates(r);
    forall y ensures y in r <==> y in s {
      assert y in r <==> y in multiset(r);
    }
  }

  /** Only one strictly descending list holds a given set of years. */
  lemma {:induction false} DescendingUnique(a: seq<int>, b: seq<int>)
    requires StrictlyDescending(a) && StrictlyDescending(b)
    requires forall y :: y in a <==> y in b
    ensures a == b
    decreases |a|
  {
    assert a != [] ==> b != [] by {
      if a != [] {
        assert a[0] in a;
      }
    }
    assert b != [] ==> a != [] by {
      if b != [] {
        assert b[0] in b;
      }
    }
    if a != [] {
      assert a[0] in b && b[0] in a;
      var i :| 0 <= i < |b| && b[i] == a[0];
      var j :| 0 <= j < |a| && a[j] == b[0];
      assert a[0] >= a[j] && b[0] >= b[i];
      forall y ensures y in a[1..] <==> y in b[1..] {
        if y in a[1..] {
          var k :| 0 <= k < |a[1..]| && a[1..][k] == y;
          assert a[k + 1] == y && y < a[0] && y in b;
        }
        if y in b[1..] {
          var k :| 0 <= k < |b[1..]| && b[1..][k] == y;
          assert b[k + 1] == y && y < b[0] && y in a;
        }
      }
      DescendingUnique(a[1..], b[1..]);
      assert a == [a[0]] + a[1..] && b == [b[0]] + b[1..];
    }
  }

  /** The year list is the only strictly descending list holding exactly those years. */
  lemma YearListIsTheOnly(records: seq<Payslip>, years: seq<int>)
    requires StrictlyDescending(years)
    requires forall y :: y in years <==> y in YearsOf(records)
    ensures years == YearList(records)
  {
    YearListDescending(records);
    DescendingUnique(years, YearList(records));
  }
}
