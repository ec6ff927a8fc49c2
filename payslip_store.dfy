/**
 * The payslip store behind `PayslipProvider`: a fixed list of records and
 * two pieces of state the screens change, the sort order and the search
 * text. The derived lists are computed on demand, as the memoised values
 * are, and proved equal to the functions of `PayslipQuery`.
 */
module PayslipContext {
  import opened Wrappers
  import opened Strings
  import opened DateUtils
  import opened PayslipTypes
  import opened StableSort
  import opened PayslipQuery

  /** `result.filter(...)`: the loop that keeps the records matching `needle`, in order. */
  method KeepMatching(records: seq<Payslip>, needle: string) returns (kept: seq<Payslip>)
    ensures kept == FilterSeq(records, needle)
  {
    kept := [];
    var i := 0;
    while i < |records|
      invariant 0 <= i <= |records|
      invariant kept == FilterSeq(records[..i], needle)
    {
      assert records[..i + 1][..i] == records[..i];
      if Matches(records[i], needle) {
        kept := kept + [records[i]];
      }
      i := i + 1;
    }
    assert records[..i] == records;
  }

  /** Copy a list into a fresh array, as `[...payslips]` and `Array.from` do. */
  method ToArray<T>(s: seq<T>) returns (a: array<T>)
    ensures fresh(a) && a[..] == s
  {
    a := new T[|s|](i requires 0 <= i < |s| => s[i]);
  }

  class PayslipStore {
    /** The records, set once when the provider mounts. */
    const payslips: seq<Payslip>
    var sortOrder: SortOrder
    var filterText: string

    /** The provider's initial state: the given records, `newest` first, no search text. */
    constructor (initial: seq<Payslip>)
      ensures payslips == initial && sortOrder == Newest && filterText == ""
    {
      payslips := initial;
      sortOrder := Newest;
      filterText := "";
    }

    method SetSortOrder(order: SortOrder)
      modifies this
      ensures sortOrder == order && filterText == old(filterText)
    {
      sortOrder := order;
    }

    method SetFilterText(text: string)
      modifies this
      ensures filterText == text && sortOrder == old(sortOrder)
    {
      filterText := text;
    }

    /** `getPayslipById`: the first record with that id, or none. */
    function GetPayslipById(id: string): (r: Option<Payslip>)
      ensures r.None? <==> forall p :: p in payslips ==> p.id != id
      ensures r.Some? ==> r.value in payslips && r.value.id == id
      ensures r == FindById(payslips, id)
    {
      FindById(payslips, id)
    }

    /** `filteredPayslips`: copy the records, filter them when the trimmed text is not blank, sort the copy in place. */
    method FilteredPayslips() returns (result: seq<Payslip>)
      ensures result == View(payslips, filterText, sortOrder)
    {
      var kept := payslips;
      if Trim(filterText) != "" {
        kept := KeepMatching(payslips, Trim(Lower(filterText)));
      }
      var a := ToArray(kept);
      InsertionSort(a, After(sortOrder));
      result := a[..];
    }

    /** `usePayslipYears`: collect the years in a set, then sort them latest first. */
    method PayslipYears() returns (years: seq<int>)
      ensures years == YearList(payslips)
      ensures StrictlyDescending(years)
      ensures forall y :: y in years <==> y in YearsOf(payslips)
    {
      var seen: seq<int> := [];
      var i := 0;
      while i < |payslips|
        invariant 0 <= i <= |payslips|
        invariant seen == FirstSeenYears(payslips[..i])
      {
        assert payslips[..i + 1][..i] == payslips[..i];
        match Parse(payslips[i].fromDate) {
          case Some(d) =>
            if d.year !in seen {
              seen := seen + [d.year];
            }
          case None =>
        }
        i := i + 1;
      }
      assert payslips[..i] == payslips;
      var a := ToArray(seen);
      InsertionSort(a, Later());
      years := a[..];
      YearListDescending(payslips);
    }
  }
}
