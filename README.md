# Payslips app core, modelled in Dafny

The app is a React Native payslip viewer. Its core has three parts.

- **Date utilities** (`src/utils/dateUtils.ts`):
  - `formatDate` turns an ISO date into `Jan 15, 2024`.
  - `formatPeriod` shows a date range in one of three layouts (same month, same year, different years), or `Invalid Period`.
  - `compareDates` is the comparator the list sorts with.
- **Payslip store** (`src/context/PayslipContext.tsx`). It keeps a fixed list of payslip records, a sort order (`newest`/`oldest`) and a search text, and offers:
  - lookup by id;
  - the derived view `filteredPayslips`, which filters on the id, the raw date strings and the month names, then stable-sorts by `fromDate`;
  - `usePayslipYears`: the distinct years of the records, latest first.
- **Theme store** (`src/context/ThemeContext.tsx`). A theme mode (`light`, `dark`, `system`) and the device's colour scheme resolve to the scheme shown. `toggleTheme` flips it.

The model, module by module:

- `DateUtils` (date_utils.dfy):
  - A date is a `(year, month, day)` triple read from the exact `YYYY-MM-DD` form. A string parses only when it names a real Gregorian day. The fields are taken as UTC calendar fields.
  - The `en-US` display forms are spelled out with the fixed English month table.
  - Timestamps are modelled as day numbers times 86 400 000 ms.
- `DateDisplay` (date_display.dfy) reads the display strings back. Round-trip lemmas show that:
  - `formatDate` and `formatPeriod` lose no information;
  - `formatPeriod` picks its layout from the years and months alone;
  - the two sentinels are never mistaken for a date.
- `DateExamples` (date_examples.dfy) derives the outputs the repository's unit tests expect.
- `Strings` models the three string operations the search uses:
  - `trim`, with ECMAScript's whitespace set;
  - `toLowerCase`, on ASCII letters;
  - `includes`.
- `StableSort`:
  - Defines a stable insertion sort by a comparator. For a consistent comparator, its order is the one `Array.prototype.sort` must produce (ECMAScript 2019 and later). For an inconsistent one, it is one of the orders the engine may produce.
  - Proves that this order is sorted for a ranked comparator and stable per key.
  - Gives an in-place array insertion sort proved equal to it.
- `PayslipQuery` states what the store derives, as functions of its state.
- `PayslipContext.PayslipStore` is the store as a class:
  - `payslips` is a constant; `sortOrder` and `filterText` are fields its setters update;
  - `FilteredPayslips` copies the list, filters it in a loop and sorts it in place;
  - `PayslipYears` collects years in insertion order, as a JavaScript `Set` does, then sorts them.
- `ThemeContext` has pure resolution and toggle functions, plus a `ThemeState` class holding the mode and the device scheme.

## Model

| member | source | states |
|---|---|---|
| DateUtils.Parse | src/utils/dateUtils.ts:11-16 | a date parses only to a real calendar day with a 4-digit year |
| DateUtils.ParseToIso | src/utils/dateUtils.ts:11-16 | every valid date is parsed back from its `YYYY-MM-DD` spelling |
| DateUtils.ToIsoParse | src/utils/dateUtils.ts:11-16 | a string that parses is exactly the ISO spelling of its date |
| DateUtils.ParseInjective | src/utils/dateUtils.ts:66-67 | two strings with the same timestamp are the same string |
| DateUtils.FormatDate | src/utils/dateUtils.ts:10-23 | the result is the literal `Invalid Date` exactly when the input does not parse |
| DateUtils.ShortDate | src/utils/dateUtils.ts:18-22 | the `Mon D, YYYY` form starts with the month name's initial |
| DateUtils.MonthDay | src/utils/dateUtils.ts:49 | the `Mon D` form starts with the month name's initial |
| DateUtils.MonthNameInitial | src/utils/dateUtils.ts:18-22 | no month abbreviation starts with the `I` of the two sentinels |
| DateUtils.FormatPeriod | src/utils/dateUtils.ts:31-56 | the result is `Invalid Period` exactly when either side fails to parse; this check precedes every layout |
| DateUtils.DayNumberMonotone | src/utils/dateUtils.ts:66-67 | timestamps follow the calendar: an earlier day has a smaller one, equal days equal ones |
| DateUtils.YearsInOrder | src/utils/dateUtils.ts:66-67 | every day of a year precedes every day of a later year |
| DateUtils.CompareDates | src/utils/dateUtils.ts:65-70 | zero exactly for equal dates; negative exactly when the first is earlier (ascending) or later (descending); positive in the other case |
| DateUtils.CompareDatesAntisymmetric | src/utils/dateUtils.ts:65-70 | descending equals swapped ascending equals negated ascending; ascending is the default |
| DateDisplay.FormatDateRoundTrip | src/utils/dateUtils.ts:10-23 | reading back `formatDate`'s output gives the parsed date, and nothing for `Invalid Date` |
| DateDisplay.FormatPeriodRoundTrip | src/utils/dateUtils.ts:31-56 | reading back `formatPeriod`'s output gives both dates in the layout the years and months select, and nothing for `Invalid Period` |
| DateDisplay.SameMonthRoundTrip | src/utils/dateUtils.ts:43-46 | the same-month form `Mon D1 – D2, YYYY` is read back to its month, days and year |
| DateDisplay.SameYearRoundTrip | src/utils/dateUtils.ts:47-51 | the same-year form `Mon D – Mon D, YYYY` is read back to both dates |
| DateDisplay.CrossYearRoundTrip | src/utils/dateUtils.ts:52-55 | the cross-year form, two full short dates, is read back to both dates |
| DateDisplay.LayoutKeepsEndpoints | src/utils/dateUtils.ts:40-55 | every layout keeps both endpoints in full |
| DateDisplay.PaddedDayRefused | src/utils/dateUtils.ts:18-22 | the reader refuses a zero-padded day, so the round trips pin the unpadded spelling |
| DateDisplay.FindMonth | src/utils/dateUtils.ts:18-22 | a month name is recognised only as the month it abbreviates |
| DateExamples.FormatJan15 | src/utils/dateUtils.test.ts:11 | `formatDate('2024-01-15')` is `Jan 15, 2024` |
| DateExamples.FormatDec25 | src/utils/dateUtils.test.ts:12 | `formatDate('2023-12-25')` is `Dec 25, 2023` |
| DateExamples.FormatJul4 | src/utils/dateUtils.test.ts:13 | `formatDate('2024-07-04')` is `Jul 4, 2024`, the day not padded |
| DateExamples.FormatLeapDay | src/utils/dateUtils.test.ts:23 | the leap day of 2024 formats as `Feb 29, 2024` |
| DateExamples.FormatNewYear2000 | src/utils/dateUtils.test.ts:24 | `formatDate('2000-01-01')` is `Jan 1, 2000` |
| DateExamples.FormatDateRejects | src/utils/dateUtils.test.ts:16-20 | `invalid`, the empty string and `not-a-date` give `Invalid Date` |
| DateExamples.RejectCommonYearLeapDay | src/utils/dateUtils.ts:11-16 | 29 February of a common year is not a date |
| DateExamples.PeriodSameMonth | src/utils/dateUtils.test.ts:29-32 | `2024-01-01`..`2024-01-31` is `Jan 1 – 31, 2024` |
| DateExamples.PeriodSameYear | src/utils/dateUtils.test.ts:34-37 | `2024-01-01`..`2024-02-15` is `Jan 1 – Feb 15, 2024` |
| DateExamples.PeriodCrossYear | src/utils/dateUtils.test.ts:39-42 | `2023-12-15`..`2024-01-15` is `Dec 15, 2023 – Jan 15, 2024` |
| DateExamples.PeriodRejects | src/utils/dateUtils.test.ts:44-48 | an unparseable side on either end gives `Invalid Period` |
| Strings.Trim | src/context/PayslipContext.tsx:59-60 | the result is the text with only whitespace removed before and after it; none remains at either end; it is empty exactly when the text is all whitespace |
| Strings.Lower | src/context/PayslipContext.tsx:60 | same length; each character mapped to lower case |
| Strings.TrimLowerCommute | src/context/PayslipContext.tsx:60 | lower-casing then trimming equals trimming then lower-casing |
| Strings.Contains | src/context/PayslipContext.tsx:64-70 | `includes` holds exactly when the needle occurs at some position |
| Strings.NatToString | src/utils/dateUtils.ts:46 | the decimal spelling of a number is a non-empty digit string that reads back as that number, with no leading zero except for zero itself |
| StableSort.Sort | src/context/PayslipContext.tsx:93-96 | sorting is a permutation of its input |
| StableSort.SortSorted | src/context/PayslipContext.tsx:93-96 | with a comparator ranked on the elements, no element precedes one it must follow |
| StableSort.SortStable | src/context/PayslipContext.tsx:93-96 | elements the comparator does not separate keep their relative order |
| StableSort.InsertionSort | src/context/PayslipContext.tsx:93-96 | the in-place sort leaves the array equal to the stable sort of its old contents |
| StableSort.Lift | src/context/PayslipContext.tsx:93-96 | one insertion step leaves the prefix equal to the old prefix with the element inserted |
| PayslipQuery.FindById | src/context/PayslipContext.tsx:45-50 | none exactly when no record has the id; otherwise the first record that has it |
| PayslipQuery.MonthKeysAreLowerNames | src/context/PayslipContext.tsx:78-79 | the search's month table is the display month table in lower case |
| PayslipQuery.MonthMatches | src/context/PayslipContext.tsx:76-84 | the month clause holds exactly when the date parses and the lower-cased display name of its month contains the search text |
| PayslipQuery.Matches | src/context/PayslipContext.tsx:62-89 | the empty search text matches every record; a record whose dates do not parse matches only through its id or its raw date strings |
| PayslipQuery.FilterSeq | src/context/PayslipContext.tsx:62-89 | every matching record is kept as often as it occurs in the list, and no other record |
| PayslipQuery.FilterAppend | src/context/PayslipContext.tsx:62-89 | the filter keeps list order: filtering a concatenation concatenates the filtered parts |
| PayslipQuery.Kept | src/context/PayslipContext.tsx:56-62 | a blank search text keeps the list as it is; otherwise each record is kept, as often as it occurs, exactly when it matches the trimmed, lower-cased text |
| PayslipQuery.View | src/context/PayslipContext.tsx:55-99 | `filteredPayslips` holds the kept records, each as often as it was kept |
| PayslipQuery.ComparePayslips | src/context/PayslipContext.tsx:93-96 | zero when either `fromDate` does not parse (the engine reads `NaN` as 0) or when both are the same day; otherwise positive exactly when the first record belongs after the second: a later day for `oldest`, an earlier one for `newest` |
| PayslipQuery.After | src/context/PayslipContext.tsx:93-96 | definition only: the comparator as the sort sees it, positive `ComparePayslips`; its properties are in `OutranksByRank` and `OutranksSeparatesKeys` |
| PayslipQuery.ViewMembers | src/context/PayslipContext.tsx:55-99 | the view holds exactly the records that pass the trimmed, lower-cased search, each as often as in the list |
| PayslipQuery.ViewUnfiltered | src/context/PayslipContext.tsx:59 | a blank search text shows every record |
| PayslipQuery.ViewChronological | src/context/PayslipContext.tsx:93-96 | when the `fromDate` of every record the search keeps parses, `newest` never lists an earlier date before a later one and `oldest` never the reverse |
| PayslipQuery.ViewStable | src/context/PayslipContext.tsx:93-96 | in the model's sort, records with the same `fromDate` keep their order from the list |
| PayslipQuery.SortOrderKeepsMembers | src/context/PayslipContext.tsx:92-96 | the sort order changes only the order, never the contents |
| PayslipQuery.ViewIgnoresCaseAndPadding | src/context/PayslipContext.tsx:59-60 | search texts that differ only in letter case or surrounding whitespace give the same view |
| PayslipQuery.OutranksByRank | src/context/PayslipContext.tsx:93-96 | when dates parse, the comparator orders by day number, later first for `newest` |
| PayslipQuery.OutranksSeparatesKeys | src/context/PayslipContext.tsx:93-96 | the comparator never separates two records with the same `fromDate` |
| PayslipQuery.YearsOf | src/context/PayslipContext.tsx:147-152 | a year is collected exactly when some record's `fromDate` parses to it |
| PayslipQuery.FirstSeenYears | src/context/PayslipContext.tsx:145-152 | the set holds each collected year once |
| PayslipQuery.Later | src/context/PayslipContext.tsx:154 | definition only: the comparator `(a, b) => b - a`, positive when `b` is the later year |
| PayslipQuery.YearList | src/context/PayslipContext.tsx:154 | definition only: the collected years sorted by `Later`; its properties are in `YearListDescending` and `YearListIsTheOnly` |
| PayslipQuery.YearListDescending | src/context/PayslipContext.tsx:141-156 | the year list is strictly descending and holds exactly the collected years |
| PayslipQuery.DescendingUnique | src/context/PayslipContext.tsx:154 | two strictly descending lists with the same members are equal |
| PayslipQuery.YearListIsTheOnly | src/context/PayslipContext.tsx:141-156 | any strictly descending list of exactly the collected years is the year list |
| PayslipContext.KeepMatching | src/context/PayslipContext.tsx:62-89 | the filter loop keeps the matching records in order |
| PayslipContext.PayslipStore.constructor | src/context/PayslipContext.tsx:38-40 | the store starts with the given records, `newest` and an empty search text |
| PayslipContext.PayslipStore.SetSortOrder | src/context/PayslipContext.tsx:39 | replaces the sort order and keeps the search text |
| PayslipContext.PayslipStore.SetFilterText | src/context/PayslipContext.tsx:40 | replaces the search text and keeps the sort order |
| PayslipContext.PayslipStore.GetPayslipById | src/context/PayslipContext.tsx:45-50 | none exactly when no record has the id; a found record is in the list and has the id; the result is the first such record of the raw list, whatever the search text and sort order |
| PayslipContext.PayslipStore.FilteredPayslips | src/context/PayslipContext.tsx:55-99 | copying, filtering and sorting in place yields the view of the current state |
| PayslipContext.PayslipStore.PayslipYears | src/context/PayslipContext.tsx:141-156 | the result is the year list: strictly descending, exactly the years of parsed `fromDate`s |
| ThemeContext.ResolveScheme | src/context/ThemeContext.tsx:25-30 | an explicit mode gives its own scheme; `system` gives dark exactly when the device reports dark |
| ThemeContext.Toggled | src/context/ThemeContext.tsx:32-40 | toggling always leaves `system` mode |
| ThemeContext.ToggleFlipsScheme | src/context/ThemeContext.tsx:32-42 | toggling always flips the scheme shown |
| ThemeContext.ToggleTwice | src/context/ThemeContext.tsx:32-40 | toggling twice returns to an explicit mode |
| ThemeContext.ExplicitModeIgnoresSystem | src/context/ThemeContext.tsx:25-40 | with an explicit mode neither the scheme nor the toggle depends on the device |
| ThemeContext.ThemeState.ColorSchemeNow | src/context/ThemeContext.tsx:25-30 | the scheme shown is dark exactly when the mode is `dark`, or `system` with a device reporting dark |
| ThemeContext.ThemeState.IsDark | src/context/ThemeContext.tsx:42 | `isDark` holds exactly when the mode is `dark`, or `system` with a device reporting dark |
| ThemeContext.ThemeState.constructor | src/context/ThemeContext.tsx:22-23 | the provider starts in `system` mode |
| ThemeContext.ThemeState.SetThemeMode | src/context/ThemeContext.tsx:23 | replaces the mode and keeps the device scheme |
| ThemeContext.ThemeState.SetSystemScheme | src/context/ThemeContext.tsx:22 | the device scheme changes and the mode is kept |
| ThemeContext.ThemeState.ToggleTheme | src/context/ThemeContext.tsx:32-42 | the mode becomes the toggled one, never `system`, and `isDark` flips |

## Left out

- Dates other than exact `YYYY-MM-DD` are not modelled. That covers time-of-day, offsets, expanded years and the looser forms a JavaScript engine may accept; the model treats them all as unparseable. Some engines roll a day past the month's end into the next month; the model rejects such a day.
- Time zones are not modelled. The engine reads an ISO date as UTC midnight while `toLocaleDateString` and `getMonth`/`getFullYear` use the host zone, so a date can show as the previous day. The model uses the written fields.
- `Intl` is not modelled. The `en-US` output is spelled out for years 1..9999; the engine's spelling of year 0 is not modelled.
- DateUtils.CompareDates: requires both dates to parse. The source subtracts two floating-point timestamps and yields `NaN` for an invalid side.
- PayslipQuery.ComparePayslips reads `NaN` as 0, as the sort does. When the kept records mix parseable and unparseable `fromDate`s, the comparator is not consistent. An unparseable record then compares equal to January and to March, while January still precedes March. For such a comparator, ECMAScript leaves the sort order to the implementation.
- PayslipQuery.ViewChronological: promises the chronological order only when every kept `fromDate` parses. When some kept record does not parse, the order depends on the engine.
- PayslipQuery.ViewStable: for every input, it describes the model's insertion sort. The engine guarantees stability only when every kept `fromDate` parses, or none does. For a mixed list, stability is a property of the model, not a promise of the program. Contents (`ViewMembers`) are guaranteed for every input.
- Strings.Lower: maps only ASCII letters. `toLowerCase` applies full Unicode case mapping.
- React is not modelled: memoisation, context plumbing, re-rendering, and the errors `usePayslips` and `useTheme` throw outside a provider. The derived values are computed on demand instead.
- `mockPayslips` (the default records) is not modelled; the constructor takes the records as a parameter.
- `fileService`, the components and the screens are not part of this model.
- The date tests also import `getYear` and `getUniqueYears`, which `src/utils/dateUtils.ts` does not define. They are not modelled; `usePayslipYears` is the year logic the app uses.
- `useColorScheme` is modelled as an optional light/dark value that the environment may change, via `SetSystemScheme`.
- The doc comment on `formatPeriod` gives `Jan 1 – Jan 31, 2024` as its example; the code at `src/utils/dateUtils.ts:46` prints `Jan 1 – 31, 2024`. The model follows the code, as the tests do.
