# Vehicle Nest — a Dafny model of the registry front end

Vehicle Nest is a single-page vehicle registry. It works on an in-memory
list of vehicle records (`mockVehicles`), each with an owner and an
address. This project models the logic behind the pages and proves
properties of it:

- **Record types and seed** (`types.dfy`, `seed.dfy`). The `Vehicle`,
  `Owner` and `Address` records, the enumerations `VehicleType` and
  `VehicleStatus` with their display strings, and the five seed records
  taken literally from the source.
- **Search bar** (`searchbar.dfy`). The `SearchFilters` record, where
  `null` means "no filter", and `updateFilter`, where the sentinel `"all"`
  clears one filter and any other value sets it. Also the bar's query and
  filter state that its submit hands on.
- **Directory page** (`vehicles.dfy`, `sorting.dfy`). `handleSearch` runs
  three passes: a case-insensitive substring test on five fields, then an
  optional status filter, then an optional type filter. It then applies an
  optional sort: newest first, oldest first, or by make. The status-tab
  effect replaces the list shown with one status partition, or with the
  whole list for `"all"`.
- **Detail page** (`details.dfy`). The lookup by id with `find`, the
  "Vehicle not found" state and its toast, and `getStatusColor`.
- **Registration wizard** (`register.dfy`). Three steps with presence
  checks on the way forward and a step back. `handleSubmit` appends one
  `Pending` record to the collection. A timer then clears `loading` and
  sets `registrationComplete`. User actions are an event trace; each event
  reaches only the controls the page renders at that moment.
- **Supporting theories**:
  - `text.dfy`: ASCII lower-casing, substring search and ordinal string
    order;
  - `dates.dfy`: `YYYY-MM-DD` dates, parsed and formatted;
  - `seqs.dfy`: an order-preserving filter and subsequences;
  - `wrappers.dfy`: `Option`.
- **Whole-system scenarios** (`scenarios.dfy`). Searches and tabs over the
  seed data, and a registration reaching the directory.

Browser side effects such as scrolling, navigation and timers are left out.
Where they decide an outcome they are modelled as data. A toast becomes the
text it shows: the wizard session records the last toast raised (a
validation message or the success message), and the detail page records
its "Vehicle not found" toast. The submission timer becomes the
`TimerFires` event. `uuidv4()` and the
clock are parameters: the two ids and the date string come in with the
submission.

Notes on the source:

- The search bar's placeholder names four fields; `handleSearch` also
  matches the owner's full name. The model has all five fields.
- `handleNextStep` has a step-3 branch that calls `handleSubmit`. No Next
  button is rendered at step 3, so that branch is unreachable from the
  page. `HandleNextStep` models the branch. `Dispatch` models the rendered
  page, where Next is offered only at steps 1 and 2.
- `SearchFilters.year` exists, but no control sets it and `handleSearch`
  never reads it. `SearchIgnoresYear` states this.

## Model

| member | source | states |
|---|---|---|
| Types.AllTypes | src/lib/types.ts:16-27 | ten vehicle types whose display strings are pairwise distinct |
| Types.AllTypesComplete | src/lib/types.ts:16-27 | every vehicle type is one of the ten listed |
| Types.AllStatuses | src/lib/types.ts:29-34 | four statuses whose display strings are pairwise distinct |
| Types.AllStatusesComplete | src/lib/types.ts:29-34 | every status is one of the four listed |
| Seed.SeedIds | src/lib/types.ts:55-191 | the seed has five records with ids "1" to "5", pairwise distinct |
| Seed.SeedStatuses | src/lib/types.ts:55-191 | the first three seed records are Active, the Honda Civic is the only Pending one, the Audi Q7 the only Expired one |
| Seed.TeslaDate | src/lib/types.ts:66 | the Tesla record's registration date is "2023-06-15", which names the existing date 2023-06-15 |
| Seed.BmwDate | src/lib/types.ts:93 | the BMW record's registration date is "2022-11-08", which names the existing date 2022-11-08 |
| Seed.ToyotaDate | src/lib/types.ts:120 | the Toyota record's registration date is "2021-03-22", which names the existing date 2021-03-22 |
| Seed.HondaDate | src/lib/types.ts:147 | the Honda record's registration date is "2023-09-10", which names the existing date 2023-09-10 |
| Seed.AudiDate | src/lib/types.ts:174 | the Audi record's registration date is "2022-01-30", which names the existing date 2022-01-30 |
| Seed.SeedDatesIso | src/lib/types.ts:55-191 | every seed registration date names an existing calendar date: month 01 to 12 and a day within that month |
| SearchBar.FiltersExtensional | src/components/SearchBar.tsx:19-24 | two filter records that agree on all four keys are equal |
| SearchBar.NoFiltersAllOff | src/components/SearchBar.tsx:28-33 | in the initial filter state every key is off |
| SearchBar.UpdateFilter | src/components/SearchBar.tsx:40-45 | after an update the key is off for "all" and holds the value otherwise; every other key is unchanged |
| SearchBar.UpdateFilterIdempotent | src/components/SearchBar.tsx:40-45 | applying the same update twice equals applying it once |
| SearchBar.Displayed | src/components/SearchBar.tsx:69-71 | the value a dropdown shows is always one its key accepts |
| SearchBar.UpdateWithDisplayedIsNoop | src/components/SearchBar.tsx:68-72 | re-selecting the value a dropdown shows leaves the filters unchanged |
| SearchBar.UpdatesCommute | src/components/SearchBar.tsx:40-45 | updates to two different keys commute |
| SearchBar.SetQuery | src/components/SearchBar.tsx:55 | typing replaces the query and keeps the filters |
| SearchBar.ChooseFilter | src/components/SearchBar.tsx:68-72 | choosing a dropdown entry keeps the query, sets or clears that key, and leaves every other key unchanged |
| Sorting.BeforeTotal | src/pages/Vehicles.tsx:39-49 | each sort comparator relates any two records in at least one direction |
| Sorting.BeforeTrans | src/pages/Vehicles.tsx:39-49 | each sort comparator is transitive |
| Sorting.ConsSorted | src/pages/Vehicles.tsx:39-49 | a record that may precede every element of a sorted list can be put in front of it |
| Sorting.HeadBeforeAll | src/pages/Vehicles.tsx:39-49 | the head of a sorted list may precede every element of its tail with one record inserted |
| Sorting.Insert | src/pages/Vehicles.tsx:39-49 | inserting into a sorted list keeps it sorted and adds exactly that record |
| Sorting.Sort | src/pages/Vehicles.tsx:39-49 | the sort result is ordered by the key and is a permutation of its input |
| Sorting.NewestIsLatestFirst | src/pages/Vehicles.tsx:41-43 | in a newest-first list of existing dates, each `getTime()` value is no smaller than any value after it |
| Sorting.OldestIsEarliestFirst | src/pages/Vehicles.tsx:44-46 | in an oldest-first list of existing dates, each `getTime()` value is no larger than any value after it |
| Sorting.Time | src/pages/Vehicles.tsx:42-45 | `new Date(v.registrationDate).getTime()` of an existing date is a whole number of days in milliseconds |
| Sorting.ReverseOldestIsNewest | src/pages/Vehicles.tsx:41-46 | an oldest-first list read backwards is newest-first |
| Sorting.NewestHeadsAgree | src/pages/Vehicles.tsx:41-43 | two newest-first lists of the same records with distinct dates start with the same record |
| Sorting.DistinctDatesTail | src/pages/Vehicles.tsx:41-46 | dropping the first record keeps the dates distinct |
| Sorting.NewestSortIsUnique | src/pages/Vehicles.tsx:41-43 | two newest-first lists of the same records with distinct dates are equal |
| Sorting.NewestReversesOldest | src/pages/Vehicles.tsx:41-46 | with distinct dates, sorting newest-first gives exactly the oldest-first order reversed |
| Vehicles.TextPass | src/pages/Vehicles.tsx:17-29 | the text pass keeps what the five-field test accepts, and keeps everything for an empty query |
| Vehicles.StatusPass | src/pages/Vehicles.tsx:31-33 | the status pass keeps the records of the chosen status, or everything when no status is set |
| Vehicles.TypePass | src/pages/Vehicles.tsx:35-37 | the type pass keeps the records of the chosen type, or everything when no type is set |
| Vehicles.FilterPassesAreSelection | src/pages/Vehicles.tsx:14-37 | the three passes in a row select exactly the hits of the conjoined test, in collection order |
| Vehicles.SearchSound | src/pages/Vehicles.tsx:14-54 | every search result is a record of the collection that passes every active test |
| Vehicles.SearchComplete | src/pages/Vehicles.tsx:14-54 | every hit of the collection is in the result, as often as it occurs in the collection |
| Vehicles.SearchIsPermutationOfHits | src/pages/Vehicles.tsx:39-53 | sorting only reorders: the result is a permutation of the hits |
| Vehicles.SearchUnsortedKeepsOrder | src/pages/Vehicles.tsx:14-37 | without a sort key the result is the hits in collection order, a subsequence of the collection |
| Vehicles.SearchSorted | src/pages/Vehicles.tsx:39-51 | with a sort key the result is ordered by that key |
| Vehicles.SearchNewestReversesOldest | src/pages/Vehicles.tsx:39-46 | with distinct registration dates, the "newest" search result is the "oldest" search result reversed, for any query and filters |
| Vehicles.SearchIdentity | src/pages/Vehicles.tsx:14-54 | an empty query with no status, type or sort returns the collection unchanged |
| Vehicles.SearchIgnoresYear | src/pages/Vehicles.tsx:14-54 | the year filter has no effect on the result |
| Vehicles.StatusTab | src/pages/Vehicles.tsx:56-64 | "all" shows the collection; any other tab shows exactly the records whose lower-cased status is the tab, each as often as in the collection, in collection order |
| Vehicles.LowerIs | src/pages/Vehicles.tsx:61 | a string whose characters lower-case one by one to those of t lower-cases to t |
| Vehicles.LowerActive | src/pages/Vehicles.tsx:61 | the Active status lower-cases to "active" |
| Vehicles.LowerExpired | src/pages/Vehicles.tsx:61 | the Expired status lower-cases to "expired" |
| Vehicles.LowerSuspended | src/pages/Vehicles.tsx:61 | the Suspended status lower-cases to "suspended" |
| Vehicles.LowerPending | src/pages/Vehicles.tsx:61 | the Pending status lower-cases to "pending" |
| Vehicles.LowerStatusNames | src/pages/Vehicles.tsx:61 | the four tab values are the lower-cased status names |
| Vehicles.LowerStatusNotAll | src/pages/Vehicles.tsx:56-61 | no lower-cased status name is the tab "all" |
| Vehicles.OnStatusTab | src/pages/Vehicles.tsx:61 | a record is on the tab of a status exactly when it has that status |
| Vehicles.TabIsStatusFilter | src/pages/Vehicles.tsx:56-64 | the tab of a status shows exactly the records with that status, in order |
| Vehicles.UnknownTabIsEmpty | src/pages/Vehicles.tsx:56-64 | a tab that is neither "all" nor a lower-cased status shows nothing |
| Vehicles.InitialPage | src/pages/Vehicles.tsx:11-12 | on mount the tab is "all" and the list shown is the whole collection, which is the "all" partition |
| Vehicles.HandleSearch | src/pages/Vehicles.tsx:14-54 | a search keeps the tab and shows exactly the hits of the collection |
| Vehicles.SelectTab | src/pages/Vehicles.tsx:56-64 | a changed tab replaces the list by its partition; re-selecting the same tab changes nothing |
| Vehicles.TabOverwritesSearch | src/pages/Vehicles.tsx:56-64 | after a tab change the list does not depend on the previous search |
| Vehicles.SearchIgnoresTab | src/pages/Vehicles.tsx:14-54 | a search shows the same list whatever tab is selected |
| Vehicles.SubmitInitialBarShowsAll | src/components/SearchBar.tsx:35-38 | submitting the untouched search bar shows the whole collection |
| Details.FindById | src/pages/VehicleDetails.tsx:27 | the lookup fails exactly when no record has the id; otherwise it is the first record with the id |
| Details.FindByUniqueId | src/pages/VehicleDetails.tsx:27 | with pairwise distinct ids, looking up a record's id finds that record |
| Details.ResolveLookup | src/pages/VehicleDetails.tsx:24-37 | after the delay loading ends and the record shown is the first with the id; the "Vehicle not found" toast is raised exactly when no record matches |
| Details.NotFoundViewIffToast | src/pages/VehicleDetails.tsx:27-33 | the not-found view is shown exactly when the error toast was raised |
| Details.StatusColorsDistinct | src/pages/VehicleDetails.tsx:39-51 | distinct statuses get distinct badge classes, and no status gets the gray fallback |
| Register.SetVehicleText | src/pages/Register.tsx:46-52 | editing a vehicle text input changes that field only |
| Register.SetYear | src/pages/Register.tsx:46-52 | editing the year changes the year only |
| Register.SetType | src/pages/Register.tsx:62-67 | changing the type changes the type only |
| Register.SetOwnerText | src/pages/Register.tsx:54-60 | editing an owner input changes that field only |
| Register.NextStep | src/pages/Register.tsx:69-95 | Next advances from step 1 or 2 exactly when that step's required fields are non-empty, otherwise raises that step's error and keeps the state; at step 3 it hands over to submission |
| Register.PrevStep | src/pages/Register.tsx:97-105 | Back moves one step down from steps 2 and 3, does nothing at step 1, and changes nothing else |
| Register.BackUndoesNext | src/pages/Register.tsx:69-105 | Back after a successful Next restores the previous state |
| Register.NextRedoesBack | src/pages/Register.tsx:69-105 | Next after Back returns to the same state when the forms passed their checks |
| Register.Step1IgnoresColorYearType | src/pages/Register.tsx:72 | colour, year and type play no part in the step-1 check |
| Register.Step2IgnoresAddress | src/pages/Register.tsx:80-86 | the address plays no part in the step-2 check |
| Register.BuildVehicleRoundTrip | src/pages/Register.tsx:111-137 | both forms can be read back unchanged from the record built at submission |
| Register.HandleSubmit | src/pages/Register.tsx:107-140 | submission sets loading and appends exactly one record, leaving the existing ones and the last toast unchanged; the new record is Pending, carries the given ids and date, and holds both forms |
| Register.FinishSubmit | src/pages/Register.tsx:143-148 | the timer callback clears loading, marks registration complete and keeps the forms and step |
| Register.HandleNextStep | src/pages/Register.tsx:69-95 | a rejected Next raises its validation toast and changes nothing else; a successful one moves one step and changes nothing else; at step 3 it submits, appending one record and setting loading; before step 3 the collection is unchanged |
| Register.PressNextIsHandleNextStep | src/pages/Register.tsx:315 | the Next button rendered at steps 1 and 2 runs the step handler |
| Register.SubmittedRecordIsFound | src/pages/Register.tsx:112 | with a fresh id, the detail lookup of the new id finds the new record |
| Register.SubmitKeepsIdsDistinct | src/pages/Register.tsx:112 | with a fresh id, pairwise distinct ids stay pairwise distinct after submission |
| Register.SubmitDateIsToday | src/pages/Register.tsx:121 | the stored registration date is an ISO date that reads back as the submission date, and names an existing date when the submission date exists |
| Register.DispatchKeepsInv | src/pages/Register.tsx:208-565 | every rendered control and the timer preserve the wizard invariant |
| Register.RunKeepsInv | src/pages/Register.tsx:208-565 | every sequence of events preserves the wizard invariant |
| Register.AtMostOneRegistration | src/pages/Register.tsx:107-149 | one wizard session appends at most one record and keeps the existing ones; once complete exactly one was appended and the success toast was the last raised; that record is Pending with every required field filled |
| Scenarios.PendingTabOfSeed | src/pages/Vehicles.tsx:56-64 | the "pending" tab of the seed shows only the Honda Civic |
| Scenarios.Excludes | src/pages/Vehicles.tsx:17-28 | a field cannot contain a lower-cased needle holding a non-letter character the field lacks |
| Scenarios.NoModel3 | src/pages/Vehicles.tsx:17-28 | a record with no space in four fields and no "3" in the owner's name does not match "model 3" |
| Scenarios.LowerModel3 | src/pages/Vehicles.tsx:18 | the query "Model 3" lower-cases to "model 3" |
| Scenarios.TeslaIsModel3 | src/pages/Vehicles.tsx:17-28 | the seed Tesla matches "model 3" |
| Scenarios.TeslaSelected | src/pages/Vehicles.tsx:14-37 | the seed Tesla is a hit for "Model 3" with no filters |
| Scenarios.BmwIsNotModel3 | src/pages/Vehicles.tsx:17-28 | the seed BMW does not match "model 3" |
| Scenarios.ToyotaIsNotModel3 | src/pages/Vehicles.tsx:17-28 | the seed Toyota does not match "model 3" |
| Scenarios.HondaIsNotModel3 | src/pages/Vehicles.tsx:17-28 | the seed Honda does not match "model 3" |
| Scenarios.AudiIsNotModel3 | src/pages/Vehicles.tsx:17-28 | the seed Audi does not match "model 3" |
| Scenarios.BmwNotSelected | src/pages/Vehicles.tsx:14-37 | the seed BMW is not a hit for "Model 3" |
| Scenarios.ToyotaNotSelected | src/pages/Vehicles.tsx:14-37 | the seed Toyota is not a hit for "Model 3" |
| Scenarios.HondaNotSelected | src/pages/Vehicles.tsx:14-37 | the seed Honda is not a hit for "Model 3" |
| Scenarios.AudiNotSelected | src/pages/Vehicles.tsx:14-37 | the seed Audi is not a hit for "Model 3" |
| Scenarios.OnlyFirstHit | src/pages/Vehicles.tsx:14-54 | an unsorted search of five records where only the first is a hit returns that record alone |
| Scenarios.Model3SearchOfSeed | src/pages/Vehicles.tsx:14-54 | searching the seed for "Model 3" with no filters returns exactly the Tesla |
| Scenarios.SubmittedRecordOnPendingTab | src/pages/Register.tsx:120-140 | a submitted record appears on the directory's "pending" tab |
| Text.ToLowerLength | src/pages/Vehicles.tsx:18 | lower-casing keeps the length |
| Text.ToLowerAt | src/pages/Vehicles.tsx:18 | lower-casing acts character by character |
| Text.OccursImpliesContains | src/pages/Vehicles.tsx:21-27 | a needle occurring at some position is found by the substring test |
| Text.ContainsIffOccurs | src/pages/Vehicles.tsx:21-27 | the substring test holds exactly when the needle occurs at some position |
| Text.ContainsEmpty | src/pages/Vehicles.tsx:21-27 | every string contains the empty string |
| Text.ContainsHasChar | src/pages/Vehicles.tsx:21-27 | every character of a contained needle occurs in the text |
| Text.LowerKeepsOthers | src/pages/Vehicles.tsx:21-27 | a non-lower-case-letter character in a lower-cased string was already in the original |
| Text.StrLeRefl | src/pages/Vehicles.tsx:48 | the string order is reflexive |
| Text.StrLeTotal | src/pages/Vehicles.tsx:48 | the string order relates any two strings |
| Text.StrLeAntisym | src/pages/Vehicles.tsx:48 | the string order is antisymmetric |
| Text.StrLeTrans | src/pages/Vehicles.tsx:48 | the string order is transitive |
| Text.StrLeConcat | src/pages/Vehicles.tsx:42-45 | comparing concatenations with equal-length first parts compares the first parts, then the rest |
| Dates.NumBound | src/lib/types.ts:66 | a w-digit string denotes a number below 10^w |
| Dates.DigitsRoundTrip | src/pages/Register.tsx:121 | writing a number below 10^w as w digits and reading it back gives the number |
| Dates.NumRoundTrip | src/pages/Register.tsx:121 | reading a digit string and writing it back gives the string |
| Dates.DigitOrder | src/pages/Vehicles.tsx:42-45 | on equal-length digit strings, string order and equality are numeric order and equality |
| Dates.ParseIsoDate | src/lib/types.ts:12 | parsing succeeds exactly on strings of the YYYY-MM-DD shape |
| Dates.NumTwo | src/pages/Vehicles.tsx:42-45 | a two-digit string reads as ten times its first digit plus its second |
| Dates.NumFour | src/pages/Vehicles.tsx:42-45 | a four-digit string reads as its positional decimal value |
| Dates.IsoFields | src/pages/Vehicles.tsx:42-45 | the year, month and day read from a `YYYY-MM-DD` string are the decimal values of digits 0-3, 5-6 and 8-9 |
| Dates.ReadDate | src/pages/Vehicles.tsx:42-45 | a `YYYY-MM-DD` string whose digits spell an existing date names that date |
| Dates.FormatIsoDate | src/pages/Register.tsx:121 | formatting a date gives a well-formed YYYY-MM-DD string |
| Dates.JoinIso | src/pages/Register.tsx:121 | the year, month and day pieces of a joined date string sit at positions 0-3, 5-6 and 8-9 |
| Dates.ParseFormat | src/pages/Register.tsx:121 | parsing a formatted date gives the date back |
| Dates.FormatParse | src/pages/Register.tsx:121 | formatting a parsed date gives the string back |
| Dates.SkipEqual | src/pages/Vehicles.tsx:42-45 | strings that start alike compare like their remainders |
| Dates.IsoOrderIsDateOrder | src/pages/Vehicles.tsx:42-45 | on YYYY-MM-DD strings, string order is the order of the (year, month, day) triples they spell |
| Dates.YearLength | src/pages/Vehicles.tsx:42-45 | a year has 365 or 366 days |
| Dates.DaysInMonth | src/pages/Vehicles.tsx:42-45 | a month has 28 to 31 days |
| Dates.MonthsFillYear | src/pages/Vehicles.tsx:42-45 | the twelve months add up to the year's length |
| Dates.MonthsInOrder | src/pages/Vehicles.tsx:42-45 | a later month of a year starts no earlier than the end of an earlier one |
| Dates.YearsInOrder | src/pages/Vehicles.tsx:42-45 | a later year starts no earlier than the end of an earlier one |
| Dates.MultiplesStep | src/pages/Vehicles.tsx:42-45 | stepping past a multiple of 4, 100 or 400 adds one to the count of multiples below |
| Dates.Divisibility | src/pages/Vehicles.tsx:42-45 | a multiple of 400 is a multiple of 100, and a multiple of 100 is a multiple of 4 |
| Dates.LeapCountStep | src/pages/Vehicles.tsx:42-45 | adding one year to the closed form adds that year's length |
| Dates.DayWithinYear | src/pages/Vehicles.tsx:42-45 | an existing date falls within its year |
| Dates.DayNumber | src/pages/Vehicles.tsx:42-45 | the day count of an existing date lies within its year's range of day counts |
| Dates.YearStartClosed | src/pages/Vehicles.tsx:42-45 | the first day of year y is day 365y + ⌈y/4⌉ - ⌈y/100⌉ + ⌈y/400⌉: one extra day per earlier leap year |
| Dates.EpochDayIsYearStart | src/pages/Vehicles.tsx:42-45 | 1970-01-01, the zero of `getTime()`, is day 719528 |
| Dates.TimeOf | src/pages/Vehicles.tsx:42-45 | `getTime()` of a date-only string is a whole number of days in milliseconds |
| Dates.DateOrderIsTimeOrder | src/pages/Vehicles.tsx:42-45 | on existing dates, (year, month, day) order is `getTime()` order, and equal times mean equal dates |
| Dates.CalendarStringOrderIsTimeOrder | src/pages/Vehicles.tsx:42-45 | on strings naming existing dates, ordinal string order is `getTime()` order, and distinct strings have distinct times |
| Dates.FormattedIsCalendarDate | src/pages/Register.tsx:121 | formatting an existing date gives a string that names it |
| Seqs.SubsequenceRefl | src/pages/Vehicles.tsx:19 | a list is a subsequence of itself |
| Seqs.SubsequenceTail | src/pages/Vehicles.tsx:19 | a subsequence of a list's tail is a subsequence of the list |
| Seqs.SubsequenceSkip | src/pages/Vehicles.tsx:19 | a subsequence stays one when an element is put in front of the list |
| Seqs.SubsequenceTrans | src/pages/Vehicles.tsx:19-36 | a subsequence of a subsequence is a subsequence |
| Seqs.Filter | src/pages/Vehicles.tsx:19 | filtering keeps each accepted element as often as it occurs, drops every rejected one, and keeps order |
| Seqs.FilterMembers | src/pages/Vehicles.tsx:19 | an element is in the filtered list exactly when it is in the list and accepted |
| Seqs.FilterAll | src/pages/Vehicles.tsx:17 | filtering with a test every element passes changes nothing |
| Seqs.FilterNone | src/pages/Vehicles.tsx:61 | filtering with a test no element passes gives the empty list |
| Seqs.FilterCongruent | src/pages/Vehicles.tsx:19-36 | tests that agree on the list filter it alike |
| Seqs.FilterFilter | src/pages/Vehicles.tsx:19-36 | filtering twice is filtering once by the conjunction |
| Seqs.FilterCons | src/pages/Vehicles.tsx:19 | filtering a list keeps or drops its head, then filters its tail |
| Seqs.FilterFive | src/pages/Vehicles.tsx:19 | filtering five elements keeps each accepted one in order |
| Seqs.Reverse | src/pages/Vehicles.tsx:41-46 | the reversed list has the same length and elements, and position i holds the element at length-1-i |
| Seqs.MultisetTail | src/pages/Vehicles.tsx:41-46 | lists with the same elements and the same head have tails with the same elements |

## Left out

- Text.ToLower: lower-cases only the ASCII letters A to Z. JavaScript's `toLowerCase` also maps other Unicode letters, so queries and fields outside ASCII are not modelled faithfully.
- Sorting.Before: the "make" sort compares make strings by code points. The source uses `localeCompare`, whose order depends on the locale and is not modelled.
- Sorting.Before: the date sorts compare the `registrationDate` strings themselves. The source subtracts `new Date(...).getTime()` values. `Dates.CalendarStringOrderIsTimeOrder` shows that the two orders agree on strings naming existing dates (month 01 to 12, a day within the month), which every seed date and every date the wizard stores is. A string that names no existing date gives `NaN` in the source, which makes the comparator inconsistent; that case is not modelled, and some engines' lenient reading of such strings is not modelled either.
- Sorting.Sort: a stable insertion sort stands in for `Array.prototype.sort`. The properties stated, ordering and permutation, hold for any correct sort. The order of records with equal keys is not stated.
- Register.HandleSubmit: the record ids and the registration date are parameters. In the source they come from `uuidv4()` and from `new Date().toISOString().split('T')[0]`; the clock, the time zone and id generation are not modelled. Freshness of an id is a precondition where a property needs it.
- Register.InitialVehicleForm: the current year is a parameter, standing in for `new Date().getFullYear()`.
- Register.SetYear: the year input delivers a string in the source, which is stored into a field initialised as a number. The model keeps the year as an integer.
- The optional `id?` of `Vehicle` and `Owner` is a plain string. An absent id is not modelled, because every record in the seed and every record the wizard builds has one.
- Mutating the shared `mockVehicles` array is modelled as a collection value passed between the pages. React state, effects and re-renders become explicit functions and events.
- The timers are not modelled as time. The 500 ms detail-page delay becomes the `Loading` to `Loaded` step. The 1500 ms submission delay becomes the `TimerFires` event. Cancelling a timer on unmount is out of scope.
- `window.scrollTo`, navigation, layout and styling are side effects with no bearing on the data. A toast is kept as its text only; its display and timing are not modelled.
- The detail page's view components are not modelled: the timeline date arithmetic, the badges and the owner cards. The same goes for the other pages (`Index`, `Navbar`, `Hero`, `VehicleCard`, `Layout`), because they only render data.
- SearchBar.Filters: `filters.year` is kept in the record but no control sets it. `handleSearch` never reads it.
