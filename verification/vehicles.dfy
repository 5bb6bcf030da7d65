/** The vehicle directory page: the search handler (text match, status and
    type filters, optional sort) and the status tabs, whose effect replaces
    the list shown rather than composing with the last search. */
module Vehicles {
  import opened Wrappers
  import opened Text
  import opened Types
  import opened SearchBar
  import opened Seqs
  import opened Sorting

  /** The text test for an already lower-cased query: it occurs in one of the
      lower-cased registration number, make, model, VIN, or
      `firstName + " " + lastName`. */
  predicate TextMatches(v: Vehicle, lq: string) {
    || Contains(ToLower(v.registrationNumber), lq)
    || Contains(ToLower(v.make), lq)
    || Contains(ToLower(v.model), lq)
    || Contains(ToLower(v.vin), lq)
    || Contains(ToLower(v.owner.firstName + " " + v.owner.lastName), lq)
  }

  /** The first pass: the text test, skipped when the query is empty. */
  predicate PassesText(v: Vehicle, query: string) {
    |query| == 0 || TextMatches(v, ToLower(query))
  }

  /** The second pass: the status filter, skipped when it is `null`. */
  predicate PassesStatus(v: Vehicle, f: Filters) {
    f.status.None? || v.status == f.status.value
  }

  /** The third pass: the type filter, skipped when it is `null`. */
  predicate PassesType(v: Vehicle, f: Filters) {
    f.vtype.None? || v.vtype == f.vtype.value
  }

  function TextPass(c: seq<Vehicle>, query: string): (r: seq<Vehicle>)
    ensures r == Filter(c, (v: Vehicle) => PassesText(v, query))
  {
    if |query| > 0 then
      var lq := ToLower(query);
      FilterCongruent(c, (v: Vehicle) => TextMatches(v, lq), (v: Vehicle) => PassesText(v, query));
      Filter(c, (v: Vehicle) => TextMatches(v, lq))
    else
      FilterAll(c, (v: Vehicle) => PassesText(v, query));
      c
  }

  function StatusPass(c: seq<Vehicle>, f: Filters): (r: seq<Vehicle>)
    ensures r == Filter(c, (v: Vehicle) => PassesStatus(v, f))
  {
    if f.status.Some? then
      var st := f.status.value;
      FilterCongruent(c, (v: Vehicle) => v.status == st, (v: Vehicle) => PassesStatus(v, f));
      Filter(c, (v: Vehicle) => v.status == st)
    else
      FilterAll(c, (v: Vehicle) => PassesStatus(v, f));
      c
  }

  function TypePass(c: seq<Vehicle>, f: Filters): (r: seq<Vehicle>)
    ensures r == Filter(c, (v: Vehicle) => PassesType(v, f))
  {
    if f.vtype.Some? then
      var ty := f.vtype.value;
      FilterCongruent(c, (v: Vehicle) => v.vtype == ty, (v: Vehicle) => PassesType(v, f));
      Filter(c, (v: Vehicle) => v.vtype == ty)
    else
      FilterAll(c, (v: Vehicle) => PassesType(v, f));
      c
  }

  /** The three filter passes of the search, in the order the handler runs them. */
  function FilterPasses(c: seq<Vehicle>, query: string, f: Filters): (r: seq<Vehicle>) {
    TypePass(StatusPass(TextPass(c, query), f), f)
  }

  /** `handleSearch(query, filters)` on the collection `c`; `c` itself is a
      value and is never changed. `filters.year` is not consulted. */
  function Search(c: seq<Vehicle>, query: string, f: Filters): (r: seq<Vehicle>) {
    var filtered := FilterPasses(c, query, f);
    if f.sortBy.Some? then Sort(f.sortBy.value, filtered) else filtered
  }

  /** The reference definition of a hit: the text test (or an empty query),
      AND the status filter (if set), AND the type filter (if set). */
  predicate Selected(v: Vehicle, query: string, f: Filters) {
    && (|query| == 0 || TextMatches(v, ToLower(query)))
    && (f.status.None? || v.status == f.status.value)
    && (f.vtype.None? || v.vtype == f.vtype.value)
  }

  /** The successive filter passes select exactly the hits, in collection order. */
  lemma FilterPassesAreSelection(c: seq<Vehicle>, query: string, f: Filters)
    ensures FilterPasses(c, query, f) == Filter(c, (v: Vehicle) => Selected(v, query, f))
  {
    var p1 := (v: Vehicle) => PassesText(v, query);
    var p2 := (v: Vehicle) => PassesStatus(v, f);
    var p3 := (v: Vehicle) => PassesType(v, f);
    var p12 := (v: Vehicle) => PassesText(v, query) && PassesStatus(v, f);
    FilterFilter(c, p1, p2, p12);
    FilterFilter(c, p12, p3, (v: Vehicle) => Selected(v, query, f));
  }

  /** Soundness: every result is a record of the collection that passes all
      active tests. */
  lemma SearchSound(c: seq<Vehicle>, query: string, f: Filters)
    ensures forall v :: v in Search(c, query, f) ==> v in c && Selected(v, query, f)
  {
    FilterPassesAreSelection(c, query, f);
    FilterMembers(c, (v: Vehicle) => Selected(v, query, f));
    var filtered := FilterPasses(c, query, f);
    forall v | v in Search(c, query, f)
      ensures v in filtered
    {
      assert v in multiset(Search(c, query, f));
    }
  }

  /** Completeness: every record of the collection that passes all active
      tests is in the result, as often as it occurs in the collection. */
  lemma SearchComplete(c: seq<Vehicle>, query: string, f: Filters)
    ensures forall v :: Selected(v, query, f) ==> multiset(Search(c, query, f))[v] == multiset(c)[v]
    ensures forall v :: v in c && Selected(v, query, f) ==> v in Search(c, query, f)
  {
    FilterPassesAreSelection(c, query, f);
    var r := Search(c, query, f);
    forall v | v in c && Selected(v, query, f)
      ensures v in r
    {
      assert v in multiset(c);
      assert v in multiset(r);
    }
  }

  /** Sorting only reorders: the result is a permutation of the hits. */
  lemma SearchIsPermutationOfHits(c: seq<Vehicle>, query: string, f: Filters)
    ensures multiset(Search(c, query, f)) == multiset(Filter(c, (v: Vehicle) => Selected(v, query, f)))
  {
    FilterPassesAreSelection(c, query, f);
  }

  /** Without a sort key, the result is the hits in collection order. */
  lemma SearchUnsortedKeepsOrder(c: seq<Vehicle>, query: string, f: Filters)
    requires f.sortBy.None?
    ensures Search(c, query, f) == Filter(c, (v: Vehicle) => Selected(v, query, f))
    ensures IsSubsequence(Search(c, query, f), c)
  {
    FilterPassesAreSelection(c, query, f);
  }

  /** With a sort key, the result is ordered by that key's comparator. */
  lemma SearchSorted(c: seq<Vehicle>, query: string, f: Filters)
    requires f.sortBy.Some?
    ensures Sorted(f.sortBy.value, Search(c, query, f))
  {
  }

  /** When no two records share a registration date, the "newest" search is
      the "oldest" search read backwards. */
  lemma SearchNewestReversesOldest(c: seq<Vehicle>, query: string, f: Filters)
    requires DistinctDates(c)
    ensures Search(c, query, f.(sortBy := Some(Newest))) == Reverse(Search(c, query, f.(sortBy := Some(Oldest))))
  {
    var hits := FilterPasses(c, query, f);
    assert FilterPasses(c, query, f.(sortBy := Some(Newest))) == hits;
    assert FilterPasses(c, query, f.(sortBy := Some(Oldest))) == hits;
    FilterPassesAreSelection(c, query, f);
    FilterMembers(c, (v: Vehicle) => Selected(v, query, f));
    forall v, w | v in hits && w in hits && v.registrationDate == w.registrationDate
      ensures v == w
    {
      assert v in c && w in c;
    }
    NewestReversesOldest(hits);
  }

  /** An empty query with no status, type or sort returns the collection as is. */
  lemma SearchIdentity(c: seq<Vehicle>, f: Filters)
    requires f.status.None? && f.vtype.None? && f.sortBy.None?
    ensures Search(c, "", f) == c
  {
  }

  /** The year filter has no effect on the search. */
  lemma SearchIgnoresYear(c: seq<Vehicle>, query: string, f: Filters, y: Option<int>)
    ensures Search(c, query, f.(year := y)) == Search(c, query, f)
  {
  }

  /** The test of the status tab: the lower-cased status name equals the tab. */
  predicate OnTab(v: Vehicle, tab: string) {
    ToLower(StatusName(v.status)) == tab
  }

  /** The tab effect: `"all"` shows the whole collection, any other tab the
      records whose lower-cased status is the tab, in collection order. */
  function StatusTab(c: seq<Vehicle>, tab: string): (r: seq<Vehicle>)
    ensures tab == "all" ==> r == c
    ensures tab != "all" ==> forall v :: v in r <==> v in c && OnTab(v, tab)
    ensures tab != "all" ==> forall v :: OnTab(v, tab) ==> multiset(r)[v] == multiset(c)[v]
    ensures IsSubsequence(r, c)
  {
    if tab == "all" then
      SubsequenceRefl(c);
      c
    else
      FilterMembers(c, (v: Vehicle) => OnTab(v, tab));
      Filter(c, (v: Vehicle) => OnTab(v, tab))
  }

  /** Lower-casing character by character gives `t`. */
  lemma LowerIs(s: string, t: string)
    requires |s| == |t| && forall i :: 0 <= i < |s| ==> LowerChar(s[i]) == t[i]
    ensures ToLower(s) == t
  {
    ToLowerLength(s);
    forall i | 0 <= i < |s|
      ensures ToLower(s)[i] == t[i]
    {
      ToLowerAt(s, i);
    }
  }

  lemma LowerActive()
    ensures ToLower(StatusName(Active)) == "active"
  {
    LowerIs("Active", "active");
  }

  lemma LowerExpired()
    ensures ToLower(StatusName(Expired)) == "expired"
  {
    LowerIs("Expired", "expired");
  }

  lemma LowerSuspended()
    ensures ToLower(StatusName(Suspended)) == "suspended"
  {
    LowerIs("Suspended", "suspended");
  }

  lemma LowerPending()
    ensures ToLower(StatusName(Pending)) == "pending"
  {
    LowerIs("Pending", "pending");
  }

  /** The tab values of the page are the lower-cased status names. */
  lemma LowerStatusNames()
    ensures ToLower(StatusName(Active)) == "active"
    ensures ToLower(StatusName(Expired)) == "expired"
    ensures ToLower(StatusName(Suspended)) == "suspended"
    ensures ToLower(StatusName(Pending)) == "pending"
  {
    LowerActive();
    LowerExpired();
    LowerSuspended();
    LowerPending();
  }

  /** A record is on the tab of a status exactly when it has that status. */
  lemma OnStatusTab(v: Vehicle, s: VehicleStatus)
    ensures OnTab(v, ToLower(StatusName(s))) <==> v.status == s
  {
    LowerStatusNames();
  }

  /** No lower-cased status name is the tab `"all"`. */
  lemma LowerStatusNotAll(s: VehicleStatus)
    ensures ToLower(StatusName(s)) != "all"
  {
    LowerStatusNames();
  }

  /** The tab of a status selects exactly the records with that status. */
  lemma TabIsStatusFilter(c: seq<Vehicle>, s: VehicleStatus)
    ensures StatusTab(c, ToLower(StatusName(s))) == Filter(c, (v: Vehicle) => v.status == s)
  {
    LowerStatusNotAll(s);
    forall i | 0 <= i < |c|
      ensures OnTab(c[i], ToLower(StatusName(s))) == (c[i].status == s)
    {
      OnStatusTab(c[i], s);
    }
    FilterCongruent(c, (v: Vehicle) => OnTab(v, ToLower(StatusName(s))), (v: Vehicle) => v.status == s);
  }

  /** A tab that is neither `"all"` nor a lower-cased status name shows nothing. */
  lemma UnknownTabIsEmpty(c: seq<Vehicle>, tab: string)
    requires tab != "all" && tab != "active" && tab != "expired" && tab != "suspended" && tab != "pending"
    ensures StatusTab(c, tab) == []
  {
    LowerStatusNames();
    forall i | 0 <= i < |c|
      ensures !OnTab(c[i], tab)
    {
      match c[i].status
      case Active =>
      case Expired =>
      case Suspended =>
      case Pending =>
    }
    FilterNone(c, (v: Vehicle) => OnTab(v, tab));
  }

  /** The page state: the list shown and the selected tab. */
  datatype Page = Page(shown: seq<Vehicle>, activeTab: string)

  /** On mount the list is the collection and the tab is `"all"`. */
  function InitialPage(c: seq<Vehicle>): (p: Page)
    ensures p.activeTab == "all" && p.shown == c
    ensures p.shown == StatusTab(c, p.activeTab)
  {
    Page(c, "all")
  }

  /** The search handler replaces the list shown by the hits of the
      collection; the tab stays as it is. */
  function HandleSearch(p: Page, c: seq<Vehicle>, query: string, f: Filters): (r: Page)
    ensures r.activeTab == p.activeTab
    ensures forall v :: v in r.shown <==> v in c && Selected(v, query, f)
  {
    SearchSound(c, query, f);
    SearchComplete(c, query, f);
    p.(shown := Search(c, query, f))
  }

  /** The search bar's submit passes its current query and filters on unchanged. */
  function SubmitSearch(p: Page, c: seq<Vehicle>, b: BarState): (r: Page) {
    HandleSearch(p, c, b.query, b.filters)
  }

  /** Selecting a tab re-runs the effect only when the tab changes; the list
      is then replaced by the tab's partition. */
  function SelectTab(p: Page, c: seq<Vehicle>, tab: string): (r: Page)
    ensures r.activeTab == tab
    ensures tab != p.activeTab ==> r.shown == StatusTab(c, tab)
    ensures tab == p.activeTab ==> r == p
  {
    if tab == p.activeTab then p else Page(StatusTab(c, tab), tab)
  }

  /** Changing tab discards the last search: the list does not depend on it. */
  lemma TabOverwritesSearch(p: Page, c: seq<Vehicle>, query: string, f: Filters, tab: string)
    requires tab != p.activeTab
    ensures SelectTab(HandleSearch(p, c, query, f), c, tab).shown == StatusTab(c, tab)
  {
  }

  /** A search ignores the selected tab: two pages on different tabs show the
      same list after the same search. */
  lemma SearchIgnoresTab(p1: Page, p2: Page, c: seq<Vehicle>, query: string, f: Filters)
    ensures HandleSearch(p1, c, query, f).shown == HandleSearch(p2, c, query, f).shown
  {
  }

  /** Submitting the untouched search bar shows the whole collection. */
  lemma SubmitInitialBarShowsAll(p: Page, c: seq<Vehicle>)
    ensures SubmitSearch(p, c, InitialBar).shown == c
  {
    SearchIdentity(c, InitialBar.filters);
  }
}
