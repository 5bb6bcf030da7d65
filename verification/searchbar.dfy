/** The search bar's local state: the free-text query and a record of
    optional filters, where `null` means "no filter". Choosing "All" (or
    "Default" for the sort) in a dropdown clears that one filter. */
module SearchBar {
  import opened Wrappers
  import opened Types

  /** The `sortBy` values `"newest"`, `"oldest"` and `"make"`. */
  datatype SortKey = Newest | Oldest | ByMake

  /** `SearchFilters`; `None` stands for both `null` and an absent key. */
  datatype Filters = Filters(
    status: Option<VehicleStatus>,
    vtype: Option<VehicleType>,
    year: Option<int>,
    sortBy: Option<SortKey>)

  /** The keys of `SearchFilters`. */
  datatype FilterKey = StatusKey | TypeKey | YearKey | SortByKey

  /** A value handed to `updateFilter`: the sentinel `"all"`, or a value of
      one of the four filter kinds. */
  datatype Choice =
    | All
    | StatusChoice(status: VehicleStatus)
    | TypeChoice(vtype: VehicleType)
    | YearChoice(year: int)
    | SortChoice(key: SortKey)

  /** The value kinds each key accepts; every dropdown passes one of these. */
  predicate Fits(key: FilterKey, c: Choice) {
    match c
    case All => true
    case StatusChoice(_) => key == StatusKey
    case TypeChoice(_) => key == TypeKey
    case YearChoice(_) => key == YearKey
    case SortChoice(_) => key == SortByKey
  }

  /** The value stored under `key`, `None` when that filter is off. */
  function Get(f: Filters, key: FilterKey): (r: Option<Choice>) {
    match key
    case StatusKey => if f.status.Some? then Some(StatusChoice(f.status.value)) else None
    case TypeKey => if f.vtype.Some? then Some(TypeChoice(f.vtype.value)) else None
    case YearKey => if f.year.Some? then Some(YearChoice(f.year.value)) else None
    case SortByKey => if f.sortBy.Some? then Some(SortChoice(f.sortBy.value)) else None
  }

  /** Filters that agree on every key are the same filters. */
  lemma FiltersExtensional(f: Filters, g: Filters)
    requires forall k :: Get(f, k) == Get(g, k)
    ensures f == g
  {
    assert Get(f, StatusKey) == Get(g, StatusKey);
    assert Get(f, TypeKey) == Get(g, TypeKey);
    assert Get(f, YearKey) == Get(g, YearKey);
    assert Get(f, SortByKey) == Get(g, SortByKey);
  }

  /** The initial filter state: every filter `null`. */
  const NoFilters := Filters(None, None, None, None)

  lemma NoFiltersAllOff(k: FilterKey)
    ensures Get(NoFilters, k) == None
  {
  }

  /** `updateFilter(key, value)`: the sentinel `"all"` turns the filter off,
      any other value is stored; the other keys are copied from `f`. */
  function UpdateFilter(f: Filters, key: FilterKey, c: Choice): (r: Filters)
    requires Fits(key, c)
    ensures Get(r, key) == (if c.All? then None else Some(c))
    ensures forall k :: k != key ==> Get(r, k) == Get(f, k)
  {
    match key
    case StatusKey => f.(status := if c.All? then None else Some(c.status))
    case TypeKey => f.(vtype := if c.All? then None else Some(c.vtype))
    case YearKey => f.(year := if c.All? then None else Some(c.year))
    case SortByKey => f.(sortBy := if c.All? then None else Some(c.key))
  }

  /** Applying the same update twice is applying it once. */
  lemma UpdateFilterIdempotent(f: Filters, key: FilterKey, c: Choice)
    requires Fits(key, c)
    ensures UpdateFilter(UpdateFilter(f, key, c), key, c) == UpdateFilter(f, key, c)
  {
    var once := UpdateFilter(f, key, c);
    FiltersExtensional(UpdateFilter(once, key, c), once);
  }

  /** The value a dropdown shows: the stored filter, or "All" when it is off
      (`filters.status || "all"`). */
  function Displayed(f: Filters, key: FilterKey): (c: Choice)
    ensures Fits(key, c)
  {
    match Get(f, key)
    case None => All
    case Some(v) => v
  }

  /** Re-selecting the value a dropdown already shows leaves the filters as they are. */
  lemma UpdateWithDisplayedIsNoop(f: Filters, key: FilterKey)
    ensures UpdateFilter(f, key, Displayed(f, key)) == f
  {
    FiltersExtensional(UpdateFilter(f, key, Displayed(f, key)), f);
  }

  /** Updates of two different keys commute. */
  lemma UpdatesCommute(f: Filters, k1: FilterKey, c1: Choice, k2: FilterKey, c2: Choice)
    requires k1 != k2 && Fits(k1, c1) && Fits(k2, c2)
    ensures UpdateFilter(UpdateFilter(f, k1, c1), k2, c2) == UpdateFilter(UpdateFilter(f, k2, c2), k1, c1)
  {
    FiltersExtensional(UpdateFilter(UpdateFilter(f, k1, c1), k2, c2), UpdateFilter(UpdateFilter(f, k2, c2), k1, c1));
  }

  /** The search bar's state: the text box and the filters. */
  datatype BarState = BarState(query: string, filters: Filters)

  const InitialBar := BarState("", NoFilters)

  /** Typing in the search box replaces the query and nothing else. */
  function SetQuery(b: BarState, q: string): (r: BarState)
    ensures r.query == q && r.filters == b.filters
  {
    b.(query := q)
  }

  /** Choosing a dropdown entry goes through `updateFilter`; the query is kept. */
  function ChooseFilter(b: BarState, key: FilterKey, c: Choice): (r: BarState)
    requires Fits(key, c)
    ensures r.query == b.query
    ensures Get(r.filters, key) == (if c.All? then None else Some(c))
    ensures forall k :: k != key ==> Get(r.filters, k) == Get(b.filters, k)
  {
    b.(filters := UpdateFilter(b.filters, key, c))
  }
}
