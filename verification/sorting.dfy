/** The sort step of the vehicle search. `Array.prototype.sort` is stable;
    the model is a stable insertion sort under the comparator each sort key
    selects. Dates and makes are compared as strings in ordinal order. */
module Sorting {
  import opened Text
  import opened Types
  import opened SearchBar
  import opened Dates
  import opened Seqs

  /** `a` may precede `b` under the comparator of sort key `k`. */
  predicate Before(k: SortKey, a: Vehicle, b: Vehicle) {
    match k
    case Newest => StrLe(b.registrationDate, a.registrationDate)
    case Oldest => StrLe(a.registrationDate, b.registrationDate)
    case ByMake => StrLe(a.make, b.make)
  }

  lemma BeforeTotal(k: SortKey, a: Vehicle, b: Vehicle)
    ensures Before(k, a, b) || Before(k, b, a)
  {
    match k
    case Newest => StrLeTotal(a.registrationDate, b.registrationDate);
    case Oldest => StrLeTotal(a.registrationDate, b.registrationDate);
    case ByMake => StrLeTotal(a.make, b.make);
  }

  lemma BeforeTrans(k: SortKey, a: Vehicle, b: Vehicle, c: Vehicle)
    requires Before(k, a, b) && Before(k, b, c)
    ensures Before(k, a, c)
  {
    match k
    case Newest => StrLeTrans(c.registrationDate, b.registrationDate, a.registrationDate);
    case Oldest => StrLeTrans(a.registrationDate, b.registrationDate, c.registrationDate);
    case ByMake => StrLeTrans(a.make, b.make, c.make);
  }

  predicate Sorted(k: SortKey, s: seq<Vehicle>) {
    forall i, j :: 0 <= i < j < |s| ==> Before(k, s[i], s[j])
  }

  /** A sorted list stays sorted with an element in front that may precede all of it. */
  lemma ConsSorted(k: SortKey, a: Vehicle, t: seq<Vehicle>)
    requires Sorted(k, t)
    requires forall j :: 0 <= j < |t| ==> Before(k, a, t[j])
    ensures Sorted(k, [a] + t)
  {
    var r := [a] + t;
    forall i, j | 0 <= i < j < |r|
      ensures Before(k, r[i], r[j])
    {
      assert r[j] == t[j - 1];
      if i > 0 {
        assert r[i] == t[i - 1];
      }
    }
  }

  /** The head of a sorted list may precede every element of any list built
      from its tail and an element the head may precede. */
  lemma HeadBeforeAll(k: SortKey, x: Vehicle, s: seq<Vehicle>, rest: seq<Vehicle>)
    requires Sorted(k, s) && |s| > 0 && Before(k, s[0], x)
    requires multiset(rest) == multiset(s[1..]) + multiset{x}
    ensures forall j :: 0 <= j < |rest| ==> Before(k, s[0], rest[j])
  {
    forall j | 0 <= j < |rest|
      ensures Before(k, s[0], rest[j])
    {
      assert rest[j] in multiset(rest);
      if rest[j] != x {
        assert rest[j] in multiset(s[1..]);
        var m :| 0 <= m < |s[1..]| && s[1..][m] == rest[j];
        assert s[m + 1] == rest[j];
      }
    }
  }

  /** Places `x` in front of the first element it may precede. */
  function Insert(k: SortKey, x: Vehicle, s: seq<Vehicle>): (r: seq<Vehicle>)
    requires Sorted(k, s)
    ensures Sorted(k, r)
    ensures multiset(r) == multiset(s) + multiset{x}
  {
    if |s| == 0 then [x]
    else if Before(k, x, s[0]) then
      assert forall j :: 0 <= j < |s| ==> Before(k, x, s[j]) by {
        forall j | 0 <= j < |s|
          ensures Before(k, x, s[j])
        {
          if j > 0 {
            BeforeTrans(k, x, s[0], s[j]);
          }
        }
      }
      ConsSorted(k, x, s);
      [x] + s
    else
      BeforeTotal(k, x, s[0]);
      var rest := Insert(k, x, s[1..]);
      assert s == [s[0]] + s[1..];
      HeadBeforeAll(k, x, s, rest);
      ConsSorted(k, s[0], rest);
      [s[0]] + rest
  }

  /** The result is ordered by the comparator of `k` and holds exactly the
      elements of `s`, each as often as in `s`. */
  function Sort(k: SortKey, s: seq<Vehicle>): (r: seq<Vehicle>)
    ensures Sorted(k, r)
    ensures multiset(r) == multiset(s)
  {
    if |s| == 0 then []
    else
      assert s == [s[0]] + s[1..];
      Insert(k, s[0], Sort(k, s[1..]))
  }

  /** `new Date(v.registrationDate).getTime()` for a record whose date exists. */
  function Time(v: Vehicle): (r: int)
    requires IsCalendarDate(v.registrationDate)
    ensures r % 86400000 == 0
  {
    TimeOf(ParseIsoDate(v.registrationDate).value)
  }

  /** With existing calendar dates, "newest" order puts later dates first:
      it is the order of the source's comparator `b.getTime() - a.getTime()`. */
  lemma NewestIsLatestFirst(s: seq<Vehicle>, i: int, j: int)
    requires Sorted(Newest, s)
    requires forall m :: 0 <= m < |s| ==> IsCalendarDate(s[m].registrationDate)
    requires 0 <= i < j < |s|
    ensures Time(s[j]) <= Time(s[i])
  {
    CalendarStringOrderIsTimeOrder(s[j].registrationDate, s[i].registrationDate);
  }

  /** With existing calendar dates, "oldest" order puts earlier dates first:
      it is the order of the source's comparator `a.getTime() - b.getTime()`. */
  lemma OldestIsEarliestFirst(s: seq<Vehicle>, i: int, j: int)
    requires Sorted(Oldest, s)
    requires forall m :: 0 <= m < |s| ==> IsCalendarDate(s[m].registrationDate)
    requires 0 <= i < j < |s|
    ensures Time(s[i]) <= Time(s[j])
  {
    CalendarStringOrderIsTimeOrder(s[i].registrationDate, s[j].registrationDate);
  }

  /** No two different records share a registration date. */
  predicate DistinctDates(s: seq<Vehicle>) {
    forall v, w :: v in s && w in s && v.registrationDate == w.registrationDate ==> v == w
  }

  /** An oldest-first list read backwards is newest-first. */
  lemma ReverseOldestIsNewest(s: seq<Vehicle>)
    requires Sorted(Oldest, s)
    ensures Sorted(Newest, Reverse(s))
  {
    var r := Reverse(s);
    forall i, j | 0 <= i < j < |r|
      ensures Before(Newest, r[i], r[j])
    {
      assert Before(Oldest, s[|s| - 1 - j], s[|s| - 1 - i]);
    }
  }

  /** Two newest-first lists of the same records with distinct dates start alike. */
  lemma NewestHeadsAgree(a: seq<Vehicle>, b: seq<Vehicle>)
    requires Sorted(Newest, a) && Sorted(Newest, b)
    requires multiset(a) == multiset(b)
    requires DistinctDates(a)
    requires |a| > 0
    ensures |b| > 0 && a[0] == b[0]
  {
    assert a[0] in multiset(b);
    var k :| 0 <= k < |b| && b[k] == a[0];
    assert b[0] in multiset(a);
    var m :| 0 <= m < |a| && a[m] == b[0];
    if k > 0 {
      assert Before(Newest, b[0], b[k]);
    }
    if m > 0 {
      assert Before(Newest, a[0], a[m]);
    }
    StrLeRefl(a[0].registrationDate);
    StrLeAntisym(a[0].registrationDate, b[0].registrationDate);
  }

  lemma DistinctDatesTail(a: seq<Vehicle>)
    requires DistinctDates(a) && |a| > 0
    ensures DistinctDates(a[1..])
  {
    forall v, w | v in a[1..] && w in a[1..] && v.registrationDate == w.registrationDate
      ensures v == w
    {
      assert v in a && w in a;
    }
  }

  /** Two newest-first lists of the same records with distinct dates are equal. */
  lemma {:induction false} NewestSortIsUnique(a: seq<Vehicle>, b: seq<Vehicle>)
    requires Sorted(Newest, a) && Sorted(Newest, b)
    requires multiset(a) == multiset(b)
    requires DistinctDates(a)
    ensures a == b
    decreases |a|
  {
    if |a| == 0 {
      assert |multiset(b)| == 0;
    } else {
      NewestHeadsAgree(a, b);
      MultisetTail(a, b);
      DistinctDatesTail(a);
      NewestSortIsUnique(a[1..], b[1..]);
      assert a == [a[0]] + a[1..] && b == [b[0]] + b[1..];
    }
  }

  /** With distinct dates, "newest" is exactly "oldest" reversed. */
  lemma NewestReversesOldest(s: seq<Vehicle>)
    requires DistinctDates(s)
    ensures Sort(Newest, s) == Reverse(Sort(Oldest, s))
  {
    var a := Sort(Newest, s);
    ReverseOldestIsNewest(Sort(Oldest, s));
    forall v, w | v in a && w in a && v.registrationDate == w.registrationDate
      ensures v == w
    {
      assert v in multiset(a) && w in multiset(a);
      assert v in s && w in s;
    }
    NewestSortIsUnique(a, Reverse(Sort(Oldest, s)));
  }
}
