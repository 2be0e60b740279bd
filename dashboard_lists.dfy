/** The list computations of the dashboard page
    (frontend/src/pages/Dashboard.jsx): the search and filter over the
    fetched items, the location choices, and the summary figures. */
module DashboardLists {
  import JsText

  /** An item as the page receives it from the server. */
  datatype ItemView = ItemView(id: string, itemName: string, category: string, quantity: int, location: string)

  /** Below this quantity an item counts as low on stock. */
  const LowStockThreshold: int := 5

  predicate IsLow(it: ItemView)
  {
    it.quantity < LowStockThreshold
  }

  /** The three controls above the table: the search box, the location
      choice ('all' or a location) and the stock choice ('all' or 'low'). */
  datatype Filters = Filters(searchQuery: string, locationFilter: string, quantityFilter: string)

  predicate MatchesSearch(it: ItemView, query: string)
  {
    query == "" || JsText.Includes(JsText.ToLower(it.itemName), JsText.ToLower(query))
  }

  predicate MatchesLocation(it: ItemView, location: string)
  {
    location == "all" || it.location == location
  }

  predicate MatchesQuantity(it: ItemView, choice: string)
  {
    choice == "all" || (choice == "low" && IsLow(it))
  }

  /** The test `filteredItems` applies to each item. */
  predicate Keep(it: ItemView, f: Filters)
  {
    MatchesSearch(it, f.searchQuery) && MatchesLocation(it, f.locationFilter) && MatchesQuantity(it, f.quantityFilter)
  }

  /** `s.filter(keep)`. */
  function FilterBy<T(!new)>(s: seq<T>, keep: T -> bool): (r: seq<T>)
    ensures |r| <= |s|
    ensures forall x :: x in r <==> x in s && keep(x)
  {
    if s == [] then []
    else if keep(s[0]) then [s[0]] + FilterBy(s[1..], keep)
    else FilterBy(s[1..], keep)
  }

  /** Filtering a list grown at its end: what `forEach` over the list
      collects one element at a time. */
  lemma {:induction false} FilterByAppend<T(!new)>(s: seq<T>, x: T, keep: T -> bool)
    ensures FilterBy(s + [x], keep) == FilterBy(s, keep) + (if keep(x) then [x] else [])
  {
    if s != [] {
      assert (s + [x])[1..] == s[1..] + [x];
      FilterByAppend(s[1..], x, keep);
    }
  }

  /** A filter that rejects every element leaves nothing. */
  lemma {:induction false} FilterByNone<T(!new)>(s: seq<T>, keep: T -> bool)
    requires forall x :: x in s ==> !keep(x)
    ensures FilterBy(s, keep) == []
  {
    if s != [] {
      assert s[0] in s;
      FilterByNone(s[1..], keep);
    }
  }

  /** `filteredItems`. */
  function FilterItems(items: seq<ItemView>, f: Filters): (r: seq<ItemView>)
    ensures |r| <= |items|
    ensures forall x :: x in r <==> x in items && Keep(x, f)
  {
    FilterBy(items, it => Keep(it, f))
  }

  /** `idx` lists, in increasing order, exactly the positions of `s` that
      pass `keep`, and `r` holds the items at those positions. */
  ghost predicate PicksKept<T(!new)>(r: seq<T>, s: seq<T>, keep: T -> bool, idx: seq<int>)
  {
    Selects(r, s, idx) && Increasing(idx) && KeptAt(s, keep, idx)
  }

  /** `r[i]` is `s[idx[i]]` for each `i`. */
  ghost predicate Selects<T>(r: seq<T>, s: seq<T>, idx: seq<int>)
  {
    |idx| == |r| && forall i :: 0 <= i < |idx| ==> 0 <= idx[i] < |s| && r[i] == s[idx[i]]
  }

  ghost predicate Increasing(idx: seq<int>)
  {
    forall i, j :: 0 <= i < j < |idx| ==> idx[i] < idx[j]
  }

  /** The positions in `idx` are those of the elements that pass `keep`. */
  ghost predicate KeptAt<T>(s: seq<T>, keep: T -> bool, idx: seq<int>)
  {
    forall k :: 0 <= k < |s| ==> (keep(s[k]) <==> k in idx)
  }

  /** Every position moved one place to the right. */
  function Shifted(idx: seq<int>): (r: seq<int>)
    ensures |r| == |idx|
    ensures forall i :: 0 <= i < |r| ==> r[i] == idx[i] + 1
  {
    if idx == [] then [] else [idx[0] + 1] + Shifted(idx[1..])
  }

  lemma ShiftedMembers(idx: seq<int>, k: int)
    ensures k in Shifted(idx) <==> k - 1 in idx
  {
    var r := Shifted(idx);
    if k in r {
      var i :| 0 <= i < |r| && r[i] == k;
      assert idx[i] == k - 1;
    }
    if k - 1 in idx {
      var i :| 0 <= i < |idx| && idx[i] == k - 1;
      assert r[i] == k;
    }
  }

  /** A filtered list is the subsequence of the kept elements, in their
      original order. */
  lemma {:induction false} FilterByIsOrderedSubsequence<T(!new)>(s: seq<T>, keep: T -> bool) returns (idx: seq<int>)
    ensures PicksKept(FilterBy(s, keep), s, keep, idx)
  {
    if s == [] {
      idx := [];
    } else {
      var rest := FilterByIsOrderedSubsequence(s[1..], keep);
      if keep(s[0]) {
        idx := [0] + Shifted(rest);
        PicksKeptFirst(s, keep, rest);
      } else {
        idx := Shifted(rest);
        PicksDroppedFirst(s, keep, rest);
      }
    }
  }

  lemma PicksKeptFirst<T(!new)>(s: seq<T>, keep: T -> bool, rest: seq<int>)
    requires s != [] && keep(s[0])
    requires PicksKept(FilterBy(s[1..], keep), s[1..], keep, rest)
    ensures PicksKept(FilterBy(s, keep), s, keep, [0] + Shifted(rest))
  {
    var r := FilterBy(s[1..], keep);
    assert FilterBy(s, keep) == [s[0]] + r;
    SelectsConsFirst(r, s, rest);
    IncreasingConsZero(rest);
    KeptAtConsFirst(s, keep, rest);
  }

  lemma IncreasingConsZero(rest: seq<int>)
    requires Increasing(rest) && forall i :: 0 <= i < |rest| ==> 0 <= rest[i]
    ensures Increasing([0] + Shifted(rest))
  {
    forall i, j | 0 <= i < j < |rest| + 1 ensures ([0] + Shifted(rest))[i] < ([0] + Shifted(rest))[j] {
      ConsZeroPair(rest, i, j);
    }
  }

  lemma ConsZeroPair(rest: seq<int>, i: int, j: int)
    requires 0 <= i < j < |rest| + 1
    requires 0 <= rest[j - 1]
    requires i > 0 ==> rest[i - 1] < rest[j - 1]
    ensures ([0] + Shifted(rest))[i] < ([0] + Shifted(rest))[j]
  {
    var sh := Shifted(rest);
    var idx := [0] + sh;
    assert idx[j] == sh[j - 1];
    assert sh[j - 1] == rest[j - 1] + 1;
    if i > 0 {
      assert idx[i] == sh[i - 1];
      assert sh[i - 1] == rest[i - 1] + 1;
    }
  }

  lemma IncreasingShifted(rest: seq<int>)
    requires Increasing(rest)
    ensures Increasing(Shifted(rest))
  {
    forall i, j | 0 <= i < j < |rest| ensures Shifted(rest)[i] < Shifted(rest)[j] {
      ShiftedPair(rest, i, j);
    }
  }

  lemma ShiftedPair(rest: seq<int>, i: int, j: int)
    requires Increasing(rest) && 0 <= i < j < |rest|
    ensures Shifted(rest)[i] < Shifted(rest)[j]
  {
  }

  lemma SelectsConsFirst<T>(r: seq<T>, s: seq<T>, rest: seq<int>)
    requires s != [] && Selects(r, s[1..], rest)
    ensures Selects([s[0]] + r, s, [0] + Shifted(rest))
  {
    var idx := [0] + Shifted(rest);
    forall i | 0 <= i < |idx| ensures 0 <= idx[i] < |s| && ([s[0]] + r)[i] == s[idx[i]] {
      if i > 0 {
        assert idx[i] == rest[i - 1] + 1;
      }
    }
  }

  lemma KeptAtConsFirst<T>(s: seq<T>, keep: T -> bool, rest: seq<int>)
    requires s != [] && keep(s[0]) && KeptAt(s[1..], keep, rest)
    ensures KeptAt(s, keep, [0] + Shifted(rest))
  {
    var idx := [0] + Shifted(rest);
    forall k | 0 <= k < |s| ensures (keep(s[k]) <==> k in idx) {
      if k > 0 {
        assert s[k] == s[1..][k - 1];
        ShiftedMembers(rest, k);
      }
    }
  }

  lemma PicksDroppedFirst<T(!new)>(s: seq<T>, keep: T -> bool, rest: seq<int>)
    requires s != [] && !keep(s[0])
    requires PicksKept(FilterBy(s[1..], keep), s[1..], keep, rest)
    ensures PicksKept(FilterBy(s, keep), s, keep, Shifted(rest))
  {
    assert FilterBy(s, keep) == FilterBy(s[1..], keep);
    SelectsDroppedFirst(FilterBy(s, keep), s, rest);
    IncreasingShifted(rest);
    KeptAtDroppedFirst(s, keep, rest);
  }

  lemma SelectsDroppedFirst<T>(r: seq<T>, s: seq<T>, rest: seq<int>)
    requires s != [] && Selects(r, s[1..], rest)
    ensures Selects(r, s, Shifted(rest))
  {
    var idx := Shifted(rest);
    forall i | 0 <= i < |idx| ensures 0 <= idx[i] < |s| && r[i] == s[idx[i]] {
      assert idx[i] == rest[i] + 1;
    }
  }

  lemma KeptAtDroppedFirst<T>(s: seq<T>, keep: T -> bool, rest: seq<int>)
    requires s != [] && !keep(s[0]) && KeptAt(s[1..], keep, rest)
    requires forall i :: 0 <= i < |rest| ==> 0 <= rest[i]
    ensures KeptAt(s, keep, Shifted(rest))
  {
    forall k | 0 <= k < |s| ensures (keep(s[k]) <==> k in Shifted(rest)) {
      ShiftedMembers(rest, k);
      if k > 0 {
        assert s[k] == s[1..][k - 1];
      } else {
        assert -1 !in rest;
      }
    }
  }

  /** `filteredItems` keeps exactly the items that pass the three tests, in
      the order they were fetched. */
  lemma FilterIsOrderedSubsequence(items: seq<ItemView>, f: Filters) returns (idx: seq<int>)
    ensures PicksKept(FilterItems(items, f), items, it => Keep(it, f), idx)
  {
    idx := FilterByIsOrderedSubsequence(items, it => Keep(it, f));
  }

  /** `[...new Set(locations)]`: each location once, at its first occurrence. */
  function Dedup(s: seq<string>): (r: seq<string>)
    ensures forall x :: x in r <==> x in s
    ensures forall i, j :: 0 <= i < j < |r| ==> r[i] != r[j]
  {
    if s == [] then []
    else
      var rest := Dedup(s[..|s| - 1]);
      if s[|s| - 1] in rest then rest else rest + [s[|s| - 1]]
  }

  /** Ascending under the default `sort` comparison, with no repeats. */
  predicate StrictlySorted(s: seq<string>)
  {
    forall i, j :: 0 <= i < j < |s| ==> JsText.Less(s[i], s[j])
  }

  function InsertSorted(x: string, s: seq<string>): (r: seq<string>)
    requires StrictlySorted(s) && x !in s
    ensures StrictlySorted(r)
    ensures forall y :: y in r <==> y == x || y in s
  {
    if s == [] || JsText.Less(x, s[0]) then
      forall j | 0 <= j < |s| ensures JsText.Less(x, s[j]) {
        if j > 0 { JsText.LessTransitive(x, s[0], s[j]); }
      }
      [x] + s
    else
      JsText.LessTotal(x, s[0]);
      var rest := InsertSorted(x, s[1..]);
      forall j | 0 <= j < |rest| ensures JsText.Less(s[0], rest[j]) {
        assert rest[j] in rest;
        if rest[j] != x {
          var k :| 0 <= k < |s[1..]| && s[1..][k] == rest[j];
          assert s[k + 1] == rest[j];
        }
      }
      [s[0]] + rest
  }

  /** `.sort()` of a list with no repeats. */
  function SortDistinct(s: seq<string>): (r: seq<string>)
    requires forall i, j :: 0 <= i < j < |s| ==> s[i] != s[j]
    ensures StrictlySorted(r)
    ensures forall y :: y in r <==> y in s
  {
    if s == [] then []
    else
      assert s[|s| - 1] !in s[..|s| - 1] by {
        forall i | 0 <= i < |s| - 1 ensures s[i] != s[|s| - 1] {
        }
      }
      InsertSorted(s[|s| - 1], SortDistinct(s[..|s| - 1]))
  }

  function LocationsOf(items: seq<ItemView>): (r: seq<string>)
    ensures |r| == |items|
    ensures forall i :: 0 <= i < |items| ==> r[i] == items[i].location
  {
    if items == [] then [] else [items[0].location] + LocationsOf(items[1..])
  }

  /** `uniqueLocations`: the locations of all fetched items (not only the
      filtered ones), sorted and without repeats. */
  function UniqueLocations(items: seq<ItemView>): (r: seq<string>)
    ensures StrictlySorted(r)
    ensures forall x :: x in r <==> exists it :: it in items && it.location == x
  {
    var locs := LocationsOf(items);
    forall x ensures x in locs <==> exists it :: it in items && it.location == x {
      if x in locs {
        var i :| 0 <= i < |locs| && locs[i] == x;
        assert items[i] in items;
      }
    }
    SortDistinct(Dedup(locs))
  }

  /** A strictly sorted list is determined by its elements: the location
      choices depend only on which locations occur, not on item order. */
  lemma {:induction false} StrictlySortedUnique(a: seq<string>, b: seq<string>)
    requires StrictlySorted(a) && StrictlySorted(b)
    requires forall x :: x in a <==> x in b
    ensures a == b
  {
    assert a != [] ==> a[0] in a;
    assert b != [] ==> b[0] in b;
    if a != [] && b != [] {
      assert a[0] in b && b[0] in a;
      var i :| 0 <= i < |b| && b[i] == a[0];
      var j :| 0 <= j < |a| && a[j] == b[0];
      JsText.LessAsymmetric(a[0], b[0]);
      assert a[0] == b[0];
      JsText.LessIrreflexive(a[0]);
      forall x ensures x in a[1..] <==> x in b[1..] {
        if x in a[1..] {
          var k :| 0 <= k < |a[1..]| && a[1..][k] == x;
          assert JsText.Less(a[0], a[k + 1]);
          assert x in b;
          var m :| 0 <= m < |b| && b[m] == x;
          assert m != 0;
          assert b[1..][m - 1] == x;
        }
        if x in b[1..] {
          var k :| 0 <= k < |b[1..]| && b[1..][k] == x;
          assert JsText.Less(b[0], b[k + 1]);
          assert x in a;
          var m :| 0 <= m < |a| && a[m] == x;
          assert m != 0;
          assert a[1..][m - 1] == x;
        }
      }
      StrictlySortedUnique(a[1..], b[1..]);
    }
  }

  lemma UniqueLocationsOrderFree(a: seq<ItemView>, b: seq<ItemView>)
    requires forall it :: it in a <==> it in b
    ensures UniqueLocations(a) == UniqueLocations(b)
  {
    StrictlySortedUnique(UniqueLocations(a), UniqueLocations(b));
  }

  /** `filtered.filter(item => item.quantity < 5).length`. */
  function CountLow(s: seq<ItemView>): (n: nat)
    ensures n <= |s|
  {
    |FilterBy(s, IsLow)|
  }

  function TotalQuantity(s: seq<ItemView>): int
  {
    if s == [] then 0 else s[0].quantity + TotalQuantity(s[1..])
  }

  /** The three figures shown above the table, over the filtered items. */
  datatype Stats = Stats(totalItems: nat, lowStockItems: nat, totalQuantity: int)

  function StatsOf(filtered: seq<ItemView>): (st: Stats)
    ensures st.lowStockItems <= st.totalItems == |filtered|
  {
    Stats(|filtered|, CountLow(filtered), TotalQuantity(filtered))
  }

  predicate AllNonNegative(s: seq<ItemView>)
  {
    forall x :: x in s ==> x.quantity >= 0
  }

  /** With the 'low' choice every shown item is low, so the low-stock figure
      equals the item count. */
  lemma {:induction false} LowFilterAllLow(items: seq<ItemView>, f: Filters)
    requires f.quantityFilter == "low"
    ensures StatsOf(FilterItems(items, f)).lowStockItems == StatsOf(FilterItems(items, f)).totalItems
  {
    AllLowCount(FilterItems(items, f));
  }

  lemma {:induction false} AllLowCount(s: seq<ItemView>)
    requires forall x :: x in s ==> IsLow(x)
    ensures FilterBy(s, IsLow) == s
  {
    if s != [] {
      AllLowCount(s[1..]);
    }
  }

  /** Filtering never raises the total quantity when stock is never
      negative, and the total is itself never negative. */
  lemma {:induction false} FilteredTotalBounded(items: seq<ItemView>, f: Filters)
    requires AllNonNegative(items)
    ensures 0 <= TotalQuantity(FilterItems(items, f)) <= TotalQuantity(items)
  {
    if items != [] {
      assert AllNonNegative(items[1..]);
      FilteredTotalBounded(items[1..], f);
    }
  }

  /** With every control at its neutral setting the table shows everything. */
  lemma {:induction false} NeutralFiltersKeepAll(items: seq<ItemView>)
    ensures FilterItems(items, Filters("", "all", "all")) == items
  {
    if items != [] {
      NeutralFiltersKeepAll(items[1..]);
    }
  }
}
