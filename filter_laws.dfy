/** What `filterProperties` promises about its result, proved of `Query`. */
module FilterLaws {
  import opened Wrappers
  import opened Text
  import opened Seqs
  import opened Sorting
  import opened Listing
  import opened FilterEngine

  /** The result holds exactly the records of the dataset that pass every
      active filter, each as often as it occurs in the dataset: a
      sub-multiset of the data, possibly reordered. */
  lemma QueryCounts(data: seq<Record>, c: Criteria)
    ensures forall r :: multiset(Query(data, c))[r] ==
                        if Matches(c, r) then multiset(data)[r] else 0
    ensures multiset(Query(data, c)) <= multiset(data)
  {
    SortByPermutation(Select(data, c), PriceOf, Ascending(c));
    WhereCount(data, r => Matches(c, r));
  }

  /** A record is in the result exactly when it is in the dataset and passes
      every active filter. */
  lemma QueryMembers(data: seq<Record>, c: Criteria)
    ensures forall r :: r in Query(data, c) <==> r in data && Matches(c, r)
  {
    QueryCounts(data, c);
    forall r ensures r in Query(data, c) <==> r in data && Matches(c, r) {
      assert r in Query(data, c) <==> multiset(Query(data, c))[r] > 0;
      assert r in data <==> multiset(data)[r] > 0;
    }
  }

  /** An exact-match filter applies only when its dropdown is not on "All";
      then every result has that value. */
  lemma QueryExactMatch(data: seq<Record>, c: Criteria)
    ensures forall r | r in Query(data, c) ::
      && (c.selections.totalSqft.Some? ==> r.totalSqft == c.selections.totalSqft.value)
      && (c.selections.bedrooms.Some? ==> r.bedrooms == c.selections.bedrooms.value)
      && (c.selections.bathrooms.Some? ==> r.bathrooms == c.selections.bathrooms.value)
      && (LocationActive(c.selections) ==> r.location == c.selections.location.value)
    ensures c.selections == NoSelections ==>
      forall r :: r in Query(data, c) <==> r in data && InPriceRange(c, r) && SearchHit(c, r)
  {
    QueryMembers(data, c);
  }

  /** Choosing the option of a listing whose location is empty filters
      nothing: its value is "", which `if (location)` treats as "All". */
  lemma EmptyLocationIsAll(data: seq<Record>, c: Criteria)
    requires c.selections.location == Some([])
    ensures Query(data, c) == Query(data, c.(selections := c.selections.(location := None)))
  {
    var all := c.(selections := c.selections.(location := None));
    assert all.minPrice == c.minPrice && all.maxPrice == c.maxPrice;
    assert all.searchText == c.searchText && all.sortPrice == c.sortPrice;
    forall r: Record
      ensures Matches(c, r) == Matches(all, r)
    {
      assert LocationSelected(c.selections, r) && LocationSelected(all.selections, r);
    }
    WhereExt(data, r => Matches(c, r), r => Matches(all, r));
    assert Select(data, c) == Select(data, all);
  }

  /** Both price bounds are inclusive; an unparsable or zero minimum falls
      back to 0 and an unparsable or zero maximum to 999999. */
  lemma QueryPriceRange(data: seq<Record>, c: Criteria)
    ensures forall r | r in Query(data, c) :: MinBound(c) <= r.price <= MaxBound(c)
    ensures MinBound(c) == if c.minPrice == None || c.minPrice == Some(0) then 0 else c.minPrice.value
    ensures MaxBound(c) == if c.maxPrice == None || c.maxPrice == Some(0) then 999999 else c.maxPrice.value
  {
    QueryMembers(data, c);
  }

  /** With non-empty search text every result's lower-cased location or
      society contains the lower-cased text; empty search text removes
      nothing. */
  lemma QuerySearch(data: seq<Record>, c: Criteria)
    ensures c.searchText != [] ==>
      forall r | r in Query(data, c) ::
        Contains(Lower(r.location), Lower(c.searchText)) ||
        (r.society.Some? && Contains(Lower(r.society.value), Lower(c.searchText)))
    ensures c.searchText == [] ==>
      forall r :: r in Query(data, c) <==> r in data && Selected(c.selections, r) && InPriceRange(c, r)
  {
    QueryMembers(data, c);
  }

  /** Non-decreasing by price for `'low'`, non-increasing otherwise. */
  lemma QuerySorted(data: seq<Record>, c: Criteria)
    ensures c.sortPrice == "low" ==>
      forall i, j :: 0 <= i < j < |Query(data, c)| ==> Query(data, c)[i].price <= Query(data, c)[j].price
    ensures c.sortPrice != "low" ==>
      forall i, j :: 0 <= i < j < |Query(data, c)| ==> Query(data, c)[i].price >= Query(data, c)[j].price
  {
    SortByOrders(Select(data, c), PriceOf, Ascending(c));
  }

  /** Listings of equal price keep their dataset order in the result. */
  lemma QueryStable(data: seq<Record>, c: Criteria, p: Record -> bool, k: int)
    requires forall r :: p(r) == (r.price == k)
    ensures Where(Query(data, c), p) == Where(data, r => Matches(c, r) && p(r))
  {
    SortByStable(Select(data, c), PriceOf, Ascending(c), p, k);
    WhereWhere(data, r => Matches(c, r), p, r => Matches(c, r) && p(r));
  }

  /** Running the same query on its own result changes nothing. */
  lemma QueryIdempotent(data: seq<Record>, c: Criteria)
    ensures Query(Query(data, c), c) == Query(data, c)
  {
    var q := Query(data, c);
    QueryMembers(data, c);
    WhereAll(q, r => Matches(c, r));
    SortByOrders(Select(data, c), PriceOf, Ascending(c));
    SortByKeepsOrdered(q, PriceOf, Ascending(c));
  }

  /** With an untouched form (no dropdown set, both prices unparsable, no
      search text, no `'low'`) every record whose price lies within the
      fallback bounds is shown, sorted by descending price. */
  lemma DefaultQuery(data: seq<Record>, sortPrice: string)
    requires sortPrice != "low"
    requires forall r | r in data :: DefaultMinPrice <= r.price <= DefaultMaxPrice
    ensures Query(data, Criteria(NoSelections, None, None, sortPrice, "")) == SortBy(data, PriceOf, false)
  {
    WhereAll(data, r => Matches(Criteria(NoSelections, None, None, sortPrice, ""), r));
  }

  /** Two listings used by the scenarios below. */
  const Whitefield := Record("Whitefield", None, 50, 1200, 2, 2)
  const Indiranagar := Record("Indiranagar", None, 120, 1500, 3, 2)

  /** Sorting `'low'` puts the cheaper listing first. */
  lemma ScenarioSortLow()
    ensures Query([Whitefield, Indiranagar], Criteria(NoSelections, None, None, "low", ""))
            == [Whitefield, Indiranagar]
  {
    var c := Criteria(NoSelections, None, None, "low", "");
    var both := [Whitefield, Indiranagar];
    assert Matches(c, Whitefield) && Matches(c, Indiranagar);
    WhereAll(both, r => Matches(c, r));
    assert both[..1] == [Whitefield] && [Whitefield][..0] == [];
    assert SortBy([Whitefield], PriceOf, true) == [Whitefield];
  }

  /** A price window of [60, 200] keeps only the listing at 120. */
  lemma ScenarioPriceWindow()
    ensures Query([Whitefield, Indiranagar], Criteria(NoSelections, Some(60), Some(200), "", ""))
            == [Indiranagar]
  {
    var c := Criteria(NoSelections, Some(60), Some(200), "", "");
    var both := [Whitefield, Indiranagar];
    assert !Matches(c, Whitefield) && Matches(c, Indiranagar);
    assert both[1..] == [Indiranagar] && [Indiranagar][1..] == [];
    var p := (r: Record) => Matches(c, r);
    assert Select(both, c) == Where(both, p);
    assert Where([Indiranagar], p) == [Indiranagar] + Where([], p);
    assert Where(both, p) == Where([Indiranagar], p);
    assert [Indiranagar][..0] == [];
  }

  /** "white" occurs in "Whitefield", case ignored, and not in "Indiranagar". */
  lemma SearchWhite()
    ensures Contains(Lower("Whitefield"), Lower("white"))
    ensures !Contains(Lower("Indiranagar"), Lower("white"))
  {
    assert Lower("white") == "white";
    assert Lower("Whitefield") == "whitefield";
    assert OccursAt("whitefield", "white", 0);
    assert Lower("Indiranagar") == "indiranagar";
    forall i | 0 <= i <= 6 ensures !OccursAt("indiranagar", "white", i) {
      assert "indiranagar"[i] != 'w';
    }
  }

  /** Searching "white" keeps only Whitefield, in either sort order and
      under any price window that admits its price. */
  lemma ScenarioSearch(minPrice: Option<int>, maxPrice: Option<int>, sortPrice: string)
    requires OrDefault(minPrice, DefaultMinPrice) <= 50 <= OrDefault(maxPrice, DefaultMaxPrice)
    ensures Query([Whitefield, Indiranagar], Criteria(NoSelections, minPrice, maxPrice, sortPrice, "white"))
            == [Whitefield]
  {
    var c := Criteria(NoSelections, minPrice, maxPrice, sortPrice, "white");
    SearchWhite();
    var both := [Whitefield, Indiranagar];
    assert Matches(c, Whitefield) && !Matches(c, Indiranagar);
    assert both[1..] == [Indiranagar] && [Indiranagar][1..] == [];
    var p := (r: Record) => Matches(c, r);
    assert Select(both, c) == Where(both, p);
    assert Where([Indiranagar], p) == Where([], p);
    assert Where(both, p) == [Whitefield] + Where([Indiranagar], p);
    assert [Whitefield][..0] == [];
  }
}
