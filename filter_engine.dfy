/** `filterProperties`: exact-match filters, the inclusive price range, the
    free-text search and the price sort, over a copy of the loaded data. */
module FilterEngine {
  import opened Wrappers
  import opened Text
  import opened Seqs
  import opened Sorting
  import opened Listing

  /** `parseFloat(min_price) || 0` and `parseFloat(max_price) || 999999`. */
  const DefaultMinPrice := 0
  const DefaultMaxPrice := 999999

  /** `parsed || fallback`: both NaN (`None`) and 0 are falsy. */
  function OrDefault(parsed: Option<int>, fallback: int): int
  {
    if parsed.None? || parsed.value == 0 then fallback else parsed.value
  }

  function MinBound(c: Criteria): int { OrDefault(c.minPrice, DefaultMinPrice) }
  function MaxBound(c: Criteria): int { OrDefault(c.maxPrice, DefaultMaxPrice) }

  /** `p.price >= minPrice && p.price <= maxPrice`. */
  predicate InPriceRange(c: Criteria, r: Record)
  {
    MinBound(c) <= r.price <= MaxBound(c)
  }

  /** The search text is lower-cased once, before any record is matched. */
  function SearchKey(c: Criteria): string { Lower(c.searchText) }

  /** Empty search text keeps everything; otherwise the lower-cased location
      or the lower-cased society must contain it. A missing society fails on
      its own side only. */
  predicate SearchHit(c: Criteria, r: Record)
  {
    var q := SearchKey(c);
    q == [] ||
    Contains(Lower(r.location), q) ||
    (r.society.Some? && Contains(Lower(r.society.value), q))
  }

  /** Every active predicate of `filterProperties` holds. */
  predicate Matches(c: Criteria, r: Record)
  {
    Selected(c.selections, r) && InPriceRange(c, r) && SearchHit(c, r)
  }

  /** The records that pass the four dropdowns, in dataset order. */
  function Narrowed(data: seq<Record>, sel: Selections): seq<Record>
  {
    Where(data, r => Selected(sel, r))
  }

  /** The records that pass every filter, in dataset order. */
  function Select(data: seq<Record>, c: Criteria): seq<Record>
  {
    Where(data, r => Matches(c, r))
  }

  /** Ascending only for the value `'low'`; anything else, including an
      unset control, sorts descending. */
  predicate Ascending(c: Criteria)
  {
    c.sortPrice == "low"
  }

  /** What `filterProperties` hands to `displayProperties`. */
  function Query(data: seq<Record>, c: Criteria): seq<Record>
  {
    SortBy(Select(data, c), PriceOf, Ascending(c))
  }

  /** The four `if (x) filtered = filtered.filter(...)` steps, shared by
      `filterProperties` and `updateDropdowns`. */
  method ApplySelections(data: seq<Record>, sel: Selections) returns (filtered: seq<Record>)
    ensures filtered == Narrowed(data, sel)
  {
    var bySqft := (r: Record) => SqftSelected(sel, r);
    var byBedrooms := (r: Record) => BedroomsSelected(sel, r);
    var byBathrooms := (r: Record) => BathroomsSelected(sel, r);
    var byLocation := (r: Record) => LocationSelected(sel, r);
    filtered := data;
    if sel.totalSqft.Some? {
      filtered := Where(filtered, bySqft);
    } else {
      WhereAll(filtered, bySqft);
    }
    if sel.bedrooms.Some? {
      filtered := Where(filtered, byBedrooms);
    } else {
      WhereAll(filtered, byBedrooms);
    }
    if sel.bathrooms.Some? {
      filtered := Where(filtered, byBathrooms);
    } else {
      WhereAll(filtered, byBathrooms);
    }
    if LocationActive(sel) {
      filtered := Where(filtered, byLocation);
    } else {
      WhereAll(filtered, byLocation);
    }
    StagedSelections(data, sel, bySqft, byBedrooms, byBathrooms, byLocation);
  }

  /** Filtering by the four dropdowns one after another is filtering by
      their conjunction. */
  lemma StagedSelections(data: seq<Record>, sel: Selections,
                         bySqft: Record -> bool, byBedrooms: Record -> bool,
                         byBathrooms: Record -> bool, byLocation: Record -> bool)
    requires forall r :: bySqft(r) == SqftSelected(sel, r)
    requires forall r :: byBedrooms(r) == BedroomsSelected(sel, r)
    requires forall r :: byBathrooms(r) == BathroomsSelected(sel, r)
    requires forall r :: byLocation(r) == LocationSelected(sel, r)
    ensures Where(Where(Where(Where(data, bySqft), byBedrooms), byBathrooms), byLocation)
            == Narrowed(data, sel)
  {
    var two := (r: Record) => bySqft(r) && byBedrooms(r);
    var three := (r: Record) => two(r) && byBathrooms(r);
    var four := (r: Record) => three(r) && byLocation(r);
    WhereWhere(data, bySqft, byBedrooms, two);
    WhereWhere(data, two, byBathrooms, three);
    WhereWhere(data, three, byLocation, four);
    WhereExt(data, four, r => Selected(sel, r));
  }

  /** The dropdowns, then the price range, then the search, one after another,
      is filtering by `Matches`. */
  lemma StagedFilters(data: seq<Record>, c: Criteria,
                      byPrice: Record -> bool, bySearch: Record -> bool)
    requires forall r :: byPrice(r) == InPriceRange(c, r)
    requires forall r :: bySearch(r) == SearchHit(c, r)
    ensures Where(Where(Narrowed(data, c.selections), byPrice), bySearch) == Select(data, c)
  {
    var selPrice := (r: Record) => Selected(c.selections, r) && byPrice(r);
    var all := (r: Record) => selPrice(r) && bySearch(r);
    WhereWhere(data, r => Selected(c.selections, r), byPrice, selPrice);
    WhereWhere(data, selPrice, bySearch, all);
    WhereExt(data, all, r => Matches(c, r));
  }

  /** `filterProperties` on a copy of the dataset: the filters as successive
      reassignments, then the in-place sort. */
  method FilterProperties(data: seq<Record>, c: Criteria) returns (result: seq<Record>)
    ensures result == Query(data, c)
  {
    var filtered := ApplySelections(data, c.selections);
    var byPrice := (r: Record) => InPriceRange(c, r);
    var bySearch := (r: Record) => SearchHit(c, r);
    filtered := Where(filtered, byPrice);
    if SearchKey(c) != [] {
      filtered := Where(filtered, bySearch);
    } else {
      WhereAll(filtered, bySearch);
    }
    StagedFilters(data, c, byPrice, bySearch);
    result := SortByPrice(filtered, c.sortPrice == "low");
  }

  /** `filtered.sort((a, b) => a.price - b.price)` or its descending twin,
      on an array holding `filtered`. */
  method SortByPrice(filtered: seq<Record>, asc: bool) returns (result: seq<Record>)
    ensures result == SortBy(filtered, PriceOf, asc)
  {
    var a := new Record[|filtered|](i requires 0 <= i < |filtered| => filtered[i]);
    assert a[..] == filtered;
    SortInPlace(a, PriceOf, asc);
    result := a[..];
  }
}
