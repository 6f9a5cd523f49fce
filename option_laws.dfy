/** What the option lists promise: distinct values in first-occurrence
    order, a sorted `total_sqft` list, "All" first, narrowing that only
    offers values of matching records, and the selection rule. */
module OptionLaws {
  import opened Wrappers
  import opened Seqs
  import opened Sorting
  import opened Listing
  import opened FilterEngine
  import opened OptionDeriver

  /** The dropdown lists `v` as one of its values. */
  predicate Offers<V(==)>(d: Dropdown<V>, v: V)
  {
    Item(v) in d.entries
  }

  lemma ItemsMembers<V>(vs: seq<V>)
    ensures forall v :: Item(v) in Items(vs) <==> v in vs
    ensures All !in Items(vs)
    ensures NoDuplicates(vs) ==> NoDuplicates(Items(vs))
  {
    forall v | Item(v) in Items(vs) ensures v in vs {
      var i :| 0 <= i < |vs| && Items(vs)[i] == Item(v);
    }
  }

  /** The `total_sqft` list is strictly ascending and holds exactly the
      values that occur in the data. */
  lemma SqftChoicesSorted(data: seq<Record>)
    ensures forall i, j :: 0 <= i < j < |SqftChoices(data)| ==> SqftChoices(data)[i] < SqftChoices(data)[j]
    ensures forall v :: v in SqftChoices(data) <==> exists r :: r in data && r.totalSqft == v
  {
    var d := Distinct(Column(data, SqftOf));
    var s := SqftChoices(data);
    SortByPermutation(d, Identity, true);
    SortedDistinct(d, s);
    forall v ensures v in s <==> v in d {
      assert v in s <==> v in multiset(s);
    }
    ColumnMembers(data, SqftOf);
  }

  /** `s`, the ascending sort of the duplicate-free `d`, strictly ascends. */
  lemma SortedDistinct(d: seq<int>, s: seq<int>)
    requires NoDuplicates(d) && s == SortBy(d, Identity, true)
    requires multiset(s) == multiset(d)
    ensures forall i, j :: 0 <= i < j < |s| ==> s[i] < s[j]
  {
    NoDuplicatesPermutation(d, s);
    SortByOrders(d, Identity, true);
  }

  /** The other three lists hold each occurring value once, in the order in
      which it first occurs in the data. */
  lemma OtherChoicesDistinct(data: seq<Record>)
    ensures NoDuplicates(BedroomChoices(data)) && NoDuplicates(BathroomChoices(data))
    ensures NoDuplicates(LocationChoices(data))
    ensures forall v :: v in BedroomChoices(data) <==> exists r :: r in data && r.bedrooms == v
    ensures forall v :: v in BathroomChoices(data) <==> exists r :: r in data && r.bathrooms == v
    ensures forall v :: v in LocationChoices(data) <==> exists r :: r in data && r.location == v
    ensures forall i, j :: 0 <= i < j < |LocationChoices(data)| ==>
      FirstIndex(Column(data, LocationOf), LocationChoices(data)[i]) <
      FirstIndex(Column(data, LocationOf), LocationChoices(data)[j])
    ensures forall i, j :: 0 <= i < j < |BedroomChoices(data)| ==>
      FirstIndex(Column(data, BedroomsOf), BedroomChoices(data)[i]) <
      FirstIndex(Column(data, BedroomsOf), BedroomChoices(data)[j])
    ensures forall i, j :: 0 <= i < j < |BathroomChoices(data)| ==>
      FirstIndex(Column(data, BathroomsOf), BathroomChoices(data)[i]) <
      FirstIndex(Column(data, BathroomsOf), BathroomChoices(data)[j])
  {
    ColumnMembers(data, BedroomsOf);
    ColumnMembers(data, BathroomsOf);
    ColumnMembers(data, LocationOf);
    DistinctFirstOccurrenceOrder(Column(data, LocationOf));
    DistinctFirstOccurrenceOrder(Column(data, BedroomsOf));
    DistinctFirstOccurrenceOrder(Column(data, BathroomsOf));
  }

  /** A rebuilt dropdown starts with "All", lists every value once and no
      other, and keeps the old value selected exactly when it is still
      listed; otherwise "All" is selected. */
  lemma RepopulatedShape<V(!new)>(current: Option<V>, values: seq<V>)
    ensures Repopulated(current, values).entries[0] == All
    ensures NoDuplicates(Repopulated(current, values).entries)
    ensures forall v :: Offers(Repopulated(current, values), v) <==> v in values
    ensures forall v :: Repopulated(current, values).selected == Some(v) <==>
                        current == Some(v) && Offers(Repopulated(current, values), v)
  {
    ItemsMembers(Distinct(values));
    AllThenItems(Distinct(values));
  }

  /** "All" followed by one option per value of a duplicate-free list lists
      nothing twice. */
  lemma AllThenItems<V>(vs: seq<V>)
    requires NoDuplicates(vs)
    ensures NoDuplicates([All] + Items(vs))
  {
    var es := [All] + Items(vs);
    ItemsMembers(vs);
    forall i, j | 0 <= i < j < |es| ensures es[i] != es[j] {
      if i > 0 {
        assert es[i] == Items(vs)[i - 1];
        assert es[j] == Items(vs)[j - 1];
      } else {
        assert es[j] in Items(vs);
      }
    }
  }

  /** The rebuild as written agrees with the corrected one exactly when a
      value is selected or the blank value the loose comparison matches
      against "All" is not among the values. */
  lemma RepopulatedAsWrittenAgrees<V(!new)>(current: Option<V>, values: seq<V>, blank: V)
    ensures RepopulatedAsWritten(current, values, blank) == Repopulated(current, values)
        <==> current.Some? || blank !in values
  {
  }

  /** As written, rebuilding the `bathrooms` dropdown while it is on "All",
      from matching records with 2 and 0 bathrooms, selects 0; the
      corrected rebuild keeps "All". */
  lemma RepopulatedAsWrittenSelectsZero()
    ensures RepopulatedAsWritten(None, [2, 0], 0).selected == Some(0)
    ensures Repopulated(None, [2, 0]).selected == None
    ensures Offers(Repopulated(None, [2, 0]), 0)
  {
    assert 0 in [2, 0];
    ItemsMembers(Distinct([2, 0]));
  }

  /** Narrowing: every dropdown starts with "All" and offers exactly the
      values of the records that pass all four current selections, so it
      offers a subset of what the full dataset offers; the selection rule of
      `RepopulatedShape` applies to each. */
  lemma NarrowedMenusShape(data: seq<Record>, sel: Selections)
    ensures var m := NarrowedMenus(data, sel);
      && m.sqft.entries[0] == All && m.bedrooms.entries[0] == All
      && m.bathrooms.entries[0] == All && m.location.entries[0] == All
    ensures var m := NarrowedMenus(data, sel);
      forall v :: Offers(m.sqft, v) <==> exists r :: r in data && Selected(sel, r) && r.totalSqft == v
    ensures var m := NarrowedMenus(data, sel);
      forall v :: Offers(m.bedrooms, v) <==> exists r :: r in data && Selected(sel, r) && r.bedrooms == v
    ensures var m := NarrowedMenus(data, sel);
      forall v :: Offers(m.bathrooms, v) <==> exists r :: r in data && Selected(sel, r) && r.bathrooms == v
    ensures var m := NarrowedMenus(data, sel);
      forall v :: Offers(m.location, v) <==> exists r :: r in data && Selected(sel, r) && r.location == v
    ensures var m := NarrowedMenus(data, sel);
      forall v :: m.sqft.selected == Some(v) <==> sel.totalSqft == Some(v) && Offers(m.sqft, v)
    ensures var m := NarrowedMenus(data, sel);
      forall v :: m.bedrooms.selected == Some(v) <==> sel.bedrooms == Some(v) && Offers(m.bedrooms, v)
    ensures var m := NarrowedMenus(data, sel);
      forall v :: m.bathrooms.selected == Some(v) <==> sel.bathrooms == Some(v) && Offers(m.bathrooms, v)
    ensures var m := NarrowedMenus(data, sel);
      forall v :: m.location.selected == Some(v) <==> sel.location == Some(v) && Offers(m.location, v)
  {
    NarrowedField(data, sel, sel.totalSqft, SqftOf);
    NarrowedField(data, sel, sel.bedrooms, BedroomsOf);
    NarrowedField(data, sel, sel.bathrooms, BathroomsOf);
    NarrowedField(data, sel, sel.location, LocationOf);
  }

  /** One narrowed dropdown, for the field `f`. */
  lemma NarrowedField<V(!new)>(data: seq<Record>, sel: Selections, current: Option<V>, f: Record -> V)
    ensures Repopulated(current, Column(Narrowed(data, sel), f)).entries[0] == All
    ensures forall v :: Offers(Repopulated(current, Column(Narrowed(data, sel), f)), v) <==>
                        exists r :: r in data && Selected(sel, r) && f(r) == v
    ensures forall v :: Repopulated(current, Column(Narrowed(data, sel), f)).selected == Some(v) <==>
                        current == Some(v) && Offers(Repopulated(current, Column(Narrowed(data, sel), f)), v)
  {
    RepopulatedShape(current, Column(Narrowed(data, sel), f));
    ColumnMembers(Narrowed(data, sel), f);
  }

  /** Narrowing never offers a value that the dataset does not have. */
  lemma NarrowingMonotone(data: seq<Record>, sel: Selections)
    ensures forall v :: Offers(NarrowedMenus(data, sel).sqft, v) ==> v in SqftChoices(data)
    ensures forall v :: Offers(NarrowedMenus(data, sel).bedrooms, v) ==> v in BedroomChoices(data)
    ensures forall v :: Offers(NarrowedMenus(data, sel).bathrooms, v) ==> v in BathroomChoices(data)
    ensures forall v :: Offers(NarrowedMenus(data, sel).location, v) ==> v in LocationChoices(data)
  {
    NarrowedMenusShape(data, sel);
    SqftChoicesSorted(data);
    OtherChoicesDistinct(data);
  }

  /** Right after load each dropdown is "All", selected, followed by the
      choices of the full dataset, each listed once. */
  lemma LoadedShape(data: seq<Record>)
    ensures var m := Loaded(data);
      && m.sqft == Dropdown([All] + Items(SqftChoices(data)), None)
      && m.bedrooms == Dropdown([All] + Items(BedroomChoices(data)), None)
      && m.bathrooms == Dropdown([All] + Items(BathroomChoices(data)), None)
      && m.location == Dropdown([All] + Items(LocationChoices(data)), None)
    ensures var m := Loaded(data);
      && NoDuplicates(m.sqft.entries) && NoDuplicates(m.bedrooms.entries)
      && NoDuplicates(m.bathrooms.entries) && NoDuplicates(m.location.entries)
  {
    SqftChoicesSorted(data);
    OtherChoicesDistinct(data);
    AllThenItems(SqftChoices(data));
    AllThenItems(BedroomChoices(data));
    AllThenItems(BathroomChoices(data));
    AllThenItems(LocationChoices(data));
  }

  /** `resetFilters` as written, pressed right after load: every dropdown
      lists each of its values twice. */
  lemma ResetAsWrittenDuplicates(data: seq<Record>)
    requires data != []
    ensures var m := ResetMenusAsWritten(Loaded(data), data);
      && m.sqft.entries == [All] + Items(SqftChoices(data)) + Items(SqftChoices(data))
      && m.bedrooms.entries == [All] + Items(BedroomChoices(data)) + Items(BedroomChoices(data))
      && m.bathrooms.entries == [All] + Items(BathroomChoices(data)) + Items(BathroomChoices(data))
      && m.location.entries == [All] + Items(LocationChoices(data)) + Items(LocationChoices(data))
      && SelectionsOf(m) == NoSelections
    ensures var m := ResetMenusAsWritten(Loaded(data), data);
      && !NoDuplicates(m.sqft.entries) && !NoDuplicates(m.bedrooms.entries)
      && !NoDuplicates(m.bathrooms.entries) && !NoDuplicates(m.location.entries)
  {
    var m := ResetMenusAsWritten(Loaded(data), data);
    SqftChoicesSorted(data);
    OtherChoicesDistinct(data);
    Twice(SqftChoices(data), data[0].totalSqft);
    Twice(BedroomChoices(data), data[0].bedrooms);
    Twice(BathroomChoices(data), data[0].bathrooms);
    Twice(LocationChoices(data), data[0].location);
  }

  /** A non-empty list of options appended twice repeats its first one. */
  lemma Twice<V>(vs: seq<V>, v: V)
    requires v in vs
    ensures !NoDuplicates([All] + Items(vs) + Items(vs))
  {
    var es := [All] + Items(vs) + Items(vs);
    assert es[1] == es[1 + |vs|];
  }

  /** `resetFilters` as intended restores the dropdowns of the loaded page,
      whatever narrowing and selections came before. */
  lemma ResetMenusRestoresLoad(m: Menus, data: seq<Record>)
    ensures ResetMenus(m, data) == Loaded(data)
    ensures var r := ResetMenus(m, data);
      && NoDuplicates(r.sqft.entries) && NoDuplicates(r.bedrooms.entries)
      && NoDuplicates(r.bathrooms.entries) && NoDuplicates(r.location.entries)
      && SelectionsOf(r) == NoSelections
  {
    LoadedShape(data);
  }
}
