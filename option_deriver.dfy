/** The dropdown option lists: `populateFilters` (load time, appended to the
    page's own "All" entry) and `updateDropdowns` /
    `populateFilteredOptions` (narrowing, which rebuilds each list). */
module OptionDeriver {
  import opened Wrappers
  import opened Seqs
  import opened Sorting
  import opened Listing
  import opened FilterEngine

  /** An `<option>`: the "All" entry (value "") or one field value. */
  datatype Entry<V> = All | Item(value: V)

  /** A `<select>`: its options in order, and the value of the selected one
      (`None` when "All" is selected). */
  datatype Dropdown<V> = Dropdown(entries: seq<Entry<V>>, selected: Option<V>)

  /** The four dependent dropdowns. */
  datatype Menus = Menus(
    sqft: Dropdown<int>,
    bedrooms: Dropdown<int>,
    bathrooms: Dropdown<int>,
    location: Dropdown<string>)

  /** The current value of each dropdown. */
  function SelectionsOf(m: Menus): Selections
  {
    Selections(m.sqft.selected, m.bedrooms.selected, m.bathrooms.selected, m.location.selected)
  }

  /** One option per value, in order. */
  function Items<V>(vs: seq<V>): (es: seq<Entry<V>>)
    ensures |es| == |vs|
    ensures forall i :: 0 <= i < |vs| ==> es[i] == Item(vs[i])
  {
    seq(|vs|, i requires 0 <= i < |vs| => Item(vs[i]))
  }

  /** A `<select>` as the page first has it: a single selected "All". */
  function Blank<V>(): Dropdown<V>
  {
    Dropdown([All], None)
  }

  const InitialMenus: Menus := Menus(Blank(), Blank(), Blank(), Blank())

  function Identity(x: int): int { x }

  /** `[...new Set(data.map(p => p.total_sqft))].sort((a, b) => a - b)`. */
  function SqftChoices(data: seq<Record>): seq<int>
  {
    SortBy(Distinct(Column(data, SqftOf)), Identity, true)
  }

  /** `[...new Set(...)]` of the other three fields, unsorted. */
  function BedroomChoices(data: seq<Record>): seq<int> { Distinct(Column(data, BedroomsOf)) }
  function BathroomChoices(data: seq<Record>): seq<int> { Distinct(Column(data, BathroomsOf)) }
  function LocationChoices(data: seq<Record>): seq<string> { Distinct(Column(data, LocationOf)) }

  /** `vs.forEach(v => select.append(new Option(v, v)))`: the select keeps
      what it had and its selection. */
  function Appended<V>(d: Dropdown<V>, vs: seq<V>): Dropdown<V>
  {
    d.(entries := d.entries + Items(vs))
  }

  method AppendOptions<V>(d: Dropdown<V>, vs: seq<V>) returns (e: Dropdown<V>)
    ensures e == Appended(d, vs)
  {
    var entries := d.entries;
    for k := 0 to |vs|
      invariant entries == d.entries + Items(vs[..k])
    {
      assert Items(vs[..k + 1]) == Items(vs[..k]) + [Item(vs[k])];
      entries := entries + [Item(vs[k])];
    }
    assert vs[..|vs|] == vs;
    e := d.(entries := entries);
  }

  /** `populateFilters(data)` applied to the dropdowns `m`. */
  function Populated(m: Menus, data: seq<Record>): Menus
  {
    Menus(
      Appended(m.sqft, SqftChoices(data)),
      Appended(m.bedrooms, BedroomChoices(data)),
      Appended(m.bathrooms, BathroomChoices(data)),
      Appended(m.location, LocationChoices(data)))
  }

  method PopulateFilters(m: Menus, data: seq<Record>) returns (r: Menus)
    ensures r == Populated(m, data)
  {
    var sqft := AppendOptions(m.sqft, SqftChoices(data));
    var bedrooms := AppendOptions(m.bedrooms, BedroomChoices(data));
    var bathrooms := AppendOptions(m.bathrooms, BathroomChoices(data));
    var location := AppendOptions(m.location, LocationChoices(data));
    r := Menus(sqft, bedrooms, bathrooms, location);
  }

  /** `populateFilteredOptions(id, values)` on a select whose value was
      `current`: a fresh "All", then every distinct value; the old value
      stays selected when it is among them, otherwise "All" is. */
  function Repopulated<V(==,!new)>(current: Option<V>, values: seq<V>): Dropdown<V>
  {
    Dropdown(
      [All] + Items(Distinct(values)),
      if current.Some? && current.value in values then current else None)
  }

  /** `populateFilteredOptions` as written: `val == currentValue` is loose
      equality against the select's value, which is "" while "All" is
      selected. Both `0 == ""` and `"" == ""` hold, so with "All" selected the
      option whose value is `blank` (0 for the numeric fields, the empty
      string for locations) becomes the selected one. */
  function RepopulatedAsWritten<V(==,!new)>(current: Option<V>, values: seq<V>, blank: V): Dropdown<V>
  {
    Dropdown(
      [All] + Items(Distinct(values)),
      if current.Some? then (if current.value in values then current else None)
      else if blank in values then Some(blank) else None)
  }

  method PopulateFilteredOptions<V(==,!new)>(current: Option<V>, values: seq<V>) returns (d: Dropdown<V>)
    ensures d == Repopulated(current, values)
  {
    var unique := Distinct(values);
    var entries: seq<Entry<V>> := [All];
    var selected: Option<V> := None;
    for k := 0 to |unique|
      invariant entries == [All] + Items(unique[..k])
      invariant selected == if current.Some? && current.value in unique[..k] then current else None
    {
      var val := unique[k];
      assert unique[..k + 1] == unique[..k] + [val];
      assert Items(unique[..k + 1]) == Items(unique[..k]) + [Item(val)];
      entries := entries + [Item(val)];
      if current == Some(val) {
        selected := Some(val);
      }
    }
    assert unique[..|unique|] == unique;
    d := Dropdown(entries, selected);
  }

  /** `updateDropdowns`: every dropdown rebuilt from the records that pass
      all four current selections, its own included. */
  function NarrowedMenus(data: seq<Record>, sel: Selections): Menus
  {
    var n := Narrowed(data, sel);
    Menus(
      Repopulated(sel.totalSqft, Column(n, SqftOf)),
      Repopulated(sel.bedrooms, Column(n, BedroomsOf)),
      Repopulated(sel.bathrooms, Column(n, BathroomsOf)),
      Repopulated(sel.location, Column(n, LocationOf)))
  }

  method UpdateDropdowns(data: seq<Record>, sel: Selections) returns (m: Menus)
    ensures m == NarrowedMenus(data, sel)
  {
    var filtered := ApplySelections(data, sel);
    var sqft := PopulateFilteredOptions(sel.totalSqft, Column(filtered, SqftOf));
    var bedrooms := PopulateFilteredOptions(sel.bedrooms, Column(filtered, BedroomsOf));
    var bathrooms := PopulateFilteredOptions(sel.bathrooms, Column(filtered, BathroomsOf));
    var location := PopulateFilteredOptions(sel.location, Column(filtered, LocationOf));
    m := Menus(sqft, bedrooms, bathrooms, location);
  }

  /** `form.reset()` on the dropdowns: no option carries a default
      selection, so each falls back to its first entry, "All". */
  function Cleared(m: Menus): Menus
  {
    Menus(m.sqft.(selected := None), m.bedrooms.(selected := None),
          m.bathrooms.(selected := None), m.location.(selected := None))
  }

  /** The dropdowns right after `populateFilters(data)` on the page's own
      lists. */
  function Loaded(data: seq<Record>): Menus
  {
    Populated(InitialMenus, data)
  }

  /** The dropdowns after `resetFilters` as written: `form.reset()` selects
      "All" everywhere, then `populateFilters` appends the full lists behind
      whatever options the selects still hold. */
  function ResetMenusAsWritten(m: Menus, data: seq<Record>): Menus
  {
    Populated(Cleared(m), data)
  }

  /** The dropdowns after `resetFilters` as its comment intends ("reset
      dropdowns"): every select is first emptied back to its single "All"
      option, as `populateFilteredOptions` does, and then populated, so
      nothing the dropdowns held before survives. */
  function ResetMenus(m: Menus, data: seq<Record>): Menus
  {
    Populated(Menus(Blank(), Blank(), Blank(), Blank()), data)
  }
}
