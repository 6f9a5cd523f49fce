/** The property record and the filter criteria read from the form. */
module Listing {
  import opened Wrappers

  /** One listing. `total_sqft`, `bedrooms`, `bathrooms` and `price` are
      held as integers: the canonical type both sides of the page's loose
      `==` comparisons are brought to. */
  datatype Record = Record(
    location: string,
    society: Option<string>,
    price: int,
    totalSqft: int,
    bedrooms: int,
    bathrooms: int)

  function PriceOf(r: Record): int { r.price }
  function SqftOf(r: Record): int { r.totalSqft }
  function BedroomsOf(r: Record): int { r.bedrooms }
  function BathroomsOf(r: Record): int { r.bathrooms }
  function LocationOf(r: Record): string { r.location }

  /** The values of the four dropdowns; `None` is the "All" entry, whose
      value is the empty string. */
  datatype Selections = Selections(
    totalSqft: Option<int>,
    bedrooms: Option<int>,
    bathrooms: Option<int>,
    location: Option<string>)

  const NoSelections := Selections(None, None, None, None)

  /** One exact-match filter each; a dropdown on "All" filters nothing. The
      numeric options have non-empty values (even "0"), so only "All" turns
      their filters off. */
  predicate SqftSelected(sel: Selections, r: Record)
  {
    sel.totalSqft.None? || r.totalSqft == sel.totalSqft.value
  }

  predicate BedroomsSelected(sel: Selections, r: Record)
  {
    sel.bedrooms.None? || r.bedrooms == sel.bedrooms.value
  }

  predicate BathroomsSelected(sel: Selections, r: Record)
  {
    sel.bathrooms.None? || r.bathrooms == sel.bathrooms.value
  }

  /** `if (location)`: the location filter applies only when the select's
      value is a non-empty string. An option for a listing whose location is
      empty has the value "" too, so choosing it filters nothing, like "All". */
  predicate LocationActive(sel: Selections)
  {
    sel.location.Some? && sel.location.value != []
  }

  predicate LocationSelected(sel: Selections, r: Record)
  {
    !LocationActive(sel) || r.location == sel.location.value
  }

  /** The record passes every active exact-match filter. */
  predicate Selected(sel: Selections, r: Record)
  {
    SqftSelected(sel, r) && BedroomsSelected(sel, r) &&
    BathroomsSelected(sel, r) && LocationSelected(sel, r)
  }

  /** Everything `filterProperties` reads from the form. `minPrice` and
      `maxPrice` are the results of `parseFloat` on the two number inputs
      (`None` when it gives NaN); `searchText` is the raw search input. */
  datatype Criteria = Criteria(
    selections: Selections,
    minPrice: Option<int>,
    maxPrice: Option<int>,
    sortPrice: string,
    searchText: string)
}
