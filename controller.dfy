/** The page: the loaded dataset and the state of the form controls and the
    property grid, with the event handlers that read and write them. */
module Controller {
  import opened Wrappers
  import opened Text
  import opened Listing
  import opened FilterEngine
  import opened OptionDeriver
  import opened RangeCalibrator
  import opened Renderer
  import opened Seqs
  import OptionLaws

  class Page {
    /** `window.propertyData`. */
    var data: seq<Record>
    /** The four dependent dropdowns. */
    var menus: Menus
    /** The `min_price` and `max_price` inputs. */
    var prices: PriceInputs
    /** The value of the `sort_price` select. */
    var sortPrice: string
    /** The raw value of the search input. */
    var searchText: string
    /** The contents of `propertyGrid`. */
    var grid: Grid
    /** The option the `sort_price` select starts with. */
    const defaultSort: string

    /** The criteria `filterProperties` reads off the controls. */
    function CurrentCriteria(): Criteria
      reads this
    {
      Criteria(SelectionsOf(menus), prices.minInput.value, prices.maxInput.value, sortPrice, searchText)
    }

    /** The page before the dataset arrives: no records, every dropdown at
        its single "All", empty price inputs and an empty grid. */
    constructor (defaultSort: string)
      ensures data == [] && menus == InitialMenus && prices == PriceInputs(Unset, Unset)
      ensures sortPrice == defaultSort && searchText == [] && grid == Cards([])
      ensures this.defaultSort == defaultSort
    {
      data := [];
      menus := InitialMenus;
      prices := PriceInputs(Unset, Unset);
      sortPrice := defaultSort;
      searchText := [];
      grid := Cards([]);
      this.defaultSort := defaultSort;
    }

    /** The `DOMContentLoaded` handler once the dataset `d` has been fetched:
        store it, calibrate the price inputs, populate the dropdowns and
        show every record. */
    method Load(d: seq<Record>)
      modifies this
      ensures data == d && prices == Calibration(d)
      ensures menus == Populated(old(menus), d)
      ensures grid == Displayed(d, [])
      ensures sortPrice == old(sortPrice) && searchText == old(searchText)
    {
      var populated := PopulateFilters(menus, d);
      var shown := DisplayProperties(d, []);
      data, prices, menus, grid := d, Calibration(d), populated, shown;
    }

    /** `filterProperties`: only the grid changes, and it shows the query
        result for the current controls, highlighted by the search text. */
    method FilterProperties()
      modifies this`grid
      ensures grid == Displayed(Query(data, CurrentCriteria()), Lower(searchText))
    {
      var result := FilterEngine.FilterProperties(data, CurrentCriteria());
      grid := DisplayProperties(result, Lower(searchText));
    }

    /** The search input's `input` event. */
    method SearchInput(text: string)
      modifies this`searchText, this`grid
      ensures searchText == text
      ensures grid == Displayed(Query(data, CurrentCriteria()), Lower(text))
    {
      searchText := text;
      FilterProperties();
    }

    /** `updateDropdowns`: only the dropdowns change, each rebuilt from the
        records that pass the current selections. */
    method UpdateDropdowns()
      modifies this`menus
      ensures menus == NarrowedMenus(data, SelectionsOf(old(menus)))
    {
      menus := OptionDeriver.UpdateDropdowns(data, SelectionsOf(menus));
    }

    /** A dropdown's `change` event, after the user picked `sel`'s values
        from the options on offer. */
    method ChangeSelection(sel: Selections)
      modifies this`menus
      ensures menus == NarrowedMenus(data, sel)
    {
      menus := menus.(sqft := menus.sqft.(selected := sel.totalSqft),
                      bedrooms := menus.bedrooms.(selected := sel.bedrooms),
                      bathrooms := menus.bathrooms.(selected := sel.bathrooms),
                      location := menus.location.(selected := sel.location));
      UpdateDropdowns();
    }

    /** `resetFilters` as written: the form's controls return to their
        defaults, the prices are recalibrated, the full option lists are
        appended to the dropdowns and every record is shown. */
    method ResetAsWritten()
      modifies this
      ensures data == old(data) && prices == Calibration(data)
      ensures menus == ResetMenusAsWritten(old(menus), data)
      ensures sortPrice == defaultSort && searchText == []
      ensures grid == Displayed(data, [])
    {
      menus := Cleared(menus);
      sortPrice, searchText := defaultSort, [];
      prices := Calibration(data);
      menus := PopulateFilters(menus, data);
      grid := DisplayProperties(data, []);
    }

    /** `resetFilters` with the dropdowns rebuilt rather than appended to. */
    method Reset()
      modifies this
      ensures data == old(data) && prices == Calibration(data)
      ensures menus == ResetMenus(old(menus), data)
      ensures sortPrice == defaultSort && searchText == []
      ensures grid == Displayed(data, [])
    {
      menus := Menus(Blank(), Blank(), Blank(), Blank());
      sortPrice, searchText := defaultSort, [];
      prices := Calibration(data);
      menus := PopulateFilters(menus, data);
      grid := DisplayProperties(data, []);
    }
  }

  /** Load any dataset, narrow by any selections, press the corrected
      reset: the page is back to its state right after load, each dropdown
      listing each value once and every record shown. */
  method LoadNarrowReset(d: seq<Record>, sel: Selections)
  {
    var page := new Page("high");
    page.Load(d);
    page.ChangeSelection(sel);
    page.Reset();
    OptionLaws.ResetMenusRestoresLoad(page.menus, d);
    assert page.menus == Loaded(d) && SelectionsOf(page.menus) == NoSelections;
    assert NoDuplicates(page.menus.location.entries) && NoDuplicates(page.menus.sqft.entries);
    assert page.grid == Displayed(d, []) && page.prices == Calibration(d);
  }

  /** Load a non-empty dataset and press the reset as written: every
      dropdown now lists its values twice. */
  method LoadResetAsWritten(d: seq<Record>)
    requires d != []
  {
    var page := new Page("high");
    page.Load(d);
    page.ResetAsWritten();
    OptionLaws.ResetAsWrittenDuplicates(d);
    assert !NoDuplicates(page.menus.location.entries) && !NoDuplicates(page.menus.sqft.entries);
  }
}
