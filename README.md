# Property listing query pipeline, verified in Dafny

This project models the client-side logic of a property listing page
(`script.js`). The page loads a dataset of listings once. It calibrates two
price inputs to the cheapest and the dearest listing, and fills four
dropdowns: `total_sqft`, `bedrooms`, `bathrooms` and `location`. It then
shows the listings that match the current filter criteria:

- four optional exact-match dropdowns;
- an inclusive price range whose bounds fall back to 0 and 999999;
- a case-insensitive search over location and society;
- a price sort, ascending for `'low'` and descending otherwise.

Changing a dropdown narrows all four dropdowns to the values of the
matching listings. Search hits are highlighted in the cards.

Modules, one concern each:

- `Wrappers`: `Option`.
- `Text`: ASCII lower-casing and substring search.
- `Seqs`: order-preserving filter (`Where`), column projection, and the
  order-preserving dedup that `[...new Set(xs)]` performs (`Distinct`).
- `Sorting`: the stable sort `filtered.sort(...)`. `SortBy` is an insertion
  sort used as the specification. `SortInPlace` sorts an array in place and
  is proved to produce `SortBy`.
- `Listing`: the listing record and the dropdown selections.
- `FilterEngine`: `filterProperties` as a method that reassigns `filtered`
  stage by stage. The staged result is proved equal to the specification
  `Query`: one conjunctive filter followed by the price sort.
- `FilterLaws`: what the query result promises.
- `OptionDeriver`: the option lists of `populateFilters`, and
  `updateDropdowns` / `populateFilteredOptions`. `OptionLaws` states what
  those lists promise.
- `RangeCalibrator`: `setPriceRange`.
- `Highlight`: `highlightText`. Its output is a sequence of plain characters
  and marked matches, which `Render` spells out as `<span class="highlight">`
  markup.
- `Renderer`: `displayProperties`, which shows the cards or the
  "No properties found." placeholder.
- `Controller`: the page as a class. Its fields are the dataset and the
  state of the form controls and the grid. Its methods are the event
  handlers.

The dataset is a `seq`, so no operation on it can change it. The controller's
`FilterProperties` and `UpdateDropdowns` may modify only the grid and only
the dropdowns, respectively.

`Controller.LoadNarrowReset` and `Controller.LoadResetAsWritten` are client
methods that drive a `Page` through a load, a narrowing and a reset, and
assert what the page then holds. `LoadNarrowReset` takes any dataset and any
selections; `LoadResetAsWritten` takes any non-empty dataset.

## Model

| member | source | states |
|---|---|---|
| Text.LowerChar | script.js:103 | `toLowerCase` on one ASCII character: each of `A`-`Z` becomes the letter 32 code points above it, every other character is kept, and the result is never upper case |
| Text.ContainsLower | script.js:114-115 | the lower-cased text contains the lower-cased query exactly when some window of the text equals the query with case ignored |
| Seqs.Where | script.js:105-117 | a filtered list is no longer than its input and holds exactly the input's elements that pass the predicate |
| Seqs.WhereCount | script.js:105-117 | filtering keeps each passing element as often as it occurs and drops every other |
| Seqs.Distinct | script.js:45-52 | the dedup of a list has no duplicates and holds exactly the list's values |
| Seqs.DistinctFirstOccurrenceOrder | script.js:45-52 | the dedup lists values in the order of their first occurrence |
| Sorting.SortByOrders | script.js:119-120 | the sort result is ordered by the key: non-decreasing when ascending, non-increasing otherwise |
| Sorting.SortByPermutation | script.js:119-120 | the sort result is a permutation of its input |
| Sorting.SortByKeepsOrdered | script.js:119-120 | an input that is already ordered comes back unchanged |
| Sorting.InsertStable | script.js:119-120 | inserting `x` keeps the elements that share any one key in the order they have in the list followed by `x` |
| Sorting.SortByStable | script.js:119-120 | the sort is stable: the elements that share any one key come out in their input order |
| Sorting.InsertOrdered | script.js:119-120 | inserting into an ordered list keeps it ordered |
| Sorting.InsertAt | script.js:119-120 | one step of the in-place sort moves `a[i]` to its place in the sorted prefix and leaves the rest of the array alone |
| Sorting.SortInPlace | script.js:119-120 | sorting the array in place leaves exactly the stable sort of its old contents |
| FilterEngine.ApplySelections | script.js:105-108 | the four guarded `filter` steps leave exactly the records that pass every dropdown that is not on "All"; an empty location value counts as "All", as the truthiness guard `if(location)` treats it |
| FilterEngine.FilterProperties | script.js:94-120 | the stage-by-stage filtering and the sort give the specification `Query` |
| FilterEngine.SortByPrice | script.js:119-120 | copying to an array and sorting in place by price gives the stable price sort |
| FilterLaws.QueryCounts | script.js:105-117 | each passing record appears as often as in the dataset and no other appears: a sub-multiset of the data |
| FilterLaws.QueryMembers | script.js:105-117 | a record is in the result exactly when it is in the dataset and passes every active filter |
| FilterLaws.QueryExactMatch | script.js:105-108 | a dropdown not on "All" filters by its value, the location only when that value is non-empty; with all four on "All" only price and search decide |
| FilterLaws.EmptyLocationIsAll | script.js:108 | a selected empty location gives the same result as "All" |
| FilterLaws.QueryPriceRange | script.js:100-110 | results lie within both inclusive bounds; a missing or zero minimum means 0 and a missing or zero maximum means 999999 |
| FilterLaws.QuerySearch | script.js:103-117 | with search text, every result's lower-cased location or present society contains it; empty search text removes nothing |
| FilterLaws.QuerySorted | script.js:119-120 | the result is by non-decreasing price for `'low'` and by non-increasing price for anything else |
| FilterLaws.QueryStable | script.js:105-120 | listings of equal price appear in dataset order: restricted to one price, the result is the matching records in dataset order |
| FilterLaws.QueryIdempotent | script.js:93-123 | filtering the result again with the same criteria changes nothing |
| FilterLaws.DefaultQuery | script.js:100-120 | an untouched form shows every record within the fallback bounds, dearest first |
| FilterLaws.ScenarioSortLow | script.js:119 | the prices 50 and 120 sorted `'low'` list the cheaper first |
| FilterLaws.ScenarioPriceWindow | script.js:110 | the window [60, 200] keeps only the listing at 120 |
| FilterLaws.ScenarioSearch | script.js:112-117 | searching "white" keeps only Whitefield under any window that admits it |
| OptionDeriver.AppendOptions | script.js:43-52 | appending options keeps the existing ones and adds one per value, in order |
| OptionDeriver.PopulateFilters | script.js:36-53 | each dropdown gets its field's distinct values appended; the `total_sqft` values are sorted |
| OptionDeriver.PopulateFilteredOptions | script.js:81-90 | a rebuilt dropdown is "All" followed by the distinct values; the old value stays selected exactly when it is among them |
| OptionDeriver.UpdateDropdowns | script.js:62-79 | all four dropdowns are rebuilt from the records that pass the current selections |
| OptionLaws.SqftChoicesSorted | script.js:42 | the `total_sqft` list strictly ascends and holds exactly the values in the data |
| OptionLaws.OtherChoicesDistinct | script.js:45-52 | the other three lists have no duplicates, hold exactly the values in the data, and follow first-occurrence order |
| OptionLaws.RepopulatedShape | script.js:83-89 | "All" comes first, nothing is listed twice, exactly the given values are offered, and the old value stays selected exactly when it is offered |
| OptionLaws.NarrowedMenusShape | script.js:62-90 | each narrowed dropdown starts with "All", offers exactly the values of the records that pass all four selections, and keeps its old value selected exactly when that value is offered |
| OptionLaws.NarrowingMonotone | script.js:70-78 | a narrowed dropdown offers no value that the full dataset's list lacks |
| OptionLaws.LoadedShape | script.js:36-53 | right after load every dropdown is a selected "All" followed by its values, each listed once |
| OptionLaws.ResetAsWrittenDuplicates | script.js:163-166 | the reset as written, pressed right after loading a non-empty dataset, leaves each of the four dropdowns holding "All" followed by its full value list twice, with "All" selected, so every dropdown repeats a value |
| OptionLaws.RepopulatedAsWrittenAgrees | script.js:81-90 | the rebuild as written, with its loose `==`, agrees with the corrected rebuild exactly when a value was selected or the value that `==` equates with "All" is not offered |
| OptionLaws.RepopulatedAsWrittenSelectsZero | script.js:87 | with "All" selected and the values 2 and 0, the rebuild as written selects 0, while the corrected rebuild keeps "All" and still offers 0 |
| OptionLaws.ResetMenusRestoresLoad | script.js:163-166 | the corrected reset restores the dropdowns of the loaded page, with no repeats and "All" selected |
| RangeCalibrator.MinOf | script.js:23 | the minimum of a non-empty list is one of its values and at most every value |
| RangeCalibrator.MaxOf | script.js:24 | the maximum of a non-empty list is one of its values and at least every value |
| RangeCalibrator.Calibrated | script.js:18-33 | both inputs get the same bounds; the minimum input shows the lower bound and the maximum input the upper; both bounds are prices in the data and enclose every price |
| RangeCalibrator.CalibratedQueryShowsAll | script.js:23-32 | after calibration, with no other criteria, the query shows every record, sorted |
| Highlight.Highlighted | script.js:157-160 | removing the markers gives back the text exactly, and every marked piece equals the search text with case ignored |
| Highlight.MarkedOccurs | script.js:158-159 | every highlight stands for a case-insensitive occurrence |
| Highlight.OccursMarked | script.js:158-159 | if the text has some case-insensitive occurrence, at least one piece is highlighted |
| Highlight.HighlightedPlaced | script.js:158-159 | each piece is a highlight exactly when a case-insensitive match starts at its position in the text: the leftmost non-overlapping occurrences, all of them, as the `g` flag replaces them |
| Highlight.HighlightedMarksIffContains | script.js:157-160 | something is highlighted exactly when the lower-cased text contains the lower-cased search text |
| Highlight.HighlightNoOccurrence | script.js:157-160 | a text without an occurrence comes back unchanged |
| Highlight.HighlightWhitefield | script.js:157-160 | searching "white" in "Whitefield" wraps "White", in its own case, in the highlight span |
| Renderer.SocietyLabel | script.js:140 | a present non-empty society is shown as is; a missing society and an empty one both show "N/A" |
| Renderer.VerbatimPlain | script.js:139-140 | text shown without search carries no highlight and reads as itself |
| Renderer.Shown | script.js:139-140 | without search text the line is the text itself; with it, its markup-free reading is the text and every mark matches the search |
| Renderer.CardFor | script.js:139-140 | a card shows its record; its location and society lines read as the record's location and society label |
| Renderer.Displayed | script.js:130-133 | the placeholder is shown exactly when there are no records |
| Renderer.DisplayProperties | script.js:126-154 | the loop builds exactly the grid `Displayed` describes |
| Renderer.DisplayedCards | script.js:135-153 | one card per record, in order, each reading as its record |
| Renderer.DisplayedPlain | script.js:139-140 | without search text no card highlights anything |
| Renderer.DisplayedHighlights | script.js:139-140 | with search text, a card's line is highlighted exactly when it contains the text, case ignored |
| Controller.Page.Load | script.js:4-10 | loading stores the dataset, calibrates the prices, populates the dropdowns and shows every record |
| Controller.Page.FilterProperties | script.js:93-123 | only the grid changes; it shows the query result for the current controls |
| Controller.Page.SearchInput | script.js:14 | typing into the search input stores the text and refilters |
| Controller.Page.UpdateDropdowns | script.js:62-79 | only the dropdowns change; each is rebuilt from the records that pass the current selections |
| Controller.Page.ChangeSelection | script.js:56-60 | a dropdown change narrows all four dropdowns by the chosen values |
| Controller.Page.ResetAsWritten | script.js:163-168 | the reset as written: controls back to their defaults, prices recalibrated, full lists appended, every record shown |
| Controller.Page.Reset | script.js:163-168 | the corrected reset: like the one above, but the dropdowns are rebuilt instead of appended to |

## Left out

- Loading the dataset (script.js:2-12) is I/O: `fetch`, JSON parsing and the `.catch` logging. The dataset is the argument of `Controller.Page.Load`.
- Registering event listeners (script.js:14, 56-60) is not modelled. The handlers they call are methods of `Controller.Page`.
- The DOM is not modelled. Selects, number inputs and the grid are values (`Dropdown`, `NumberInput`, `Grid`), and only the values the code reads and writes are kept.
- Prices and numeric fields are integers. `parseFloat` is modelled as its outcome: `None` when parsing fails. Fractional prices, `Math.floor`/`Math.ceil` and NaN are left out; on integers the floor and ceiling are the identity.
- `Math.min()` of an empty list is `Infinity`. `RangeCalibrator.Calibration` assumes the browser then empties both number inputs. `RangeCalibrator.Calibrated` requires a non-empty dataset.
- `highlightText` builds a regular expression from the raw search text. The model matches the text literally, leftmost first and without overlap. Regular expression metacharacters in the search text behave differently in the page.
- Lower-casing covers ASCII only. Unicode and locale case folding are left out.
- The card markup (script.js:142-151) is left out. A card keeps its record plus the highlighted location and society lines. Image, area type, balcony and availability are not part of the record.
- The page's HTML is not part of this model. The model assumes:
  - every select starts with a single "All" option;
  - the search input and the sort select belong to the form that `resetFilters` resets;
  - the sort select's initial value is a constructor argument.
- JavaScript's loose `==` between option strings and numbers is modelled as equality on one canonical type per field. A selected `"0"` option is a non-empty string, so its guard is on and it filters by 0, as in the model. The one place where the loose `==` meets the empty "All" value, script.js:87, is a finding below.
- An empty location value is the one falsy selection a dropdown can hold besides "All". The model's location guard `LocationActive` treats it as "All", as script.js:73 and 108 do.
- Narrowing filters by all four current selections, the field's own included (script.js:70-73), not only by the other three.
- A dropdown change triggers only `updateDropdowns` (script.js:58). The model does not refilter the grid on that event.

## Findings

| source | as written | input that shows it | evidently intended | confidence | as-written member | corrected member |
|---|---|---|---|---|---|---|
| script.js:163-166 | `resetFilters` calls `form.reset()` and then `populateFilters`, which appends every value behind the options the dropdowns already hold | load any non-empty dataset, then reset: each dropdown lists every value twice | the dropdowns return to their state right after load ("reset dropdowns") | not executed | OptionLaws.ResetAsWrittenDuplicates | OptionLaws.ResetMenusRestoresLoad |
| script.js:87 | `val == currentValue` is loose equality; with "All" selected `currentValue` is `""`, and `0 == ""` (like `"" == ""`) holds, so the option 0, or an empty location, gets selected | narrow while `bathrooms` is on "All" and the matching records have bathrooms 2 and 0: the rebuilt dropdown selects 0 | a dropdown on "All" stays on "All" | not executed | OptionLaws.RepopulatedAsWrittenSelectsZero | OptionLaws.RepopulatedShape |
