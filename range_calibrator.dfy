/** `setPriceRange`: the two number inputs are set to the cheapest and the
    dearest price of the dataset, and both get those as their bounds. */
module RangeCalibrator {
  import opened Wrappers
  import opened Seqs
  import opened Sorting
  import opened Listing
  import opened FilterEngine

  /** `Math.min(...ps)` of a non-empty list. */
  function MinOf(ps: seq<int>): (m: int)
    requires ps != []
    ensures m in ps
    ensures forall p | p in ps :: m <= p
  {
    if |ps| == 1 then ps[0]
    else
      var rest := MinOf(ps[1..]);
      assert ps == [ps[0]] + ps[1..];
      if ps[0] <= rest then ps[0] else rest
  }

  /** `Math.max(...ps)` of a non-empty list. */
  function MaxOf(ps: seq<int>): (m: int)
    requires ps != []
    ensures m in ps
    ensures forall p | p in ps :: p <= m
  {
    if |ps| == 1 then ps[0]
    else
      var rest := MaxOf(ps[1..]);
      assert ps == [ps[0]] + ps[1..];
      if ps[0] >= rest then ps[0] else rest
  }

  /** An `<input type="number">`: its value as `parseFloat` reads it, and
      its `min` and `max` attributes. */
  datatype NumberInput = NumberInput(value: Option<int>, min: Option<int>, max: Option<int>)

  /** The `min_price` and `max_price` inputs. */
  datatype PriceInputs = PriceInputs(minInput: NumberInput, maxInput: NumberInput)

  /** What `setPriceRange(data)` writes. */
  function Calibrated(data: seq<Record>): (r: PriceInputs)
    requires data != []
    ensures r.minInput.min == r.maxInput.min && r.minInput.max == r.maxInput.max
    ensures r.minInput.value == r.minInput.min && r.maxInput.value == r.maxInput.max
    ensures r.minInput.min.Some? && r.minInput.max.Some?
    ensures forall p | p in data :: r.minInput.min.value <= p.price <= r.minInput.max.value
    ensures exists p :: p in data && p.price == r.minInput.min.value
    ensures exists p :: p in data && p.price == r.minInput.max.value
  {
    var prices := Column(data, PriceOf);
    ColumnMembers(data, PriceOf);
    assert forall p | p in data :: p.price in prices by {
      forall p | p in data ensures p.price in prices {
        assert PriceOf(p) == p.price;
      }
    }
    var lo, hi := MinOf(prices), MaxOf(prices);
    PriceInputs(NumberInput(Some(lo), Some(lo), Some(hi)), NumberInput(Some(hi), Some(lo), Some(hi)))
  }

  /** A number input left empty. */
  const Unset := NumberInput(None, None, None)

  /** `setPriceRange(data)` on any dataset. With no records `Math.min()` is
      `Infinity`, which a number input does not accept as a value or a
      bound, so both inputs end up empty. */
  function Calibration(data: seq<Record>): PriceInputs
  {
    if data == [] then PriceInputs(Unset, Unset) else Calibrated(data)
  }

  /** Right after calibration, with no dropdown set and no search text,
      `filterProperties` shows every record: the calibrated bounds contain
      every price, and a zero bound read as "unset" only widens the range. */
  lemma CalibratedQueryShowsAll(data: seq<Record>, sortPrice: string)
    requires data != []
    ensures var inputs := Calibrated(data);
      Query(data, Criteria(NoSelections, inputs.minInput.value, inputs.maxInput.value, sortPrice, ""))
      == SortBy(data, PriceOf, sortPrice == "low")
  {
    var inputs := Calibrated(data);
    var c := Criteria(NoSelections, inputs.minInput.value, inputs.maxInput.value, sortPrice, "");
    forall r | r in data ensures Matches(c, r) {
      assert InPriceRange(c, r);
    }
    WhereAll(data, r => Matches(c, r));
  }
}
