/** The one reshaping the wizard applies to its values: the `price` field is held
    in minor units (cents) outside the wizard and in major units inside it. */
module PriceCodec {
  import opened FormValues

  const PriceField := "price"

  /** JavaScript multiplication by `k` for the truthy values the wizard can meet: a number is
      scaled, `true` counts as 1, anything else (a string, an object) gives `NaN`. */
  function Scale(v: Value, k: real): (r: Value)
    ensures v.Num? ==> r == Num(v.n * k)
    ensures !v.Num? && !v.Bool? ==> r == NaN
  {
    if v.Num? then Num(v.n * k)
    else if v.Bool? then Num(if v.b then k else 0.0)
    else NaN
  }

  /** Whether the codec touches `values` at all: the price field holds a truthy value. */
  predicate HasPrice(values: Values) {
    FieldTruthy(values, PriceField)
  }

  /** The load-time conversion: a copy with the price divided by 100 when the price
      is truthy, the value object itself otherwise. */
  function ToDisplay(values: Values): (r: Values)
    ensures r.Keys == values.Keys
    ensures forall k :: k in values && k != PriceField ==> r[k] == values[k]
    ensures !HasPrice(values) ==> r == values
    ensures HasPrice(values) && values[PriceField].Num? ==>
              r[PriceField] == Num(values[PriceField].n / 100.0)
  {
    if HasPrice(values) then values[PriceField := Scale(values[PriceField], 1.0 / 100.0)]
    else values
  }

  /** The final-submit conversion: a copy with the price multiplied by 100 when the
      price is truthy, the value object itself otherwise. */
  function ToStorage(values: Values): (r: Values)
    ensures r.Keys == values.Keys
    ensures forall k :: k in values && k != PriceField ==> r[k] == values[k]
    ensures !HasPrice(values) ==> r == values
    ensures HasPrice(values) && values[PriceField].Num? ==>
              r[PriceField] == Num(values[PriceField].n * 100.0)
  {
    if HasPrice(values) then values[PriceField := Scale(values[PriceField], 100.0)]
    else values
  }

  /** A price that is absent or numeric survives the way in and out unchanged. */
  predicate NumericOrNoPrice(values: Values) {
    PriceField !in values || values[PriceField].Num?
  }

  lemma StorageUndoesDisplay(values: Values)
    requires NumericOrNoPrice(values)
    ensures ToStorage(ToDisplay(values)) == values
  {
    if HasPrice(values) {
      var n := values[PriceField].n;
      assert ToDisplay(values)[PriceField] == Num(n / 100.0);
      assert n / 100.0 * 100.0 == n;
      assert ToStorage(ToDisplay(values))[PriceField] == values[PriceField];
    }
  }

  lemma DisplayUndoesStorage(values: Values)
    requires NumericOrNoPrice(values)
    ensures ToDisplay(ToStorage(values)) == values
  {
    if HasPrice(values) {
      var n := values[PriceField].n;
      assert ToStorage(values)[PriceField] == Num(n * 100.0);
      assert n * 100.0 / 100.0 == n;
      assert ToDisplay(ToStorage(values))[PriceField] == values[PriceField];
    }
  }

  /** A final submit of `{price: 500}` hands `{price: 50000}` to the completion callback. */
  lemma FinalPriceExample()
    ensures ToStorage(map[PriceField := Num(500.0)]) == map[PriceField := Num(50000.0)]
  {
  }
}
