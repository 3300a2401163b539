/** The render-time reconciliation of the wizard's own values with the caller's
    `initialValues`: caller defaults fill fields the user left empty, and never
    overwrite anything else. */
module ValueMerge {
  import opened FormValues

  /** The tie-break for a field present on both sides: the caller's value when it is
      truthy and the wizard's value is the empty string, the wizard's value otherwise. */
  function PreferFilled(stateValue: Value, propsValue: Value): Value {
    if Truthy(propsValue) && stateValue == Str("") then propsValue else stateValue
  }

  /** The key-wise merge of the two objects, resolving shared keys with `PreferFilled`. */
  function MergeWith(state: Values, props: Values): (r: Values)
    ensures r.Keys == state.Keys + props.Keys
    ensures forall k :: k !in state && k in props ==> r[k] == props[k]
    ensures forall k :: k in state && state[k] != Str("") ==> r[k] == state[k]
    ensures forall k :: k in state && state[k] == Str("") && k in props && Truthy(props[k]) ==>
              r[k] == props[k]
    ensures forall k :: k in state && state[k] == Str("") && (k !in props || !Truthy(props[k])) ==>
              r[k] == Str("")
  {
    map k | k in state.Keys + props.Keys ::
      if k in state && k in props then PreferFilled(state[k], props[k])
      else if k in state then state[k]
      else props[k]
  }

  /** When the user left no field empty, the merge is a plain union in which the
      wizard's values win: `Object.assign({}, props, state)`. */
  lemma MergeWithoutGaps(state: Values, props: Values)
    requires forall k :: k in state ==> state[k] != Str("")
    ensures MergeWith(state, props) == props + state
  {
  }

  /** Merging the same defaults twice changes nothing more. */
  lemma MergeIdempotent(state: Values, props: Values)
    ensures MergeWith(MergeWith(state, props), props) == MergeWith(state, props)
  {
    var once := MergeWith(state, props);
    var twice := MergeWith(once, props);
    forall k | k in twice
      ensures twice[k] == once[k]
    {
      if k in state && state[k] == Str("") && k in props && Truthy(props[k]) {
        assert once[k] == props[k] && props[k] != Str("");
      }
    }
  }

  /** An empty `name` is filled from the caller: `""` against `"Alice"` gives `"Alice"`. */
  lemma FillsEmptyField(state: Values, props: Values)
    requires "name" in state && state["name"] == Str("")
    requires "name" in props && props["name"] == Str("Alice")
    ensures MergeWith(state, props)["name"] == Str("Alice")
  {
  }

  /** A filled `name` is kept: `"Bob"` against anything gives `"Bob"`. */
  lemma KeepsFilledField(state: Values, props: Values)
    requires "name" in state && state["name"] == Str("Bob")
    ensures MergeWith(state, props)["name"] == Str("Bob")
  {
  }
}
