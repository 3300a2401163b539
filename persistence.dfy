/** The session-storage entry that carries a wizard's answers across reloads. */
module Persistence {
  import opened FormValues

  /** The string stored under the wizard's key: the empty string a final submit
      writes, or the JSON text of a value object. */
  datatype Blob = Empty | Json(fields: Values)

  type Store = map<string, Blob>

  /** JSON text has no NaN: it is written as null; every other value keeps its shape. */
  function JsonValue(v: Value): (r: Value)
    ensures v != NaN ==> r == v
    ensures r != NaN
  {
    if v.NaN? then Null else v
  }

  /** The JSON text of a value object, field by field. */
  function Stringify(values: Values): (b: Blob)
    ensures b.Json? && b.fields.Keys == values.Keys
    ensures forall k :: k in values ==> b.fields[k] == JsonValue(values[k])
  {
    Json(map k | k in values :: JsonValue(values[k]))
  }

  predicate NoNaN(values: Values) {
    forall k :: k in values ==> values[k] != NaN
  }

  /** The object parsed from the entry under `key`, when that entry is a non-empty string:
      a missing key and the empty string both give nothing. */
  function LoadCached(store: Store, key: string): (r: Option<Values>)
    ensures r.Some? <==> key in store && store[key] != Empty
    ensures r.Some? ==> Json(r.value) == store[key]
  {
    if key in store && store[key].Json? then Some(store[key].fields) else None
  }

  /** What is saved is what is loaded, for a value object without `NaN`. */
  lemma LoadAfterSave(store: Store, key: string, values: Values)
    requires NoNaN(values)
    ensures LoadCached(store[key := Stringify(values)], key) == Some(values)
  {
    assert Stringify(values).fields == values;
  }

  /** After the empty string is written, nothing is loaded. */
  lemma LoadAfterClear(store: Store, key: string)
    ensures LoadCached(store[key := Empty], key) == None
  {
  }
}
