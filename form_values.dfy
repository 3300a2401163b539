/** The JavaScript values a wizard's form object can hold, and JavaScript truthiness. */
module FormValues {

  datatype Option<T> = None | Some(value: T)

  /** A value stored under one field of a form's value object. `NaN` arises from
      arithmetic on a price that is not a number; `Obj` stands for any object or
      array, whose contents the wizard never inspects. */
  datatype Value = Str(s: string) | Num(n: real) | Bool(b: bool) | Null | NaN | Obj

  /** A form's value object: field name to value. A missing key reads as undefined
      (names inherited from the object prototype are not modelled). */
  type Values = map<string, Value>

  /** JavaScript truthiness: `''`, `0`, `false`, `null` and `NaN` are falsy. */
  predicate Truthy(v: Value) {
    match v
    case Str(s) => s != ""
    case Num(n) => n != 0.0
    case Bool(b) => b
    case Null => false
    case NaN => false
    case Obj => true
  }

  /** The field holds a truthy value; an absent field reads as undefined, which is falsy. */
  predicate FieldTruthy(values: Values, field: string) {
    field in values && Truthy(values[field])
  }
}
