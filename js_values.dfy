/** JavaScript values as far as the component's comparisons can tell them apart,
    and the lookups it performs on plain objects used as maps. */
module JsValues {

  datatype Option<T> = None | Some(value: T)

  /** A JavaScript value. Numbers are integers; `NaN` is kept apart because it is
      the one value that is not `===` to itself. Objects are known by identity. */
  datatype Value =
    | Undefined
    | Null
    | Boolean(b: bool)
    | Number(n: int)
    | NaN
    | Str(s: string)
    | Object(id: nat)

  /** JavaScript's `===` on the values above. */
  predicate StrictEquals(a: Value, b: Value)
  {
    a == b && !a.NaN?
  }

  /** Reading `obj[key]` on a plain object: a key it does not hold reads as `undefined`. */
  function Lookup(m: map<string, Value>, key: string): (v: Value)
  {
    if key in m then m[key] else Undefined
  }
}
