/** JavaScript values as they reach the server in a request body or a route parameter. */
module Json {

  /** A JavaScript value. Numbers are integers here; NaN and fractions are not modelled. */
  datatype Value =
    | Undefined
    | Null
    | Bool(b: bool)
    | Num(n: int)
    | Str(s: string)
    | Object

  /** `!value` in JavaScript. */
  predicate Falsy(v: Value) {
    v.Undefined? || v.Null? || v == Bool(false) || v == Num(0) || v == Str("")
  }

  /** What class-validator's `@IsOptional()` treats as a missing property. */
  predicate Missing(v: Value) {
    v.Undefined? || v.Null?
  }

  /** A parsed JSON object: property name to value. */
  type Body = map<string, Value>

  /** Property access `body[key]`: `undefined` when the key is absent. */
  function Get(body: Body, key: string): Value {
    if key in body then body[key] else Undefined
  }
}
