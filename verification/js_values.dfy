/** The JavaScript values the program reads: parsed JSON and numbers typed by a user. */
module JsValues {
  import opened Records

  /**
   * A JSON value as `JSON.parse` or the OpenAPI parser produces it. Object
   * fields keep their insertion order.
   */
  datatype Json =
    | Null
    | Bool(b: bool)
    | Num(n: real)
    | Str(s: string)
    | Arr(items: seq<Json>)
    | Obj(fields: Record<Json>)

  /** `ToBoolean`: `null`, `false`, `0` and `""` are falsy, everything else is truthy. */
  predicate Truthy(v: Json)
  {
    match v
    case Null => false
    case Bool(b) => b
    case Num(n) => n != 0.0
    case Str(s) => s != ""
    case Arr(_) => true
    case Obj(_) => true
  }

  /**
   * A number obtained from user input with unary `+`: a finite value or
   * `NaN` (what `+"abc"` gives).
   */
  datatype Number = Finite(value: real) | NaN

  /** The relational `a < b` on numbers: false as soon as either side is `NaN`. */
  predicate Less(a: Number, b: Number)
  {
    a.Finite? && b.Finite? && a.value < b.value
  }

  /** True when the number is an integer value (`Number.isInteger`). */
  predicate IsInteger(x: Number)
  {
    x.Finite? && x.value.Floor as real == x.value
  }
}
