/**
 * The slice of JavaScript value semantics the service relies on: the JSON
 * values a request body carries, truthiness (`!x`, `x || y`), loose
 * nullishness (`x != null`) and the `Number(x)` coercion.
 */
module Js {
  import opened Wrappers

  /** A JavaScript number. Infinities and signed zero are not modelled. */
  datatype Number = NaN | Finite(value: real)

  /** A JSON-like value as found in `req.body` or in a stored document field. */
  datatype JsValue =
    | Undefined
    | Null
    | Bool(b: bool)
    | Num(n: Number)
    | Str(s: string)

  /**
   * Parts of the JavaScript runtime whose internals are not modelled:
   * `Number(s)` on a string, `Date.parse(s)` (None stands for NaN) and the
   * local-time constructor `new Date(y, monthIndex, d, h, min, s, ms).getTime()`
   * for finite arguments (None stands for an invalid date, one beyond the
   * Date range). Times are integer milliseconds.
   */
  datatype Runtime = Runtime(
    parseNumber: string -> Number,
    parseDate: string -> Option<int>,
    localTime: (real, real, real, real, real, real, real) -> Option<int>)

  /** `!!v`: the values that are not false, 0, NaN, "", null or undefined. */
  predicate Truthy(v: JsValue) {
    match v
    case Undefined => false
    case Null => false
    case Bool(b) => b
    case Num(n) => n.Finite? && n.value != 0.0
    case Str(s) => s != ""
  }

  /** `v == null` with loose equality: null and undefined only. */
  predicate Nullish(v: JsValue) {
    v.Undefined? || v.Null?
  }

  /** `Number(v)`. */
  function ToNumber(rt: Runtime, v: JsValue): Number {
    match v
    case Undefined => NaN
    case Null => Finite(0.0)
    case Bool(b) => Finite(if b then 1.0 else 0.0)
    case Num(n) => n
    case Str(s) => rt.parseNumber(s)
  }

  /** `v != null ? Number(v) : null`, the normalisation applied to durations and calories. */
  function NumberOrNull(rt: Runtime, v: JsValue): (r: Option<Number>)
    ensures r.None? <==> Nullish(v)
    ensures v.Num? ==> r == Some(v.n)
  {
    if Nullish(v) then None else Some(ToNumber(rt, v))
  }

  /** The JavaScript value of an optional number: the number itself or `null`. */
  function NumberValue(n: Option<Number>): JsValue {
    match n
    case Some(x) => Num(x)
    case None => Null
  }
}
