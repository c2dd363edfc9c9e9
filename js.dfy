/**
 * The few JavaScript value semantics the tracker relies on: truthiness and the
 * `x || fallback` idiom used for defaults and missing headers.
 */
module Js {
  import opened Wrappers

  /**
   * A JSON request-body value as Express hands it to a handler. `Undefined` is a
   * missing field; numbers are integers (fractions are not modelled); `Composite`
   * stands for any object or array.
   */
  datatype JsValue = Undefined | Null | Bool(b: bool) | Number(n: int) | Str(s: string) | Composite

  /** JavaScript truthiness: undefined, null, false, 0 and "" are falsy. */
  predicate Truthy(v: JsValue) {
    match v
    case Undefined => false
    case Null => false
    case Bool(b) => b
    case Number(n) => n != 0
    case Str(s) => s != ""
    case Composite => true
  }

  /** JavaScript `x || y`: `x` itself when it is truthy, `y` otherwise. */
  function Or(x: JsValue, y: JsValue): JsValue {
    if Truthy(x) then x else y
  }

  /** A header, query or storage value as JavaScript reads it: `undefined` when absent. */
  function FromOption(v: Option<string>): JsValue {
    if v.Some? then Str(v.value) else Undefined
  }

  /**
   * `v || fallback` for a string-or-missing value: the value itself when it is
   * present and non-empty, the fallback otherwise.
   */
  function OrElse(v: Option<string>, fallback: string): (r: string)
    ensures Str(r) == Or(FromOption(v), Str(fallback))
    ensures (v.Some? && v.value != "") ==> r == v.value
    ensures (v.None? || v.value == "") ==> r == fallback
  {
    if v.Some? && v.value != "" then v.value else fallback
  }
}
