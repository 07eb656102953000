/**
  JavaScript values the model needs beyond plain strings: a value that may be
  `null`/`undefined`, and the truthiness test `if (x)` / `x || fallback`
  applied to possibly-missing strings.
 */
module JsValue {

  /** A present value, or JavaScript's `null` / `undefined`. */
  datatype Option<+T> = None | Some(value: T)

  /** A possibly-missing string is truthy when it is present and not "". */
  predicate Truthy(s: Option<string>) {
    s.Some? && s.value != ""
  }

  /** `s || fallback` for a possibly-missing string. */
  function OrElse(s: Option<string>, fallback: string): (r: string)
    ensures Truthy(s) ==> r == s.value
    ensures !Truthy(s) ==> r == fallback
  {
    if Truthy(s) then s.value else fallback
  }

  /** `s || null`: the empty string collapses to a missing value. */
  function OrNull(s: Option<string>): (r: Option<string>)
    ensures r.Some? <==> Truthy(s)
    ensures r.Some? ==> r == s
  {
    if Truthy(s) then s else None
  }
}
