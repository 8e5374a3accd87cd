/** Python's built-in `min` and `max` on two degrees: the default T-norm and aggregation. */
module Norms {

  /** `min(a, b)`: `b` when `b < a`, else `a`. */
  function Min(a: real, b: real): (r: real)
    ensures r <= a && r <= b
    ensures r == a || r == b
  {
    if b < a then b else a
  }

  /** `max(a, b)`: `b` when `b > a`, else `a`. */
  function Max(a: real, b: real): (r: real)
    ensures r >= a && r >= b
    ensures r == a || r == b
  {
    if b > a then b else a
  }
}
