/** Small building blocks shared by the page models: an optional value,
    integer clamps and rounding-up division. */
module Wrappers {
  /** A value that a backend query may or may not have produced
      (`data` is `null` when a query fails). */
  datatype Option<+T> = None | Some(value: T)
}

module Arith {
  /** `Math.min` on integers. */
  function Min(a: int, b: int): (m: int)
    ensures m <= a && m <= b
    ensures m == a || m == b
  {
    if a <= b then a else b
  }

  /** `Math.max` on integers. */
  function Max(a: int, b: int): (m: int)
    ensures m >= a && m >= b
    ensures m == a || m == b
  {
    if a >= b then a else b
  }

  /** `Math.ceil(a / b)` for a non-negative numerator: the fewest blocks of
      size `b` that hold `a` things. */
  function CeilDiv(a: nat, b: nat): (q: nat)
    requires b > 0
    ensures a <= q * b
    ensures q > 0 ==> (q - 1) * b < a
  {
    if a % b == 0 then a / b else a / b + 1
  }
}
