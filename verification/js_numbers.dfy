/**
 * JavaScript numbers, as far as the modelled code depends on them: the special
 * values NaN and ±Infinity, truthiness, and the arithmetic the code performs.
 * Finite values are exact reals; IEEE-754 rounding is not modelled.
 */
module JsNumbers {

  datatype Number = NaN | Infinity(negative: bool) | Finite(value: real)

  /** `if (n)`: 0 and NaN are falsy, every other number (including ±Infinity) is truthy. */
  predicate Truthy(n: Number) {
    n.Infinity? || (n.Finite? && n.value != 0.0)
  }

  function Neg(a: Number): (r: Number)
    ensures a.Finite? ==> r == Finite(-a.value)
  {
    match a
    case NaN => NaN
    case Infinity(negative) => Infinity(!negative)
    case Finite(v) => Finite(-v)
  }

  /** `a + b`: NaN absorbs, opposite infinities give NaN. */
  function Add(a: Number, b: Number): (r: Number)
    ensures a.Finite? && b.Finite? ==> r == Finite(a.value + b.value)
    ensures (a.NaN? || b.NaN?) ==> r.NaN?
  {
    if a.NaN? || b.NaN? then NaN
    else if a.Infinity? && b.Infinity? then (if a.negative == b.negative then a else NaN)
    else if a.Infinity? then a
    else if b.Infinity? then b
    else Finite(a.value + b.value)
  }

  /** `a - b` */
  function Sub(a: Number, b: Number): (r: Number)
    ensures a.Finite? && b.Finite? ==> r == Finite(a.value - b.value)
    ensures (a.NaN? || b.NaN?) ==> r.NaN?
  {
    Add(a, Neg(b))
  }

  /** `a * k` for a positive constant `k`. */
  function Times(a: Number, k: real): (r: Number)
    requires k > 0.0
    ensures a.Finite? ==> r == Finite(a.value * k)
    ensures a.NaN? <==> r.NaN?
  {
    if a.Finite? then Finite(a.value * k) else a
  }

  /** `a / k` for a positive constant `k`. */
  function Over(a: Number, k: real): (r: Number)
    requires k > 0.0
    ensures a.Finite? ==> r == Finite(a.value / k)
    ensures a.NaN? <==> r.NaN?
  {
    if a.Finite? then Finite(a.value / k) else a
  }

  function MinReal(a: real, b: real): real {
    if a <= b then a else b
  }

  function MaxReal(a: real, b: real): real {
    if a >= b then a else b
  }

  function MinInt(a: int, b: int): int {
    if a <= b then a else b
  }

  function MaxInt(a: int, b: int): int {
    if a >= b then a else b
  }

  /** `Math.ceil(x)` */
  function Ceil(x: real): (n: int)
    ensures x <= n as real < x + 1.0
  {
    -((-x).Floor)
  }
}
