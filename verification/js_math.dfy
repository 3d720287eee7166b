/**
 * `Math.min` and `Math.max` over the real numbers. JavaScript numbers are
 * doubles; the model leaves out NaN, the infinities and rounding.
 */
module JsMath {
  function Min(a: real, b: real): (r: real)
    ensures r <= a && r <= b
    ensures r == a || r == b
  {
    if a <= b then a else b
  }

  function Max(a: real, b: real): (r: real)
    ensures a <= r && b <= r
    ensures r == a || r == b
  {
    if a <= b then b else a
  }

  /** Clamping into [lo, hi] gives the same value whichever of min and max is applied first. */
  lemma ClampOrderIrrelevant(lo: real, hi: real, x: real)
    requires lo <= hi
    ensures Min(hi, Max(lo, x)) == Max(lo, Min(hi, x))
  {
  }
}
