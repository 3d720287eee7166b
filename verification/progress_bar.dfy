/**
 * The progress bar component: the fill width is the `progress` prop
 * clamped into [0, 100] percent.
 */
module ProgressBar {
  import opened JsMath

  /**
   * `clampedProgress`, `Math.max(0, Math.min(100, progress))`: always in
   * [0, 100]; below 0 it is 0, above 100 it is 100, and in between it is the
   * progress itself.
   */
  function ClampProgress(progress: real): (r: real)
    ensures 0.0 <= r <= 100.0
    ensures progress < 0.0 ==> r == 0.0
    ensures progress > 100.0 ==> r == 100.0
    ensures 0.0 <= progress <= 100.0 ==> r == progress
  {
    Max(0.0, Min(100.0, progress))
  }

  /** Clamping a clamped value changes nothing. */
  lemma ClampIdempotent(progress: real)
    ensures ClampProgress(ClampProgress(progress)) == ClampProgress(progress)
  {
  }

  /** A larger progress never gives a narrower fill. */
  lemma ClampMonotone(p: real, q: real)
    requires p <= q
    ensures ClampProgress(p) <= ClampProgress(q)
  {
  }

  /** The worked values: -5 renders as 0, 150 as 100 and 42 as 42. */
  lemma ClampExamples()
    ensures ClampProgress(-5.0) == 0.0
    ensures ClampProgress(150.0) == 100.0
    ensures ClampProgress(42.0) == 42.0
  {
  }
}
