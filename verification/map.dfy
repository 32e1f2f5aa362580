/** The linear range transform (src/transforms/map.rs). */
module RangeMap {
  import opened Rectangles

  /** `map`: carries `value` from the range `from` onto the range `to`. */
  function Map(value: real, from: Range, to: Range): (r: real)
    requires from.end != from.start
    ensures value == from.start ==> r == to.start
    ensures value == from.end ==> r == to.end
  {
    ((value - from.start) * (to.end - to.start)) / (from.end - from.start) + to.start
  }

  /** The doc example: 10 in 0..20 is 20 in 0..40. */
  lemma MapDocExample()
    ensures Map(10.0, Range(0.0, 20.0), Range(0.0, 40.0)) == 20.0
  {
  }

  /** `map` is affine in the value, with slope (to.end - to.start) / (from.end - from.start). */
  lemma MapIsAffine(value: real, from: Range, to: Range)
    requires from.end != from.start
    ensures Map(value, from, to) == to.start + (value - from.start) * ((to.end - to.start) / (from.end - from.start))
  {
    var d := from.end - from.start;
    var e := to.end - to.start;
    var x := value - from.start;
    var slope := e / d;
    var q := (x * e) / d;
    assert q * d == x * e;
    QuotientTimesDivisor(x, e, d);
    CancelFactor(q, x * slope, d);
    assert Map(value, from, to) == q + to.start;
  }

  /** Multiplying `x * (e / d)` back by `d` gives `x * e`. */
  lemma QuotientTimesDivisor(x: real, e: real, d: real)
    requires d != 0.0
    ensures (x * (e / d)) * d == x * e
  {
    var s := e / d;
    assert s * d == e;
    assert (x * s) * d == x * (s * d);
  }

  /** A nonzero factor cancels from both sides of an equation. */
  lemma CancelFactor(a: real, b: real, d: real)
    requires d != 0.0 && a * d == b * d
    ensures a == b
  {
    assert (a - b) * d == 0.0;
  }

  /** Mapping back with the ranges swapped returns the original value. */
  lemma MapRoundTrip(value: real, from: Range, to: Range)
    requires from.end != from.start && to.end != to.start
    ensures Map(Map(value, from, to), to, from) == value
  {
    var d := from.end - from.start;
    var e := to.end - to.start;
    var u := Map(value, from, to);
    assert (u - to.start) * d == (value - from.start) * e / d * d;
    assert (value - from.start) * e / d * d == (value - from.start) * e;
    assert (u - to.start) * d / e == value - from.start;
  }
}
