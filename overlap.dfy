/**
 * Boxes in normalised frame coordinates and the directional overlap metric
 * of PersonTracker.__intersection_ratio.
 */
module Overlap {

  /** A head box [xmin, ymin, xmax, ymax]; coordinates are mathematical reals. */
  datatype Box = Box(xmin: real, ymin: real, xmax: real, ymax: real)

  function Max(a: real, b: real): real { if a >= b then a else b }
  function Min(a: real, b: real): real { if a <= b then a else b }

  /** The data model's well-formedness: a box with positive width and height. */
  predicate WellFormed(b: Box) { b.xmin < b.xmax && b.ymin < b.ymax }

  /** True when `outer` covers `inner` on both axes. */
  predicate Covers(outer: Box, inner: Box)
  {
    outer.xmin <= inner.xmin && outer.ymin <= inner.ymin &&
    inner.xmax <= outer.xmax && inner.ymax <= outer.ymax
  }

  lemma MulMono(a: real, b: real, c: real, d: real)
    requires 0.0 <= a <= c && 0.0 <= b <= d
    ensures 0.0 <= a * b <= c * d
  {
    assert a * b <= c * b;
    assert c * b <= c * d;
  }

  /** Clamped area, as the source computes `box2_area`. */
  function Area(b: Box): (a: real)
    ensures a >= 0.0
    ensures WellFormed(b) ==> a > 0.0
  {
    var w := Max(0.0, b.xmax - b.xmin);
    var h := Max(0.0, b.ymax - b.ymin);
    MulMono(0.0, 0.0, w, h);
    assert w > 0.0 && h > 0.0 ==> w * h > 0.0;
    w * h
  }

  /** Area of the intersection of two boxes, each axis clamped at 0 before multiplying. */
  function IntersectionArea(b1: Box, b2: Box): (a: real)
    ensures 0.0 <= a <= Area(b2)
  {
    var w := Max(0.0, Min(b1.xmax, b2.xmax) - Max(b1.xmin, b2.xmin));
    var h := Max(0.0, Min(b1.ymax, b2.ymax) - Max(b1.ymin, b2.ymin));
    MulMono(w, h, Max(0.0, b2.xmax - b2.xmin), Max(0.0, b2.ymax - b2.ymin));
    w * h
  }

  /**
   * The share of `b2` covered by `b1` (not IoU). The source divides by the
   * area of `b2` unconditionally; here a zero-area `b2` yields 0.
   */
  function IntersectionRatio(b1: Box, b2: Box): (r: real)
    ensures 0.0 <= r <= 1.0
    ensures Area(b2) == 0.0 ==> r == 0.0
  {
    if Area(b2) == 0.0 then 0.0
    else IntersectionArea(b1, b2) / Area(b2)
  }

  /** For a second box of positive area, the ratio is the share of its area that the first box covers. */
  lemma RatioShare(b1: Box, b2: Box)
    requires Area(b2) > 0.0
    ensures IntersectionRatio(b1, b2) * Area(b2) == IntersectionArea(b1, b2)
  {
  }

  lemma DivSelf(x: real)
    requires x > 0.0
    ensures x / x == 1.0
  {
  }

  /** Boxes separated along either axis do not overlap at all. */
  lemma RatioDisjoint(b1: Box, b2: Box)
    requires b1.xmax <= b2.xmin || b2.xmax <= b1.xmin || b1.ymax <= b2.ymin || b2.ymax <= b1.ymin
    ensures IntersectionRatio(b1, b2) == 0.0
  {
    assert IntersectionArea(b1, b2) == 0.0;
  }

  /** A box that covers a positive-area `b2` covers all of it: the ratio is 1. */
  lemma RatioCovered(b1: Box, b2: Box)
    requires WellFormed(b2) && Covers(b1, b2)
    ensures IntersectionRatio(b1, b2) == 1.0
  {
    var w := Max(0.0, b2.xmax - b2.xmin);
    var h := Max(0.0, b2.ymax - b2.ymin);
    assert Max(0.0, Min(b1.xmax, b2.xmax) - Max(b1.xmin, b2.xmin)) == w;
    assert Max(0.0, Min(b1.ymax, b2.ymax) - Max(b1.ymin, b2.ymin)) == h;
    var a := Area(b2);
    assert a == w * h;
    assert IntersectionArea(b1, b2) == a;
    assert a > 0.0;
    assert IntersectionRatio(b1, b2) == a / a;
    DivSelf(a);
  }

  /** A positive-area box fully overlaps itself. */
  lemma RatioSelf(b: Box)
    requires WellFormed(b)
    ensures IntersectionRatio(b, b) == 1.0
  {
    RatioCovered(b, b);
  }

  /**
   * The ratio is directional: when a larger box covers a smaller positive-area
   * box, the smaller one is fully covered but covers only part of the larger.
   */
  lemma RatioAsymmetric(large: Box, small: Box)
    requires WellFormed(small) && Covers(large, small) && Area(small) < Area(large)
    ensures IntersectionRatio(large, small) == 1.0
    ensures IntersectionRatio(small, large) < 1.0
  {
    RatioCovered(large, small);
    assert IntersectionArea(small, large) == Area(small);
    var r := IntersectionRatio(small, large);
    RatioShare(small, large);
    assert r * Area(large) == Area(small);
    if r >= 1.0 {
      MulMono(1.0, Area(large), r, Area(large));
      assert false;
    }
  }
}
