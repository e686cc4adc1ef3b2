/**
 * The gap filling of a finished track: each coordinate column is filled by
 * pandas' linear interpolation, which counts rows, not frame numbers.
 * A gap between two known rows is filled on the straight line between them,
 * a gap after the last known row repeats that row, and a gap before the
 * first known row stays empty.
 */
module Interpolation {
  import opened Wrappers
  import opened Overlap

  /** Position of the last known value strictly before `p`. */
  function LastKnownBefore(vals: seq<Option<Box>>, p: nat): (r: Option<nat>)
    requires p <= |vals|
    ensures r.Some? ==> r.value < p && vals[r.value].Some? && forall q :: r.value < q < p ==> vals[q].None?
    ensures r.None? ==> forall q :: 0 <= q < p ==> vals[q].None?
  {
    if p == 0 then None
    else if vals[p - 1].Some? then Some(p - 1)
    else LastKnownBefore(vals, p - 1)
  }

  /** Position of the first known value strictly after `p`. */
  function FirstKnownAfter(vals: seq<Option<Box>>, p: nat): (r: Option<nat>)
    requires p < |vals|
    ensures r.Some? ==> p < r.value < |vals| && vals[r.value].Some? && forall q :: p < q < r.value ==> vals[q].None?
    ensures r.None? ==> forall q :: p < q < |vals| ==> vals[q].None?
    decreases |vals| - p
  {
    if p + 1 == |vals| then None
    else if vals[p + 1].Some? then Some(p + 1)
    else FirstKnownAfter(vals, p + 1)
  }

  /** The value `i` rows into a gap of `n` rows from x to y, as np.interp computes it (slope times distance plus start). */
  function Lerp(x: real, y: real, i: nat, n: nat): real
    requires n > 0
  {
    x + (y - x) / (n as real) * (i as real)
  }

  function LerpBox(a: Box, b: Box, i: nat, n: nat): Box
    requires n > 0
  {
    Box(Lerp(a.xmin, b.xmin, i, n), Lerp(a.ymin, b.ymin, i, n), Lerp(a.xmax, b.xmax, i, n), Lerp(a.ymax, b.ymax, i, n))
  }

  /** The interpolated value of row `p`. */
  function InterpolateAt(vals: seq<Option<Box>>, p: nat): Option<Box>
    requires p < |vals|
  {
    if vals[p].Some? then vals[p]
    else match LastKnownBefore(vals, p)
      case None => None
      case Some(a) =>
        match FirstKnownAfter(vals, p)
        case None => vals[a]
        case Some(b) => Some(LerpBox(vals[a].value, vals[b].value, p - a, b - a))
  }

  /** `.interpolate(method='linear')` on every coordinate column. */
  function Interpolate(vals: seq<Option<Box>>): (r: seq<Option<Box>>)
    ensures |r| == |vals|
    ensures forall p :: 0 <= p < |vals| && vals[p].Some? ==> r[p] == vals[p]
  {
    seq(|vals|, p requires 0 <= p < |vals| => InterpolateAt(vals, p))
  }

  // ---------------------------------------------------------------- properties

  /** A row stays empty exactly when no row at or before it is known (leading NaNs are not filled). */
  lemma InterpolateDefined(vals: seq<Option<Box>>, p: nat)
    requires p < |vals|
    ensures Interpolate(vals)[p].Some? <==> exists q :: 0 <= q <= p && vals[q].Some?
  {
    if vals[p].None? {
      var a := LastKnownBefore(vals, p);
      if a.Some? {
        var b := FirstKnownAfter(vals, p);
        assert vals[a.value].Some?;
      }
    }
  }

  /** Inside a gap between known rows a and b, row p lies p - a steps along the line from the box at a to the box at b. */
  lemma InterpolateBetween(vals: seq<Option<Box>>, a: nat, b: nat, p: nat)
    requires a < p < b < |vals| && vals[a].Some? && vals[b].Some?
    requires forall q :: a < q < b ==> vals[q].None?
    ensures Interpolate(vals)[p] == Some(LerpBox(vals[a].value, vals[b].value, p - a, b - a))
  {
    var la := LastKnownBefore(vals, p);
    var fb := FirstKnownAfter(vals, p);
    assert la == Some(a) by {
      assert la.Some?;
    }
    assert fb == Some(b) by {
      assert fb.Some?;
    }
  }

  /** After the last known row every row repeats it. */
  lemma InterpolateTrailing(vals: seq<Option<Box>>, a: nat, p: nat)
    requires a < p < |vals| && vals[a].Some?
    requires forall q :: a < q < |vals| ==> vals[q].None?
    ensures Interpolate(vals)[p] == vals[a]
  {
    var la := LastKnownBefore(vals, p);
    assert la == Some(a) by {
      assert la.Some?;
    }
    var fb := FirstKnownAfter(vals, p);
  }

  /** The line starts at x and ends at y. */
  lemma LerpEnds(x: real, y: real, n: nat)
    requires n > 0
    ensures Lerp(x, y, 0, n) == x && Lerp(x, y, n, n) == y
  {
  }

  /** Successive rows of a gap differ by the same amount, (y - x) / n. */
  lemma LerpStep(x: real, y: real, i: nat, n: nat)
    requires n > 0
    ensures Lerp(x, y, i + 1, n) - Lerp(x, y, i, n) == (y - x) / (n as real)
  {
    var d := (y - x) / (n as real);
    assert d * ((i + 1) as real) == d * (i as real) + d;
  }

  /** Between its ends the line stays between x and y. */
  lemma LerpWithin(x: real, y: real, i: nat, n: nat)
    requires 0 < n && i <= n
    ensures Min(x, y) <= Lerp(x, y, i, n) <= Max(x, y)
  {
    var t := (i as real) / (n as real);
    assert 0.0 <= t <= 1.0;
    assert (y - x) / (n as real) * (i as real) == (y - x) * t;
    if x <= y {
      MulMono(t, y - x, 1.0, y - x);
    } else {
      MulMono(t, x - y, 1.0, x - y);
    }
  }

  /**
   * The filled rows of a gap between known rows a and b are evenly spaced:
   * from row p to row p + 1 (a <= p < b) every coordinate moves by its total
   * change over the gap divided by the number of rows b - a.
   */
  lemma {:induction false} InterpolateEvenSteps(vals: seq<Option<Box>>, a: nat, b: nat, p: nat)
    requires a <= p < b < |vals| && vals[a].Some? && vals[b].Some?
    requires forall q :: a < q < b ==> vals[q].None?
    ensures Interpolate(vals)[p].Some? && Interpolate(vals)[p + 1].Some?
    ensures var r := Interpolate(vals); var x := vals[a].value; var y := vals[b].value; var n := (b - a) as real;
      r[p + 1].value.xmin - r[p].value.xmin == (y.xmin - x.xmin) / n &&
      r[p + 1].value.ymin - r[p].value.ymin == (y.ymin - x.ymin) / n &&
      r[p + 1].value.xmax - r[p].value.xmax == (y.xmax - x.xmax) / n &&
      r[p + 1].value.ymax - r[p].value.ymax == (y.ymax - x.ymax) / n
  {
    var r := Interpolate(vals);
    var x := vals[a].value;
    var y := vals[b].value;
    var n := b - a;
    var i := p - a;
    assert r[p] == Some(LerpBox(x, y, i, n)) by {
      if p == a {
        LerpEnds(x.xmin, y.xmin, n); LerpEnds(x.ymin, y.ymin, n);
        LerpEnds(x.xmax, y.xmax, n); LerpEnds(x.ymax, y.ymax, n);
      } else {
        InterpolateBetween(vals, a, b, p);
      }
    }
    assert r[p + 1] == Some(LerpBox(x, y, i + 1, n)) by {
      if p + 1 == b {
        LerpEnds(x.xmin, y.xmin, n); LerpEnds(x.ymin, y.ymin, n);
        LerpEnds(x.xmax, y.xmax, n); LerpEnds(x.ymax, y.ymax, n);
      } else {
        InterpolateBetween(vals, a, b, p + 1);
      }
    }
    LerpStep(x.xmin, y.xmin, i, n);
    LerpStep(x.ymin, y.ymin, i, n);
    LerpStep(x.xmax, y.xmax, i, n);
    LerpStep(x.ymax, y.ymax, i, n);
  }

  /** A filled row of a gap between known rows a and b lies, coordinate by coordinate, between the boxes at a and b. */
  lemma InterpolateWithin(vals: seq<Option<Box>>, a: nat, b: nat, p: nat)
    requires a < p < b < |vals| && vals[a].Some? && vals[b].Some?
    requires forall q :: a < q < b ==> vals[q].None?
    ensures var r := Interpolate(vals)[p]; var x := vals[a].value; var y := vals[b].value;
      r.Some? &&
      Min(x.xmin, y.xmin) <= r.value.xmin <= Max(x.xmin, y.xmin) &&
      Min(x.ymin, y.ymin) <= r.value.ymin <= Max(x.ymin, y.ymin) &&
      Min(x.xmax, y.xmax) <= r.value.xmax <= Max(x.xmax, y.xmax) &&
      Min(x.ymax, y.ymax) <= r.value.ymax <= Max(x.ymax, y.ymax)
  {
    InterpolateBetween(vals, a, b, p);
    var x := vals[a].value;
    var y := vals[b].value;
    LerpWithin(x.xmin, y.xmin, p - a, b - a);
    LerpWithin(x.ymin, y.ymin, p - a, b - a);
    LerpWithin(x.xmax, y.xmax, p - a, b - a);
    LerpWithin(x.ymax, y.ymax, p - a, b - a);
  }
}
