/** utils.expand_headbox: grow a box by a factor of its own size, clamped to the unit frame. */
module Utils {
  import opened Overlap

  /** True when every coordinate of `b` lies in [0, 1]. */
  predicate InUnitFrame(b: Box)
  {
    0.0 <= b.xmin <= 1.0 && 0.0 <= b.ymin <= 1.0 && 0.0 <= b.xmax <= 1.0 && 0.0 <= b.ymax <= 1.0
  }

  /** Each side moves outward by k times the box's extent on that axis, then is clamped to [0, 1]. */
  function ExpandHeadbox(b: Box, k: real): (r: Box)
    ensures 0.0 <= r.xmin && 0.0 <= r.ymin && r.xmax <= 1.0 && r.ymax <= 1.0
  {
    Box(Max(0.0, b.xmin - k * (b.xmax - b.xmin)),
        Max(0.0, b.ymin - k * (b.ymax - b.ymin)),
        Min(1.0, b.xmax + k * (b.xmax - b.xmin)),
        Min(1.0, b.ymax + k * (b.ymax - b.ymin)))
  }

  /** With k = 0 a box inside the unit frame is returned unchanged. */
  lemma ExpandIdentity(b: Box)
    requires InUnitFrame(b)
    ensures ExpandHeadbox(b, 0.0) == b
  {
  }

  /** With k >= 0 a well-ordered box inside the frame is covered by its expansion, which stays well-ordered. */
  lemma ExpandContains(b: Box, k: real)
    requires 0.0 <= k && InUnitFrame(b) && b.xmin <= b.xmax && b.ymin <= b.ymax
    ensures Covers(ExpandHeadbox(b, k), b)
    ensures ExpandHeadbox(b, k).xmin <= ExpandHeadbox(b, k).xmax
    ensures ExpandHeadbox(b, k).ymin <= ExpandHeadbox(b, k).ymax
  {
    MulMono(0.0, 0.0, k, b.xmax - b.xmin);
    MulMono(0.0, 0.0, k, b.ymax - b.ymin);
  }

  /** No side moves outward by more than k times the box's extent on its axis. */
  lemma ExpandStep(b: Box, k: real)
    ensures b.xmin - ExpandHeadbox(b, k).xmin <= k * (b.xmax - b.xmin)
    ensures b.ymin - ExpandHeadbox(b, k).ymin <= k * (b.ymax - b.ymin)
    ensures ExpandHeadbox(b, k).xmax - b.xmax <= k * (b.xmax - b.xmin)
    ensures ExpandHeadbox(b, k).ymax - b.ymax <= k * (b.ymax - b.ymin)
  {
    var r := ExpandHeadbox(b, k);
    var dx := k * (b.xmax - b.xmin);
    var dy := k * (b.ymax - b.ymin);
    assert r.xmin >= b.xmin - dx && r.ymin >= b.ymin - dy;
    assert r.xmax <= b.xmax + dx && r.ymax <= b.ymax + dy;
  }
}
