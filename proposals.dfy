/**
 * The proposal pool of PersonTracker: unlabelled head detections, one row
 * per detection, in the order load_from_files sorts them (frameID, xmin).
 */
module Proposals {
  import opened Overlap

  /** One row of proposal_df: the frame and the head box. */
  datatype Detection = Detection(frame: int, box: Box)

  function IntMax(a: int, b: int): int { if a >= b then a else b }
  function IntMin(a: int, b: int): int { if a <= b then a else b }

  /** The order load_from_files leaves the pool in: by frame, then by xmin. */
  predicate SortedByFrameXmin(rows: seq<Detection>)
  {
    forall i, j :: 0 <= i < j < |rows| ==>
      rows[i].frame < rows[j].frame || (rows[i].frame == rows[j].frame && rows[i].box.xmin <= rows[j].box.xmin)
  }

  /** Python's list(range(lo, hi)). */
  function Range(lo: int, hi: int): (r: seq<int>)
    ensures |r| == IntMax(0, hi - lo)
    ensures forall j :: 0 <= j < |r| ==> r[j] == lo + j
  {
    if lo >= hi then [] else seq(hi - lo, j => lo + j)
  }

  /** Positions, from `from` on, of the rows that belong to frame `f`, in row order. */
  function FrameIndicesFrom(rows: seq<Detection>, f: int, from: nat): (r: seq<nat>)
    requires from <= |rows|
    ensures forall j :: 0 <= j < |r| ==> from <= r[j] < |rows| && rows[r[j]].frame == f
    ensures forall j, k :: 0 <= j < k < |r| ==> r[j] < r[k]
    ensures forall i :: from <= i < |rows| && rows[i].frame == f ==> i in r
    decreases |rows| - from
  {
    if from == |rows| then []
    else (if rows[from].frame == f then [from] else []) + FrameIndicesFrom(rows, f, from + 1)
  }

  /** grouped_df.get_group(f): the rows of frame `f`, as positions in the pool. */
  function FrameIndices(rows: seq<Detection>, f: int): (r: seq<nat>)
    ensures forall j :: 0 <= j < |r| ==> r[j] < |rows| && rows[r[j]].frame == f
    ensures forall j, k :: 0 <= j < k < |r| ==> r[j] < r[k]
    ensures forall i :: 0 <= i < |rows| && rows[i].frame == f ==> i in r
  {
    FrameIndicesFrom(rows, f, 0)
  }

  /** `f in frame_ls`: the pool has at least one detection in frame `f`. */
  predicate Present(rows: seq<Detection>, f: int)
  {
    FrameIndices(rows, f) != []
  }

  /** A frame is present exactly when some row carries it. */
  lemma PresentIff(rows: seq<Detection>, f: int)
    ensures Present(rows, f) <==> exists i :: 0 <= i < |rows| && rows[i].frame == f
  {
    if exists i :: 0 <= i < |rows| && rows[i].frame == f {
      var i :| 0 <= i < |rows| && rows[i].frame == f;
      assert i in FrameIndices(rows, f);
    }
    if Present(rows, f) {
      var i := FrameIndices(rows, f)[0];
      assert 0 <= i < |rows| && rows[i].frame == f;
    }
  }

  /** proposal_df.frameID.max(), the default end frame. */
  function MaxFrame(rows: seq<Detection>): (m: int)
    requires |rows| > 0
    ensures exists i :: 0 <= i < |rows| && rows[i].frame == m
    ensures forall i :: 0 <= i < |rows| ==> rows[i].frame <= m
  {
    if |rows| == 1 then rows[0].frame
    else
      var m := MaxFrame(rows[1..]);
      assert forall i :: 1 <= i < |rows| ==> rows[i] == rows[1..][i - 1];
      if rows[0].frame >= m then rows[0].frame else m
  }
}
