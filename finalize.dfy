/**
 * What __track_person does after its loop: drop a terminated run, otherwise
 * build the dense track over [start_frame, end_frame) minus the skipped
 * frames, fill its gaps, and ask for a final confirmation on its last row.
 * Also the removal of the used detections from the pool (track_person).
 */
module Finalize {
  import opened Wrappers
  import opened Overlap
  import opened Proposals
  import opened Engine
  import opened EngineProperties
  import opened Interpolation

  /** One row of a finished track: the frame, the head box (None where the gap filling leaves NaN) and the personID. */
  datatype TrackRow = TrackRow(frame: int, box: Option<Box>, personID: string)

  /** The frameID column of the track: range(start, end) without the skipped frames, in order. */
  function Kept(start: int, end: int, skipped: seq<int>): (r: seq<int>)
    ensures forall j, k :: 0 <= j < k < |r| ==> r[j] < r[k]
    ensures forall fr :: fr in r <==> start <= fr < end && fr !in skipped
    decreases end - start
  {
    if start >= end then []
    else
      var rest := Kept(start + 1, end, skipped);
      assert forall k :: 0 <= k < |rest| ==> start < rest[k] by {
        forall k | 0 <= k < |rest| ensures start < rest[k] { assert rest[k] in rest; }
      }
      if start in skipped then rest else [start] + rest
  }

  /** The box of the first row at or after position `from` that carries the personID and lies in frame `fr`. */
  function MarkedBoxFrom(rows: seq<Detection>, marked: set<nat>, fr: int, from: nat): (r: Option<Box>)
    requires from <= |rows|
    ensures r.None? <==> forall i :: from <= i < |rows| && i in marked ==> rows[i].frame != fr
    ensures r.Some? ==> exists i :: from <= i < |rows| && i in marked && rows[i].frame == fr && rows[i].box == r.value
    decreases |rows| - from
  {
    if from == |rows| then None
    else if from in marked && rows[from].frame == fr then Some(rows[from].box)
    else MarkedBoxFrom(rows, marked, fr, from + 1)
  }

  /** The left merge of the frame range with the rows carrying the personID: the known box of each frame, if any. */
  function Known(rows: seq<Detection>, marked: set<nat>, frames: seq<int>): (r: seq<Option<Box>>)
    ensures |r| == |frames|
  {
    seq(|frames|, p requires 0 <= p < |frames| => MarkedBoxFrom(rows, marked, frames[p], 0))
  }

  /** The interpolated track of a finished run. */
  function BuildTrack(rows: seq<Detection>, marked: set<nat>, pid: string, start: int, end: int, skipped: seq<int>): seq<TrackRow>
  {
    var frames := Kept(start, end, skipped);
    var boxes := Interpolate(Known(rows, marked, frames));
    seq(|frames|, p requires 0 <= p < |frames| => TrackRow(frames[p], boxes[p], pid))
  }

  /** The final-check test as written: `decision=='No' or 'Terminate and Drop'`, whose right operand is a non-empty string and hence true. */
  function FinalCheckDropsAsWritten(d: Decision): bool
  {
    d == No || |"Terminate and Drop"| > 0
  }

  /** The final-check test as evidently intended: drop on No or on Terminate and Drop. */
  function FinalCheckDrops(d: Decision): bool
  {
    d == No || d == Terminate
  }

  /** Why a run raised instead of returning. */
  datatype Failure =
    | UnboundAnchor   // the tracking step read anchor_coord before any anchor was confirmed
    | EmptyTrack      // iloc[-1] on a track with no rows
    | MissingLastBox  // int() of a NaN coordinate of the last row, for the final-check picture

  /** The end of one __track_person run: it raised, returned None after appending to dropped_frames, or returned the track. */
  datatype RunResult = Crashed(failure: Failure) | Dropped | Accepted(track: seq<TrackRow>, marked: set<nat>)

  /** Everything after the loop of __track_person, with the final-check test as a parameter. */
  function Finish(rows: seq<Detection>, pid: string, start: int, end: int, answers: seq<Decision>,
                  o: Outcome, drops: Decision -> bool): RunResult
  {
    match o
    case Unbound(_) => Crashed(UnboundAnchor)
    case Ok(s) =>
      if s.terminated then Dropped
      else
        var track := BuildTrack(rows, s.marked, pid, start, end, s.skipped);
        if |track| == 0 then Crashed(EmptyTrack)
        else if track[|track| - 1].box.None? then Crashed(MissingLastBox)
        else if drops(Answer(answers, s.asked)) then Dropped
        else Accepted(track, s.marked)
  }

  /**
   * The evidently intended exit after Terminate and Drop in anchor setup:
   * leave the loop at once, as its condition `not Terminated` says, rather
   * than run the tracking step at the same frame. A run stopped there is
   * carried on as terminated; every other outcome is unchanged.
   */
  function BreakOnTerminate(o: Outcome): Outcome
  {
    if o.state.terminated then Ok(o.state) else o
  }

  /** One whole __track_person run, with the corrected exit on Terminate and the corrected final check. */
  function TrackPersonRun(cfg: Config, rows: seq<Detection>, pid: string, start: int, end: int, answers: seq<Decision>): RunResult
    requires cfg.skipFollow >= 1
  {
    Finish(rows, pid, start, end, answers, BreakOnTerminate(Run(cfg, end, rows, answers, Initial(start))), FinalCheckDrops)
  }

  // ---------------------------------------------------------------- removal from the pool

  /**
   * The left merge with indicator in track_person matches a pool row when
   * some track row agrees with it on every shared column: frame, box and
   * personID. Only the rows marked in this run carry the personID.
   */
  predicate MatchesTrack(rows: seq<Detection>, marked: set<nat>, i: nat, track: seq<TrackRow>, pid: string)
    requires i < |rows|
  {
    i in marked && TrackRow(rows[i].frame, Some(rows[i].box), pid) in track
  }

  /** The merge's indicator column: whether each pool row matches a track row (`both`) or not (`left_only`). */
  function Matched(rows: seq<Detection>, marked: set<nat>, track: seq<TrackRow>, pid: string): (m: seq<bool>)
    ensures |m| == |rows|
    ensures forall i :: 0 <= i < |rows| ==> m[i] == MatchesTrack(rows, marked, i, track, pid)
  {
    seq(|rows|, i requires 0 <= i < |rows| => MatchesTrack(rows, marked, i, track, pid))
  }

  /** The positions from `from` on whose indicator is false, in order. */
  function LeftOnlyPositions(matched: seq<bool>, from: nat): (idx: seq<nat>)
    requires from <= |matched|
    ensures |idx| <= |matched| - from
    ensures forall j :: 0 <= j < |idx| ==> from <= idx[j] < |matched|
    decreases |matched| - from
  {
    if from == |matched| then []
    else (if matched[from] then [] else [from]) + LeftOnlyPositions(matched, from + 1)
  }

  /** The pool after `self.proposals[self.proposals['_merge'] == 'left_only']`: the rows at the unmatched positions. */
  function Remaining(rows: seq<Detection>, marked: set<nat>, track: seq<TrackRow>, pid: string): (r: seq<Detection>)
    ensures |r| <= |rows|
  {
    var idx := LeftOnlyPositions(Matched(rows, marked, track, pid), 0);
    seq(|idx|, j requires 0 <= j < |idx| => rows[idx[j]])
  }

  // ---------------------------------------------------------------- properties

  /** The known box at a frame with exactly one marked row is that row's box. */
  lemma MarkedBoxUnique(rows: seq<Detection>, marked: set<nat>, i: nat)
    requires i < |rows| && i in marked
    requires forall k :: k in marked && k < |rows| && rows[k].frame == rows[i].frame ==> k == i
    ensures MarkedBoxFrom(rows, marked, rows[i].frame, 0) == Some(rows[i].box)
  {
  }

  /** Frame numbers are unique in the track; a number is in it exactly when it lies in [start, end) and was not skipped. */
  lemma PositionOfFrame(start: int, end: int, skipped: seq<int>, fr: int) returns (p: nat)
    requires start <= fr < end && fr !in skipped
    ensures p < |Kept(start, end, skipped)| && Kept(start, end, skipped)[p] == fr
  {
    var frames := Kept(start, end, skipped);
    p :| p < |frames| && frames[p] == fr;
  }

  /**
   * Track `t` lists the kept frames of run state `s` in increasing order
   * under personID `pid` and holds the box of every row marked in a kept frame.
   */
  ghost predicate TrackShape(rows: seq<Detection>, start: int, end: int, s: State, pid: string, t: seq<TrackRow>)
    requires Inv(rows, start, s)
  {
    (forall j, k :: 0 <= j < k < |t| ==> t[j].frame < t[k].frame) &&
    (forall fr :: (exists p :: 0 <= p < |t| && t[p].frame == fr) <==> start <= fr < end && fr !in s.skipped) &&
    (forall p :: 0 <= p < |t| ==> t[p].personID == pid) &&
    (forall i :: i in s.marked && rows[i].frame < end && rows[i].frame !in s.skipped ==>
      exists p :: 0 <= p < |t| && t[p] == TrackRow(rows[i].frame, Some(rows[i].box), pid))
  }

  /** A track whose frame column is `frames` holds a row at exactly the frames in `frames`. */
  lemma TrackFramesAre(t: seq<TrackRow>, frames: seq<int>)
    requires |t| == |frames| && forall p :: 0 <= p < |t| ==> t[p].frame == frames[p]
    ensures forall fr :: (exists p :: 0 <= p < |t| && t[p].frame == fr) <==> fr in frames
  {
    forall fr | fr in frames
      ensures exists p :: 0 <= p < |t| && t[p].frame == fr
    {
      var p :| 0 <= p < |frames| && frames[p] == fr;
      assert t[p].frame == fr;
    }
  }

  /**
   * The built track has one row per kept frame, in increasing frame order,
   * the same personID on every row, and the box of every row marked in the
   * run at its frame, when that frame is kept.
   */
  lemma BuildTrackShape(rows: seq<Detection>, start: int, s: State, pid: string, end: int)
    requires Inv(rows, start, s)
    ensures TrackShape(rows, start, end, s, pid, BuildTrack(rows, s.marked, pid, start, end, s.skipped))
  {
    var t := BuildTrack(rows, s.marked, pid, start, end, s.skipped);
    var frames := Kept(start, end, s.skipped);
    BuildTrackColumns(rows, s.marked, pid, start, end, s.skipped);
    TrackFramesAre(t, frames);
    forall i | i in s.marked && rows[i].frame < end && rows[i].frame !in s.skipped
      ensures exists p :: 0 <= p < |t| && t[p] == TrackRow(rows[i].frame, Some(rows[i].box), pid)
    {
      var p := MarkedRowInTrack(rows, start, s, pid, end, i);
    }
  }

  /** Row p of the built track is the p-th kept frame, its filled box and the personID. */
  lemma BuildTrackColumns(rows: seq<Detection>, marked: set<nat>, pid: string, start: int, end: int, skipped: seq<int>)
    ensures |BuildTrack(rows, marked, pid, start, end, skipped)| == |Kept(start, end, skipped)|
    ensures forall p :: 0 <= p < |Kept(start, end, skipped)| ==>
      BuildTrack(rows, marked, pid, start, end, skipped)[p] ==
        TrackRow(Kept(start, end, skipped)[p], Interpolate(Known(rows, marked, Kept(start, end, skipped)))[p], pid)
  {
  }

  /** A row marked in a kept frame appears, with its box, in the built track. */
  lemma MarkedRowInTrack(rows: seq<Detection>, start: int, s: State, pid: string, end: int, i: nat) returns (p: nat)
    requires Inv(rows, start, s)
    requires i in s.marked && rows[i].frame < end && rows[i].frame !in s.skipped
    ensures p < |BuildTrack(rows, s.marked, pid, start, end, s.skipped)|
    ensures BuildTrack(rows, s.marked, pid, start, end, s.skipped)[p] == TrackRow(rows[i].frame, Some(rows[i].box), pid)
  {
    var frames := Kept(start, end, s.skipped);
    var known := Known(rows, s.marked, frames);
    BuildTrackColumns(rows, s.marked, pid, start, end, s.skipped);
    p := PositionOfFrame(start, end, s.skipped, rows[i].frame);
    MarkedBoxUnique(rows, s.marked, i);
    assert known[p] == Some(rows[i].box);
  }

  /**
   * After a run, the merge removes from the pool exactly the rows marked in
   * the run whose frame is kept: a row marked in a skipped frame, or in
   * end_frame itself, stays in the pool, and so does every unmarked row.
   */
  lemma ConsumedExactly(rows: seq<Detection>, start: int, s: State, pid: string, end: int, i: nat)
    requires Inv(rows, start, s) && i < |rows|
    ensures MatchesTrack(rows, s.marked, i, BuildTrack(rows, s.marked, pid, start, end, s.skipped), pid)
      <==> i in s.marked && rows[i].frame < end && rows[i].frame !in s.skipped
  {
    var t := BuildTrack(rows, s.marked, pid, start, end, s.skipped);
    BuildTrackShape(rows, start, s, pid, end);
    if MatchesTrack(rows, s.marked, i, t, pid) {
      var k :| 0 <= k < |t| && t[k] == TrackRow(rows[i].frame, Some(rows[i].box), pid);
      assert t[k].frame == rows[i].frame;
    }
  }

  /** The unmatched positions are listed in increasing order. */
  lemma {:induction false} LeftOnlyIncreasing(matched: seq<bool>, from: nat)
    requires from <= |matched|
    ensures forall j, k :: 0 <= j < k < |LeftOnlyPositions(matched, from)| ==>
      LeftOnlyPositions(matched, from)[j] < LeftOnlyPositions(matched, from)[k]
    decreases |matched| - from
  {
    if from < |matched| {
      LeftOnlyIncreasing(matched, from + 1);
      var rest := LeftOnlyPositions(matched, from + 1);
      if !matched[from] {
        var idx := [from] + rest;
        assert LeftOnlyPositions(matched, from) == idx;
        forall j, k | 0 <= j < k < |idx|
          ensures idx[j] < idx[k]
        {
          assert idx[k] == rest[k - 1];
          if j > 0 {
            assert idx[j] == rest[j - 1];
          }
        }
      }
    }
  }

  /** A position is listed exactly when its indicator is false. */
  lemma {:induction false} LeftOnlyMembers(matched: seq<bool>, from: nat)
    requires from <= |matched|
    ensures forall i :: from <= i < |matched| ==> (i in LeftOnlyPositions(matched, from) <==> !matched[i])
    decreases |matched| - from
  {
    if from < |matched| {
      LeftOnlyMembers(matched, from + 1);
      var rest := LeftOnlyPositions(matched, from + 1);
      assert from !in rest;
    }
  }

  /** The pool rows left after removal are, in pool order, exactly those no track row matches; idx gives their positions. */
  lemma RemainingSelect(rows: seq<Detection>, marked: set<nat>, track: seq<TrackRow>, pid: string)
    returns (idx: seq<nat>)
    ensures |idx| == |Remaining(rows, marked, track, pid)|
    ensures forall j :: 0 <= j < |idx| ==> idx[j] < |rows| && Remaining(rows, marked, track, pid)[j] == rows[idx[j]]
    ensures forall j, k :: 0 <= j < k < |idx| ==> idx[j] < idx[k]
    ensures forall i :: 0 <= i < |rows| ==> (i in idx <==> !MatchesTrack(rows, marked, i, track, pid))
  {
    var m := Matched(rows, marked, track, pid);
    idx := LeftOnlyPositions(m, 0);
    LeftOnlyIncreasing(m, 0);
    LeftOnlyMembers(m, 0);
  }

  /** Removing matched rows keeps the pool in load order. */
  lemma RemainingSorted(rows: seq<Detection>, marked: set<nat>, track: seq<TrackRow>, pid: string)
    requires SortedByFrameXmin(rows)
    ensures SortedByFrameXmin(Remaining(rows, marked, track, pid))
  {
    var idx := RemainingSelect(rows, marked, track, pid);
    var r := Remaining(rows, marked, track, pid);
    forall j, k | 0 <= j < k < |r|
      ensures r[j].frame < r[k].frame || (r[j].frame == r[k].frame && r[j].box.xmin <= r[k].box.xmin)
    {
      assert r[j] == rows[idx[j]] && r[k] == rows[idx[k]] && idx[j] < idx[k];
    }
  }

  /** The final check as written holds for every decision, so every run that reaches it is dropped. */
  lemma FinalCheckAlwaysDrops(d: Decision)
    ensures FinalCheckDropsAsWritten(d)
  {
  }

  /** With the final check as written no run is ever accepted. */
  lemma AsWrittenNeverAccepts(rows: seq<Detection>, pid: string, start: int, end: int, answers: seq<Decision>, o: Outcome)
    ensures !Finish(rows, pid, start, end, answers, o, FinalCheckDropsAsWritten).Accepted?
  {
  }

  /**
   * With the corrected final check a run is accepted exactly when it was not
   * terminated, its track is non-empty with a known last box, and the final
   * answer is neither No nor Terminate and Drop; the accepted track is the built one.
   */
  lemma FinishAccepts(rows: seq<Detection>, pid: string, start: int, end: int, answers: seq<Decision>, s: State)
    ensures var r := Finish(rows, pid, start, end, answers, Ok(s), FinalCheckDrops);
      var t := BuildTrack(rows, s.marked, pid, start, end, s.skipped);
      r.Accepted? <==>
        !s.terminated && |t| > 0 && t[|t| - 1].box.Some? &&
        Answer(answers, s.asked) != No && Answer(answers, s.asked) != Terminate
    ensures Finish(rows, pid, start, end, answers, Ok(s), FinalCheckDrops).Accepted? ==>
      Finish(rows, pid, start, end, answers, Ok(s), FinalCheckDrops) ==
        Accepted(BuildTrack(rows, s.marked, pid, start, end, s.skipped), s.marked)
  {
  }

  /** A terminated run is dropped whatever the final answer; an unbound anchor is a crash. */
  lemma FinishDrops(rows: seq<Detection>, pid: string, start: int, end: int, answers: seq<Decision>, o: Outcome)
    ensures o.Ok? && o.state.terminated ==> Finish(rows, pid, start, end, answers, o, FinalCheckDrops) == Dropped
    ensures o.Unbound? ==> Finish(rows, pid, start, end, answers, o, FinalCheckDrops) == Crashed(UnboundAnchor)
  {
  }

  /** The corrected exit drops every terminated run, wherever it stopped, and changes nothing else. */
  lemma BreakOnTerminateDrops(rows: seq<Detection>, pid: string, start: int, end: int, answers: seq<Decision>, o: Outcome)
    ensures o.state.terminated ==>
      Finish(rows, pid, start, end, answers, BreakOnTerminate(o), FinalCheckDrops) == Dropped
    ensures !o.state.terminated ==> BreakOnTerminate(o) == o
    ensures o.Ok? ==> BreakOnTerminate(o) == o
  {
  }

  /**
   * Terminate and Drop on the first detection of the first frame, as the
   * loop is written: the tracking step reads the unbound anchor and the run
   * raises instead of recording a dropped interval.
   */
  lemma TerminateFirstCrashesAsWritten(cfg: Config, rows: seq<Detection>, pid: string, start: int, end: int, answers: seq<Decision>)
    requires cfg.skipFollow >= 1 && start < end && Present(rows, start) && Answer(answers, 0) == Terminate
    ensures Finish(rows, pid, start, end, answers, Run(cfg, end, rows, answers, Initial(start)), FinalCheckDrops) ==
      Crashed(UnboundAnchor)
  {
    TerminateWithoutAnchorUnbound(cfg, end, rows, answers, Initial(start));
  }

  /** The same run with the corrected exit is dropped. */
  lemma TerminateFirstDropped(cfg: Config, rows: seq<Detection>, pid: string, start: int, end: int, answers: seq<Decision>)
    requires cfg.skipFollow >= 1 && start < end && Present(rows, start) && Answer(answers, 0) == Terminate
    ensures TrackPersonRun(cfg, rows, pid, start, end, answers) == Dropped
  {
    TerminateWithoutAnchorUnbound(cfg, end, rows, answers, Initial(start));
  }

  /**
   * An accepted run's track covers exactly the kept frames in increasing
   * order under one personID, its last box is known, and it holds the box of
   * every row marked in a kept frame; its marks lie in [start, end] with at
   * most one per frame.
   */
  lemma AcceptedTrack(cfg: Config, rows: seq<Detection>, pid: string, start: int, end: int, answers: seq<Decision>)
    requires cfg.skipFollow >= 1
    ensures var r := TrackPersonRun(cfg, rows, pid, start, end, answers);
      r.Accepted? ==>
        var t := r.track;
        var s := Run(cfg, end, rows, answers, Initial(start)).state;
        Inv(rows, start, s) && r.marked == s.marked &&
        |t| > 0 && t[|t| - 1].box.Some? &&
        TrackShape(rows, start, end, s, pid, t)
  {
    var o := Run(cfg, end, rows, answers, Initial(start));
    RunFromStartInv(cfg, end, rows, answers, start);
    if o.Ok? {
      var s := o.state;
      FinishAccepts(rows, pid, start, end, answers, s);
      BuildTrackShape(rows, start, s, pid, end);
    }
  }
}
