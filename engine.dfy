/**
 * The anchor-based tracking state machine of PersonTracker.__track_person,
 * as pure transition functions. The loops that run them are in
 * TrackingLoop; the properties are in EngineProperties.
 */
module Engine {
  import opened Wrappers
  import opened Overlap
  import opened Proposals

  /** An answer of the confirmation window: its four buttons, or Closed when the window is shut without one (get_result() is None). */
  datatype Decision = Yes | No | Skip | Terminate | Closed

  /** The k-th answer of the scripted annotator; a script that has run out answers Closed. */
  function Answer(answers: seq<Decision>, k: nat): Decision
  {
    if k < |answers| then answers[k] else Closed
  }

  /** Answers after which anchor setup keeps prompting at the same frame. */
  predicate Undecided(d: Decision) { d == No || d == Closed }

  /** The tracker's constructor parameters: skip_prev_f, skip_follow_f, overlap_upper, overlap_lower. */
  datatype Config = Config(skipPrev: int, skipFollow: int, overlapUpper: real, overlapLower: real)

  /**
   * The locals of __track_person. `anchor` is None while anchor_coord is
   * unbound, `confusing` None while confusing_anchor is False, `marked`
   * the pool positions whose personID this run has set, `asked` the number
   * of windows shown so far.
   */
  datatype State = State(
    f: int,
    selectNewAnchor: bool,
    anchor: Option<Box>,
    confusing: Option<Box>,
    terminated: bool,
    skipped: seq<int>,
    marked: set<nat>,
    asked: nat)

  function Initial(start: int): State
  {
    State(start, true, None, None, false, [], {}, 0)
  }

  /** Unbound: the run read anchor_coord before any assignment (an UnboundLocalError in the source). */
  datatype Outcome = Unbound(state: State) | Ok(state: State)

  predicate ValidIndices(rows: seq<Detection>, idxs: seq<nat>)
  {
    forall j :: 0 <= j < |idxs| ==> idxs[j] < |rows|
  }

  /** Fields only grow along a run: the frame pointer, the skip list (by appending), the assignments, the prompts shown. */
  ghost predicate Grows(s: State, r: State)
  {
    s.f <= r.f && s.skipped <= r.skipped && s.marked <= r.marked &&
    s.asked <= r.asked && (s.terminated ==> r.terminated)
  }

  // ---------------------------------------------------------------- anchor setup

  /** One detection of the anchor-setup scan; `show` is the source's show_window. */
  function ScanOne(rows: seq<Detection>, answers: seq<Decision>, s: State, show: bool, i: nat): (State, bool)
    requires i < |rows|
  {
    var box := rows[i].box;
    if !show then (s.(confusing := Some(box)), false)
    else
      var t := s.(asked := s.asked + 1);
      match Answer(answers, s.asked)
      case Yes => (t.(anchor := Some(box), marked := t.marked + {i}, selectNewAnchor := false, f := t.f + 1), false)
      case No => (t.(confusing := Some(box)), true)
      case Skip => (t, false)
      case Terminate => (t.(terminated := true, selectNewAnchor := false), false)
      case Closed => (t, true)
  }

  /** The scan over the detections of one frame, in pool order. */
  function ScanFrame(rows: seq<Detection>, answers: seq<Decision>, s: State, show: bool, idxs: seq<nat>): (State, bool)
    requires ValidIndices(rows, idxs)
    decreases |idxs|
  {
    if idxs == [] then (s, show)
    else
      var p := ScanOne(rows, answers, s, show, idxs[0]);
      ScanFrame(rows, answers, p.0, p.1, idxs[1..])
  }

  /** The skip window [max(1, f - skip_prev_f), min(f + skip_follow_f, end)] appended after a frame without an anchor; f moves to its end. */
  function SkipWindow(cfg: Config, end: int, s: State): State
  {
    var lo := IntMax(1, s.f - cfg.skipPrev);
    var hi := IntMin(s.f + cfg.skipFollow, end);
    s.(skipped := s.skipped + Range(lo, hi + 1), f := hi)
  }

  /** Anchor setup at a present frame: the scan, then the automatic skip when no anchor was chosen. */
  function SetupFrame(cfg: Config, end: int, rows: seq<Detection>, answers: seq<Decision>, s: State): State
  {
    var t := ScanFrame(rows, answers, s, true, FrameIndices(rows, s.f)).0;
    if t.selectNewAnchor then SkipWindow(cfg, end, t) else t
  }

  /** The shapes a scan can end in: nothing decided, Yes (f advanced) or Terminate. */
  predicate ScanShape(f0: int, s: State, show: bool)
  {
    (show ==> s.selectNewAnchor && !s.terminated && s.f == f0) &&
    ((s.selectNewAnchor && !s.terminated && s.f == f0) ||
     (!s.selectNewAnchor && !s.terminated && s.f == f0 + 1) ||
     (!s.selectNewAnchor && s.terminated && s.f == f0))
  }

  lemma {:induction false} ScanFrameShape(rows: seq<Detection>, answers: seq<Decision>, s: State, show: bool, idxs: seq<nat>, f0: int)
    requires ValidIndices(rows, idxs) && ScanShape(f0, s, show)
    ensures ScanShape(f0, ScanFrame(rows, answers, s, show, idxs).0, ScanFrame(rows, answers, s, show, idxs).1)
    ensures Grows(s, ScanFrame(rows, answers, s, show, idxs).0)
    ensures ScanFrame(rows, answers, s, show, idxs).0.skipped == s.skipped
    decreases |idxs|
  {
    if idxs != [] {
      var p := ScanOne(rows, answers, s, show, idxs[0]);
      ScanFrameShape(rows, answers, p.0, p.1, idxs[1..], f0);
    }
  }

  /** Anchor setup at a frame either advances f or terminates; it never moves f back. */
  lemma SetupFrameProgress(cfg: Config, end: int, rows: seq<Detection>, answers: seq<Decision>, s: State)
    requires cfg.skipFollow >= 1 && s.selectNewAnchor && !s.terminated && s.f < end
    ensures Grows(s, SetupFrame(cfg, end, rows, answers, s))
    ensures SetupFrame(cfg, end, rows, answers, s).f > s.f || SetupFrame(cfg, end, rows, answers, s).terminated
  {
    ScanFrameShape(rows, answers, s, true, FrameIndices(rows, s.f), s.f);
  }

  /** The inner `while select_new_anchor` loop: setup frames until an anchor is set, the run is terminated or f reaches end. */
  function SetupPhase(cfg: Config, end: int, rows: seq<Detection>, answers: seq<Decision>, s: State): (r: State)
    requires cfg.skipFollow >= 1
    ensures Grows(s, r)
    ensures s.selectNewAnchor && !s.terminated && s.f < end ==> r.f > s.f || r.terminated
    decreases end - s.f, if s.terminated || !s.selectNewAnchor then 0 else 1
  {
    if s.selectNewAnchor && !s.terminated && s.f < end then
      if !Present(rows, s.f) then SetupPhase(cfg, end, rows, answers, s.(f := s.f + 1))
      else
        var t := SetupFrame(cfg, end, rows, answers, s);
        SetupFrameProgress(cfg, end, rows, answers, s);
        SetupPhase(cfg, end, rows, answers, t)
    else s
  }

  // ---------------------------------------------------------------- tracking

  /** overlappings: the share of the anchor covered by each detection of the frame. */
  function Overlaps(rows: seq<Detection>, idxs: seq<nat>, anchor: Box): seq<real>
    requires ValidIndices(rows, idxs)
  {
    seq(|idxs|, j requires 0 <= j < |idxs| => IntersectionRatio(rows[idxs[j]].box, anchor))
  }

  /** confusion: the share of the confusing anchor covered by each detection, 0 without one. */
  function Confusions(rows: seq<Detection>, idxs: seq<nat>, confusing: Option<Box>): seq<real>
    requires ValidIndices(rows, idxs)
  {
    seq(|idxs|, j requires 0 <= j < |idxs| =>
      if confusing.Some? then IntersectionRatio(rows[idxs[j]].box, confusing.value) else 0.0)
  }

  /**
   * The last element of a stable ascending sort by value: the greatest
   * value, the latest position among equal greatest values.
   */
  function BestPos(ov: seq<real>): (b: nat)
    requires |ov| > 0
    ensures b < |ov|
    ensures forall j :: 0 <= j < |ov| ==> ov[j] <= ov[b]
    ensures forall j :: b < j < |ov| ==> ov[j] < ov[b]
  {
    if |ov| == 1 then 0
    else
      var b := BestPos(ov[..|ov| - 1]);
      assert forall j :: 0 <= j < |ov| - 1 ==> ov[..|ov| - 1][j] == ov[j];
      if ov[|ov| - 1] >= ov[b] then |ov| - 1 else b
  }

  /** The next-to-last element of that sort: the best position once `b` is set aside. */
  function SecondPos(ov: seq<real>, b: nat): (c: nat)
    requires 1 < |ov| && b < |ov|
    ensures c < |ov| && c != b
    ensures forall j :: 0 <= j < |ov| && j != b ==> ov[j] <= ov[c]
    ensures forall j :: c < j < |ov| && j != b ==> ov[j] < ov[c]
  {
    var c := BestPos(ov[..b] + ov[b + 1..]);
    SecondPosShift(ov, b, c);
    Unskip(c, b)
  }

  /** Position `c` of `ov` with position `b` removed, as a position of `ov`. */
  function Unskip(c: nat, b: nat): nat
  {
    if c < b then c else c + 1
  }

  /** The best position of `ov` without `b`, mapped back into `ov`, is the best of the others. */
  lemma SecondPosShift(ov: seq<real>, b: nat, c: nat)
    requires 1 < |ov| && b < |ov| && c == BestPos(ov[..b] + ov[b + 1..])
    ensures Unskip(c, b) < |ov| && Unskip(c, b) != b
    ensures forall j :: 0 <= j < |ov| && j != b ==> ov[j] <= ov[Unskip(c, b)]
    ensures forall j :: Unskip(c, b) < j < |ov| && j != b ==> ov[j] < ov[Unskip(c, b)]
  {
    var rest := ov[..b] + ov[b + 1..];
    var d := Unskip(c, b);
    assert ov[d] == rest[c];
    forall j | 0 <= j < |ov| && j != b
      ensures ov[j] <= ov[d]
    {
      var k := if j < b then j else j - 1;
      assert rest[k] == ov[j];
    }
    forall j | d < j < |ov| && j != b
      ensures ov[j] < ov[d]
    {
      var k := if j < b then j else j - 1;
      assert rest[k] == ov[j] && c < k;
    }
  }

  /** The verdict of a tracking step: target not found (2.1), back to anchor setup (2.2, 2.4), or take a detection (2.5). */
  datatype Verdict = NotFound | Reset | Take(pos: nat)

  /** The decision rules on the scores of one frame, in the source's order. */
  function Decide(cfg: Config, ov: seq<real>, conf: seq<real>): (v: Verdict)
    requires 0 < |ov| == |conf|
    ensures v.NotFound? <==> forall j :: 0 <= j < |ov| ==> ov[j] <= cfg.overlapLower
    ensures v.Take? ==> v.pos < |ov| && ov[v.pos] > cfg.overlapLower
    ensures v.Take? ==> forall j :: 0 <= j < |ov| ==> ov[j] <= ov[v.pos]
    ensures v.Take? ==> v.pos == BestPos(ov)
    ensures |ov| == 1 ==> (v.Take? <==> ov[0] > cfg.overlapLower && ov[0] >= cfg.overlapUpper)
    ensures |ov| == 1 ==> (v.Reset? <==> cfg.overlapLower < ov[0] < cfg.overlapUpper)
    ensures |ov| > 1 ==>
      (v.Reset? <==> ov[BestPos(ov)] > cfg.overlapLower &&
                     ov[SecondPos(ov, BestPos(ov))] >= cfg.overlapLower &&
                     conf[SecondPos(ov, BestPos(ov))] < cfg.overlapLower)
  {
    var b := BestPos(ov);
    if ov[b] <= cfg.overlapLower then NotFound
    else if |ov| > 1 then
      var c := SecondPos(ov, b);
      if ov[c] >= cfg.overlapLower && conf[c] < cfg.overlapLower then Reset else Take(b)
    else if ov[b] < cfg.overlapUpper then Reset
    else Take(b)
  }

  /** Case 2.5: the detection at pool position `i` gets the personID and becomes the anchor. */
  function Assign(rows: seq<Detection>, s: State, i: nat): State
    requires i < |rows|
  {
    s.(marked := s.marked + {i}, anchor := Some(rows[i].box), f := s.f + 1)
  }

  /** One tracking step at a present frame (the source's cases 2.1, 2.2, 2.4 and 2.5). */
  function TrackFrame(cfg: Config, rows: seq<Detection>, s: State): Outcome
    requires Present(rows, s.f)
  {
    if s.anchor.None? then Unbound(s)
    else
      var idxs := FrameIndices(rows, s.f);
      match Decide(cfg, Overlaps(rows, idxs, s.anchor.value), Confusions(rows, idxs, s.confusing))
      case NotFound => Ok(s.(f := s.f + 1))
      case Reset => Ok(s.(selectNewAnchor := true))
      case Take(p) => Ok(Assign(rows, s, idxs[p]))
  }

  /** TrackFrame applies the verdict of Decide. */
  lemma TrackFrameVerdict(cfg: Config, rows: seq<Detection>, s: State)
    requires Present(rows, s.f) && s.anchor.Some?
    ensures var idxs := FrameIndices(rows, s.f);
      var v := Decide(cfg, Overlaps(rows, idxs, s.anchor.value), Confusions(rows, idxs, s.confusing));
      TrackFrame(cfg, rows, s) ==
        if v.NotFound? then Ok(s.(f := s.f + 1))
        else if v.Reset? then Ok(s.(selectNewAnchor := true))
        else Ok(Assign(rows, s, idxs[v.pos]))
  {
  }

  // ---------------------------------------------------------------- the outer loop

  /** One iteration of the outer `while`: step over a missing frame, or anchor setup then one tracking step. */
  function OuterStep(cfg: Config, end: int, rows: seq<Detection>, answers: seq<Decision>, s: State): Outcome
    requires cfg.skipFollow >= 1
  {
    if !Present(rows, s.f) then Ok(s.(f := s.f + 1))
    else
      var t := SetupPhase(cfg, end, rows, answers, s);
      if !Present(rows, t.f) then Ok(t.(f := t.f + 1))
      else TrackFrame(cfg, rows, t)
  }

  /** A tracking step advances f by one, or keeps f and asks for a new anchor. */
  lemma TrackFrameProgress(cfg: Config, rows: seq<Detection>, s: State)
    requires Present(rows, s.f)
    ensures TrackFrame(cfg, rows, s).Ok? ==>
      var r := TrackFrame(cfg, rows, s).state;
      Grows(s, r) && r.terminated == s.terminated &&
      (r.f == s.f + 1 || (r.f == s.f && r.selectNewAnchor))
  {
  }

  lemma OuterStepProgress(cfg: Config, end: int, rows: seq<Detection>, answers: seq<Decision>, s: State)
    requires cfg.skipFollow >= 1 && !s.terminated && s.f < end
    ensures OuterStep(cfg, end, rows, answers, s).Ok? ==>
      var r := OuterStep(cfg, end, rows, answers, s).state;
      Grows(s, r) &&
      (r.f > s.f || r.terminated || (r.f == s.f && r.selectNewAnchor && !s.selectNewAnchor))
  {
    if Present(rows, s.f) {
      var t := SetupPhase(cfg, end, rows, answers, s);
      assert !s.selectNewAnchor ==> t == s;
      if Present(rows, t.f) {
        TrackFrameProgress(cfg, rows, t);
      }
    }
  }

  /** The whole `while (not Terminated) and (f < end_frame)` loop. */
  function Run(cfg: Config, end: int, rows: seq<Detection>, answers: seq<Decision>, s: State): Outcome
    requires cfg.skipFollow >= 1
    decreases end - s.f, (if s.terminated then 0 else 1), (if s.selectNewAnchor then 0 else 1)
  {
    if s.terminated || s.f >= end then Ok(s)
    else
      var o := OuterStep(cfg, end, rows, answers, s);
      OuterStepProgress(cfg, end, rows, answers, s);
      if o.Unbound? then o else Run(cfg, end, rows, answers, o.state)
  }

  /** One iteration of the outer loop, taken out of Run. */
  lemma RunUnfold(cfg: Config, end: int, rows: seq<Detection>, answers: seq<Decision>, s: State)
    requires cfg.skipFollow >= 1 && !s.terminated && s.f < end
    ensures var o := OuterStep(cfg, end, rows, answers, s);
      Run(cfg, end, rows, answers, s) == if o.Unbound? then o else Run(cfg, end, rows, answers, o.state)
  {
  }
}
