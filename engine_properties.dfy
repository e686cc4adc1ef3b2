/** What the tracking state machine of Engine guarantees, step by step and over a whole run. */
module EngineProperties {
  import opened Wrappers
  import opened Overlap
  import opened Proposals
  import opened Engine

  // ---------------------------------------------------------------- anchor setup

  /** The j answers from the k-th on are all No or Closed. */
  predicate UndecidedFrom(answers: seq<Decision>, k: nat, j: nat)
  {
    forall m :: k <= m < k + j ==> Undecided(Answer(answers, m))
  }

  /** Prompts answered No or Closed keep the window showing; only `asked` and the confusing anchor change, and a No leaves its box as the confusing anchor. */
  lemma {:induction false} ScanPrefix(rows: seq<Detection>, answers: seq<Decision>, s: State, idxs: seq<nat>, j: nat)
    returns (t: State)
    requires ValidIndices(rows, idxs) && j <= |idxs|
    requires UndecidedFrom(answers, s.asked, j)
    ensures ScanFrame(rows, answers, s, true, idxs) == ScanFrame(rows, answers, t, true, idxs[j..])
    ensures t == s.(asked := s.asked + j, confusing := t.confusing)
    ensures 0 < j && Answer(answers, s.asked + j - 1) == No ==> t.confusing == Some(rows[idxs[j - 1]].box)
  {
    if j == 0 {
      t := s;
    } else {
      var t0 := ScanPrefix(rows, answers, s, idxs, j - 1);
      assert idxs[j - 1..][0] == idxs[j - 1] && idxs[j - 1..][1..] == idxs[j..];
      var p := ScanOne(rows, answers, t0, true, idxs[j - 1]);
      assert p.1;
      t := p.0;
    }
  }

  /** Once the frame is decided no window is shown: each remaining detection only overwrites the confusing anchor. */
  lemma {:induction false} ScanSilent(rows: seq<Detection>, answers: seq<Decision>, s: State, idxs: seq<nat>)
    requires ValidIndices(rows, idxs)
    ensures ScanFrame(rows, answers, s, false, idxs) ==
      (s.(confusing := if idxs == [] then s.confusing else Some(rows[idxs[|idxs| - 1]].box)), false)
    decreases |idxs|
  {
    if idxs != [] {
      ScanSilent(rows, answers, s.(confusing := Some(rows[idxs[0]].box)), idxs[1..]);
    }
  }

  /** The scan once the j-th window is answered and the ones before were No or Closed. */
  lemma ScanDecided(rows: seq<Detection>, answers: seq<Decision>, s: State, idxs: seq<nat>, j: nat)
    returns (t: State)
    requires ValidIndices(rows, idxs) && j < |idxs| && UndecidedFrom(answers, s.asked, j)
    requires !Undecided(Answer(answers, s.asked + j))
    ensures t == s.(asked := s.asked + j, confusing := t.confusing)
    ensures ScanFrame(rows, answers, s, true, idxs).0 ==
      var u := ScanOne(rows, answers, t, true, idxs[j]).0;
      u.(confusing := if j + 1 < |idxs| then Some(rows[idxs[|idxs| - 1]].box) else u.confusing)
  {
    t := ScanPrefix(rows, answers, s, idxs, j);
    assert idxs[j..][0] == idxs[j] && idxs[j..][1..] == idxs[j + 1..];
    var p := ScanOne(rows, answers, t, true, idxs[j]);
    assert !p.1;
    ScanSilent(rows, answers, p.0, idxs[j + 1..]);
    if j + 1 < |idxs| {
      assert idxs[j + 1..][|idxs[j + 1..]| - 1] == idxs[|idxs| - 1];
    }
  }

  /**
   * Anchor setup, Yes: when the first answer at the frame that is not No or
   * Closed is a Yes for its j-th detection, that detection becomes the anchor
   * and the only row marked, f advances by one, no further window is shown at
   * the frame, and a later detection of the frame, if any, is left as the
   * confusing anchor.
   */
  lemma SetupConfirm(cfg: Config, end: int, rows: seq<Detection>, answers: seq<Decision>, s: State, j: nat)
    requires s.selectNewAnchor && !s.terminated && j < |FrameIndices(rows, s.f)|
    requires UndecidedFrom(answers, s.asked, j)
    requires Answer(answers, s.asked + j) == Yes
    ensures var idxs := FrameIndices(rows, s.f);
      var r := SetupFrame(cfg, end, rows, answers, s);
      r == s.(anchor := Some(rows[idxs[j]].box), marked := s.marked + {idxs[j]}, selectNewAnchor := false,
              f := s.f + 1, asked := s.asked + j + 1, confusing := r.confusing) &&
      (j + 1 < |idxs| ==> r.confusing == Some(rows[idxs[|idxs| - 1]].box))
  {
    var idxs := FrameIndices(rows, s.f);
    var t := ScanDecided(rows, answers, s, idxs, j);
  }

  /**
   * Anchor setup without an anchor: when every window at the frame is
   * answered No or Closed (j = number of detections), or the first other
   * answer is Skip, the window [max(1, f - skip_prev_f), min(f + skip_follow_f, end)]
   * is appended to the skip list and f moves to its end; anchor, marks and
   * termination are untouched.
   */
  lemma SetupNoAnchor(cfg: Config, end: int, rows: seq<Detection>, answers: seq<Decision>, s: State, j: nat)
    requires s.selectNewAnchor && !s.terminated && j <= |FrameIndices(rows, s.f)|
    requires UndecidedFrom(answers, s.asked, j)
    requires j == |FrameIndices(rows, s.f)| || Answer(answers, s.asked + j) == Skip
    ensures var hi := IntMin(s.f + cfg.skipFollow, end);
      var r := SetupFrame(cfg, end, rows, answers, s);
      r == s.(skipped := s.skipped + Range(IntMax(1, s.f - cfg.skipPrev), hi + 1), f := hi,
              asked := r.asked, confusing := r.confusing) &&
      r.asked == s.asked + (if j == |FrameIndices(rows, s.f)| then j else j + 1)
  {
    var idxs := FrameIndices(rows, s.f);
    var sc := ScanFrame(rows, answers, s, true, idxs).0;
    ScanNoAnchor(rows, answers, s, idxs, j);
    assert SetupFrame(cfg, end, rows, answers, s) == SkipWindow(cfg, end, sc);
  }

  /** The scan of a frame whose windows are all No or Closed, or whose first other answer is Skip, changes only the prompt count and the confusing anchor. */
  lemma ScanNoAnchor(rows: seq<Detection>, answers: seq<Decision>, s: State, idxs: seq<nat>, j: nat)
    requires ValidIndices(rows, idxs) && j <= |idxs|
    requires UndecidedFrom(answers, s.asked, j)
    requires j == |idxs| || Answer(answers, s.asked + j) == Skip
    ensures var sc := ScanFrame(rows, answers, s, true, idxs).0;
      sc == s.(asked := s.asked + (if j == |idxs| then j else j + 1), confusing := sc.confusing)
  {
    if j < |idxs| {
      var t := ScanDecided(rows, answers, s, idxs, j);
    } else {
      var t := ScanPrefix(rows, answers, s, idxs, j);
      assert idxs[j..] == [];
    }
  }

  /** Anchor setup, Terminate: the run is marked terminated at the same frame; nothing else but the prompt count and the confusing anchor changes. */
  lemma SetupTerminate(cfg: Config, end: int, rows: seq<Detection>, answers: seq<Decision>, s: State, j: nat)
    requires s.selectNewAnchor && !s.terminated && j < |FrameIndices(rows, s.f)|
    requires UndecidedFrom(answers, s.asked, j)
    requires Answer(answers, s.asked + j) == Terminate
    ensures var r := SetupFrame(cfg, end, rows, answers, s);
      r == s.(terminated := true, selectNewAnchor := false, asked := s.asked + j + 1, confusing := r.confusing)
  {
    var idxs := FrameIndices(rows, s.f);
    var t := ScanDecided(rows, answers, s, idxs, j);
  }

  // ---------------------------------------------------------------- tracking

  /** Frames with no detection are stepped over: only f changes. */
  lemma MissingFrameStepped(cfg: Config, end: int, rows: seq<Detection>, answers: seq<Decision>, s: State)
    requires cfg.skipFollow >= 1 && !Present(rows, s.f) && !s.terminated && s.f < end
    ensures Run(cfg, end, rows, answers, s) == Run(cfg, end, rows, answers, s.(f := s.f + 1))
  {
    assert OuterStep(cfg, end, rows, answers, s) == Ok(s.(f := s.f + 1));
  }

  /** Case 2.1: when no detection covers more than overlap_lower of the anchor, nothing is marked, the anchor stays, f advances. */
  lemma TrackNotFound(cfg: Config, rows: seq<Detection>, s: State)
    requires Present(rows, s.f) && s.anchor.Some?
    requires forall j :: 0 <= j < |FrameIndices(rows, s.f)| ==>
      IntersectionRatio(rows[FrameIndices(rows, s.f)[j]].box, s.anchor.value) <= cfg.overlapLower
    ensures TrackFrame(cfg, rows, s) == Ok(s.(f := s.f + 1))
  {
    var idxs := FrameIndices(rows, s.f);
    var ov := Overlaps(rows, idxs, s.anchor.value);
    assert forall j :: 0 <= j < |ov| ==> ov[j] <= cfg.overlapLower;
    assert Decide(cfg, ov, Confusions(rows, idxs, s.confusing)) == NotFound;
    TrackFrameVerdict(cfg, rows, s);
  }

  /**
   * Case 2.2: when the best overlap exceeds overlap_lower and the runner-up
   * (the next-to-last of the stable sort) reaches overlap_lower while covering
   * less than overlap_lower of the confusing anchor, anchor setup restarts at
   * the same frame.
   */
  lemma TrackAmbiguous(cfg: Config, rows: seq<Detection>, s: State)
    requires Present(rows, s.f) && s.anchor.Some? && |FrameIndices(rows, s.f)| > 1
    requires var idxs := FrameIndices(rows, s.f);
      var ov := Overlaps(rows, idxs, s.anchor.value);
      var c := SecondPos(ov, BestPos(ov));
      ov[BestPos(ov)] > cfg.overlapLower && ov[c] >= cfg.overlapLower &&
      Confusions(rows, idxs, s.confusing)[c] < cfg.overlapLower
    ensures TrackFrame(cfg, rows, s) == Ok(s.(selectNewAnchor := true))
  {
  }

  /** Case 2.4, tried only for a lone detection: one covering more than overlap_lower but less than overlap_upper of the anchor restarts anchor setup at the same frame. */
  lemma TrackMovedSingle(cfg: Config, rows: seq<Detection>, s: State)
    requires Present(rows, s.f) && s.anchor.Some? && |FrameIndices(rows, s.f)| == 1
    requires var ov := IntersectionRatio(rows[FrameIndices(rows, s.f)[0]].box, s.anchor.value);
      cfg.overlapLower < ov < cfg.overlapUpper
    ensures TrackFrame(cfg, rows, s) == Ok(s.(selectNewAnchor := true))
  {
    var idxs := FrameIndices(rows, s.f);
    assert BestPos(Overlaps(rows, idxs, s.anchor.value)) == 0;
  }

  /**
   * With several detections the overlap_upper test is never applied: when
   * the best detection covers more than overlap_lower of the anchor and
   * case 2.2 does not fire, it is taken, whether or not it reaches
   * overlap_upper.
   */
  lemma TrackUpperIgnoredForSeveral(cfg: Config, rows: seq<Detection>, s: State)
    requires Present(rows, s.f) && s.anchor.Some? && |FrameIndices(rows, s.f)| > 1
    requires var idxs := FrameIndices(rows, s.f);
      var ov := Overlaps(rows, idxs, s.anchor.value);
      var c := SecondPos(ov, BestPos(ov));
      ov[BestPos(ov)] > cfg.overlapLower &&
      !(ov[c] >= cfg.overlapLower && Confusions(rows, idxs, s.confusing)[c] < cfg.overlapLower)
    ensures var idxs := FrameIndices(rows, s.f);
      TrackFrame(cfg, rows, s) == Ok(Assign(rows, s, idxs[BestPos(Overlaps(rows, idxs, s.anchor.value))]))
  {
  }

  /** The j-th detection of idxs has the greatest overlap with the anchor, above overlap_lower, and at least overlap_upper when it is alone. */
  ghost predicate BestMatch(cfg: Config, rows: seq<Detection>, idxs: seq<nat>, anchor: Box, j: nat)
    requires ValidIndices(rows, idxs)
  {
    j < |idxs| &&
    IntersectionRatio(rows[idxs[j]].box, anchor) > cfg.overlapLower &&
    (|idxs| == 1 ==> IntersectionRatio(rows[idxs[j]].box, anchor) >= cfg.overlapUpper) &&
    forall k :: 0 <= k < |idxs| ==>
      IntersectionRatio(rows[idxs[k]].box, anchor) <= IntersectionRatio(rows[idxs[j]].box, anchor)
  }

  /** A Take verdict on the scores of a frame names a best match. */
  lemma TakeIsBest(cfg: Config, rows: seq<Detection>, idxs: seq<nat>, anchor: Box, confusing: Option<Box>)
    requires ValidIndices(rows, idxs) && |idxs| > 0
    ensures var v := Decide(cfg, Overlaps(rows, idxs, anchor), Confusions(rows, idxs, confusing));
      v.Take? ==> BestMatch(cfg, rows, idxs, anchor, v.pos)
  {
    var ov := Overlaps(rows, idxs, anchor);
    assert forall k :: 0 <= k < |idxs| ==> ov[k] == IntersectionRatio(rows[idxs[k]].box, anchor);
  }

  /**
   * Case 2.5: a tracking step with an anchor either steps over the frame,
   * restarts anchor setup at the same frame, or marks exactly one detection
   * of the frame, the j-th: one with the greatest overlap with the anchor
   * (above overlap_lower, and at least overlap_upper when it is alone), which
   * becomes the anchor while f advances.
   */
  lemma TrackAssigns(cfg: Config, rows: seq<Detection>, s: State) returns (j: nat)
    requires Present(rows, s.f) && s.anchor.Some?
    ensures var o := TrackFrame(cfg, rows, s);
      var idxs := FrameIndices(rows, s.f);
      o == Ok(s.(f := s.f + 1)) || o == Ok(s.(selectNewAnchor := true)) ||
      (BestMatch(cfg, rows, idxs, s.anchor.value, j) &&
        o == Ok(Assign(rows, s, idxs[j])))
  {
    var idxs := FrameIndices(rows, s.f);
    var v := Decide(cfg, Overlaps(rows, idxs, s.anchor.value), Confusions(rows, idxs, s.confusing));
    TrackFrameVerdict(cfg, rows, s);
    if v.Take? {
      TakeIsBest(cfg, rows, idxs, s.anchor.value, s.confusing);
      j := v.pos;
    } else {
      j := 0;
    }
  }

  // ---------------------------------------------------------------- whole runs

  /** Over a whole run f never decreases, the skip list only grows at its end, marks are only added. */
  lemma {:induction false} RunGrows(cfg: Config, end: int, rows: seq<Detection>, answers: seq<Decision>, s: State)
    requires cfg.skipFollow >= 1
    ensures Grows(s, Run(cfg, end, rows, answers, s).state)
    decreases end - s.f, (if s.terminated then 0 else 1), (if s.selectNewAnchor then 0 else 1)
  {
    if !s.terminated && s.f < end {
      var o := OuterStep(cfg, end, rows, answers, s);
      OuterStepProgress(cfg, end, rows, answers, s);
      if o.Ok? {
        RunGrows(cfg, end, rows, answers, o.state);
      }
    }
  }

  /** A run that completes stops only when terminated or when f has reached end_frame. */
  lemma {:induction false} RunStops(cfg: Config, end: int, rows: seq<Detection>, answers: seq<Decision>, s: State)
    requires cfg.skipFollow >= 1
    ensures Run(cfg, end, rows, answers, s).Ok? ==>
      Run(cfg, end, rows, answers, s).state.terminated || Run(cfg, end, rows, answers, s).state.f >= end
    decreases end - s.f, (if s.terminated then 0 else 1), (if s.selectNewAnchor then 0 else 1)
  {
    if !s.terminated && s.f < end {
      var o := OuterStep(cfg, end, rows, answers, s);
      OuterStepProgress(cfg, end, rows, answers, s);
      if o.Ok? {
        RunStops(cfg, end, rows, answers, o.state);
      }
    }
  }

  /**
   * Terminate before any anchor was confirmed: the source goes on to the
   * tracking step at the same frame and reads the unbound anchor_coord,
   * with Terminated already set.
   */
  lemma TerminateWithoutAnchorUnbound(cfg: Config, end: int, rows: seq<Detection>, answers: seq<Decision>, s: State)
    requires cfg.skipFollow >= 1 && s.anchor.None? && s.selectNewAnchor && !s.terminated && s.f < end
    requires Present(rows, s.f) && Answer(answers, s.asked) == Terminate
    ensures Run(cfg, end, rows, answers, s).Unbound?
    ensures Run(cfg, end, rows, answers, s).state.terminated
  {
    var t := SetupFrame(cfg, end, rows, answers, s);
    SetupTerminate(cfg, end, rows, answers, s, 0);
    assert SetupPhase(cfg, end, rows, answers, s) == t;
  }

  /** Terminate once an anchor exists: the run completes as terminated. */
  lemma TerminateWithAnchor(cfg: Config, end: int, rows: seq<Detection>, answers: seq<Decision>, s: State)
    requires cfg.skipFollow >= 1 && s.anchor.Some? && s.selectNewAnchor && !s.terminated && s.f < end
    requires Present(rows, s.f) && Answer(answers, s.asked) == Terminate
    ensures Run(cfg, end, rows, answers, s).Ok? && Run(cfg, end, rows, answers, s).state.terminated
  {
    var t := SetupFrame(cfg, end, rows, answers, s);
    SetupTerminate(cfg, end, rows, answers, s, 0);
    assert SetupPhase(cfg, end, rows, answers, s) == t;
    var j := TrackAssigns(cfg, rows, t);
    TrackFrameProgress(cfg, rows, t);
  }

  // ---------------------------------------------------------------- marks

  /** The marks of a run: rows of frames in [start, f), at most one per frame. */
  ghost predicate Inv(rows: seq<Detection>, start: int, s: State)
  {
    s.f >= start &&
    (forall i :: i in s.marked ==> i < |rows| && start <= rows[i].frame < s.f) &&
    (forall i, k :: i in s.marked && k in s.marked && rows[i].frame == rows[k].frame ==> i == k)
  }

  lemma {:induction false} ScanFrameInv(rows: seq<Detection>, answers: seq<Decision>, start: int, s: State, show: bool, idxs: seq<nat>)
    requires ValidIndices(rows, idxs) && Inv(rows, start, s)
    requires show ==> forall j :: 0 <= j < |idxs| ==> rows[idxs[j]].frame == s.f
    ensures Inv(rows, start, ScanFrame(rows, answers, s, show, idxs).0)
    decreases |idxs|
  {
    if idxs != [] {
      var p := ScanOne(rows, answers, s, show, idxs[0]);
      assert p.1 ==> p.0.f == s.f;
      ScanFrameInv(rows, answers, start, p.0, p.1, idxs[1..]);
    }
  }

  lemma SetupFrameInv(cfg: Config, end: int, rows: seq<Detection>, answers: seq<Decision>, start: int, s: State)
    requires cfg.skipFollow >= 1 && s.selectNewAnchor && !s.terminated && s.f < end && Inv(rows, start, s)
    ensures Inv(rows, start, SetupFrame(cfg, end, rows, answers, s))
  {
    ScanFrameInv(rows, answers, start, s, true, FrameIndices(rows, s.f));
    ScanFrameShape(rows, answers, s, true, FrameIndices(rows, s.f), s.f);
  }

  lemma {:induction false} SetupPhaseInv(cfg: Config, end: int, rows: seq<Detection>, answers: seq<Decision>, start: int, s: State)
    requires cfg.skipFollow >= 1 && Inv(rows, start, s)
    ensures Inv(rows, start, SetupPhase(cfg, end, rows, answers, s))
    decreases end - s.f, if s.terminated || !s.selectNewAnchor then 0 else 1
  {
    if s.selectNewAnchor && !s.terminated && s.f < end {
      var t := if Present(rows, s.f) then SetupFrame(cfg, end, rows, answers, s) else s.(f := s.f + 1);
      SetupStepInv(cfg, end, rows, answers, start, s);
      assert SetupPhase(cfg, end, rows, answers, s) == SetupPhase(cfg, end, rows, answers, t);
      SetupPhaseInv(cfg, end, rows, answers, start, t);
    }
  }

  /** One iteration of the setup loop keeps the invariant and makes progress. */
  lemma SetupStepInv(cfg: Config, end: int, rows: seq<Detection>, answers: seq<Decision>, start: int, s: State)
    requires cfg.skipFollow >= 1 && s.selectNewAnchor && !s.terminated && s.f < end && Inv(rows, start, s)
    ensures var t := if Present(rows, s.f) then SetupFrame(cfg, end, rows, answers, s) else s.(f := s.f + 1);
      Inv(rows, start, t) && (t.f > s.f || t.terminated) && s.f <= t.f
  {
    if Present(rows, s.f) {
      SetupFrameProgress(cfg, end, rows, answers, s);
      SetupFrameInv(cfg, end, rows, answers, start, s);
    }
  }

  /** Marking a row of the current frame and advancing f keeps the invariant. */
  lemma AssignInv(rows: seq<Detection>, start: int, s: State, i: nat)
    requires i < |rows| && rows[i].frame == s.f && Inv(rows, start, s)
    ensures Inv(rows, start, Assign(rows, s, i))
  {
  }

  lemma TrackFrameInv(cfg: Config, rows: seq<Detection>, start: int, s: State)
    requires Present(rows, s.f) && Inv(rows, start, s)
    ensures TrackFrame(cfg, rows, s).Ok? ==> Inv(rows, start, TrackFrame(cfg, rows, s).state)
  {
    if s.anchor.Some? {
      var idxs := FrameIndices(rows, s.f);
      match Decide(cfg, Overlaps(rows, idxs, s.anchor.value), Confusions(rows, idxs, s.confusing))
      case NotFound =>
      case Reset =>
      case Take(p) =>
        AssignInv(rows, start, s, idxs[p]);
    }
  }

  /** Over a whole run every marked row lies in a frame in [start, f) and no frame has two marked rows. */
  lemma {:induction false} RunInv(cfg: Config, end: int, rows: seq<Detection>, answers: seq<Decision>, start: int, s: State)
    requires cfg.skipFollow >= 1 && Inv(rows, start, s)
    ensures Inv(rows, start, Run(cfg, end, rows, answers, s).state)
    decreases end - s.f, (if s.terminated then 0 else 1), (if s.selectNewAnchor then 0 else 1)
  {
    if !s.terminated && s.f < end {
      OuterStepProgress(cfg, end, rows, answers, s);
      if Present(rows, s.f) {
        SetupPhaseInv(cfg, end, rows, answers, start, s);
        var t := SetupPhase(cfg, end, rows, answers, s);
        if Present(rows, t.f) {
          TrackFrameInv(cfg, rows, start, t);
        }
      }
      var o := OuterStep(cfg, end, rows, answers, s);
      if o.Ok? {
        RunInv(cfg, end, rows, answers, start, o.state);
      }
    }
  }

  /** A run from the initial state keeps the marks invariant. */
  lemma RunFromStartInv(cfg: Config, end: int, rows: seq<Detection>, answers: seq<Decision>, start: int)
    requires cfg.skipFollow >= 1
    ensures Inv(rows, start, Run(cfg, end, rows, answers, Initial(start)).state)
  {
    RunInv(cfg, end, rows, answers, start, Initial(start));
  }
}
