/**
 * The loops of PersonTracker.__track_person, each proved to compute the
 * transition function of Engine that specifies it.
 */
module TrackingLoop {
  import opened Wrappers
  import opened Overlap
  import opened Proposals
  import opened Engine

  /** The `for` loop of anchor setup over the detections of one frame; `showWindow` is false once the frame is decided. */
  method ScanDetections(rows: seq<Detection>, answers: seq<Decision>, s: State, bboxes: seq<nat>)
    returns (r: State, showWindow: bool)
    requires ValidIndices(rows, bboxes)
    ensures (r, showWindow) == ScanFrame(rows, answers, s, true, bboxes)
  {
    showWindow := true;
    r := s;
    var j := 0;
    while j < |bboxes|
      invariant 0 <= j <= |bboxes|
      invariant ScanFrame(rows, answers, r, showWindow, bboxes[j..]) == ScanFrame(rows, answers, s, true, bboxes)
    {
      var i := bboxes[j];
      var box := rows[i].box;
      ghost var next := ScanOne(rows, answers, r, showWindow, i);
      assert ScanFrame(rows, answers, r, showWindow, bboxes[j..]) == ScanFrame(rows, answers, next.0, next.1, bboxes[j + 1..]) by {
        assert bboxes[j..][0] == i && bboxes[j..][1..] == bboxes[j + 1..];
      }
      if showWindow {
        var decision := Answer(answers, r.asked);
        r := r.(asked := r.asked + 1);
        match decision
        case Yes =>
          r := r.(anchor := Some(box), marked := r.marked + {i}, selectNewAnchor := false, f := r.f + 1);
          showWindow := false;
        case No =>
          r := r.(confusing := Some(box));
        case Skip =>
          showWindow := false;
        case Terminate =>
          r := r.(terminated := true, selectNewAnchor := false);
          showWindow := false;
        case Closed =>
      } else {
        r := r.(confusing := Some(box));
      }
      assert (r, showWindow) == next;
      j := j + 1;
    }
    assert bboxes[j..] == [];
  }

  /** Anchor setup at a present frame: prompt detection by detection, then skip a window if no anchor was set. */
  method SetupAtFrame(cfg: Config, end: int, rows: seq<Detection>, answers: seq<Decision>, s: State) returns (r: State)
    ensures r == SetupFrame(cfg, end, rows, answers, s)
  {
    var bboxes := FrameIndices(rows, s.f);
    var showWindow;
    r, showWindow := ScanDetections(rows, answers, s, bboxes);
    if r.selectNewAnchor {
      var skipStart := IntMax(1, r.f - cfg.skipPrev);
      var skipEnd := IntMin(r.f + cfg.skipFollow, end);
      r := r.(skipped := r.skipped + Range(skipStart, skipEnd + 1), f := skipEnd);
    }
  }

  /** The scoring loop of a tracking step: each detection's overlap with the anchor and with the confusing anchor. */
  method ScoreFrame(rows: seq<Detection>, bboxes: seq<nat>, anchor: Box, confusing: Option<Box>)
    returns (overlappings: seq<real>, confusion: seq<real>)
    requires ValidIndices(rows, bboxes)
    ensures overlappings == Overlaps(rows, bboxes, anchor)
    ensures confusion == Confusions(rows, bboxes, confusing)
  {
    overlappings, confusion := [], [];
    var j := 0;
    while j < |bboxes|
      invariant 0 <= j <= |bboxes|
      invariant overlappings == Overlaps(rows, bboxes, anchor)[..j]
      invariant confusion == Confusions(rows, bboxes, confusing)[..j]
    {
      var box := rows[bboxes[j]].box;
      var intersect := IntersectionRatio(box, anchor);
      var confusingIntersect := if confusing.Some? then IntersectionRatio(box, confusing.value) else 0.0;
      overlappings := overlappings + [intersect];
      confusion := confusion + [confusingIntersect];
      j := j + 1;
    }
    assert Overlaps(rows, bboxes, anchor)[..j] == Overlaps(rows, bboxes, anchor);
    assert Confusions(rows, bboxes, confusing)[..j] == Confusions(rows, bboxes, confusing);
  }

  /** One tracking step at a present frame: score every detection against the anchor, then apply the cases. */
  method TrackAtFrame(cfg: Config, rows: seq<Detection>, s: State) returns (o: Outcome)
    requires Present(rows, s.f)
    ensures o == TrackFrame(cfg, rows, s)
  {
    if s.anchor.None? {
      return Unbound(s);
    }
    var anchor := s.anchor.value;
    var bboxes := FrameIndices(rows, s.f);
    var overlappings, confusion := ScoreFrame(rows, bboxes, anchor, s.confusing);
    TrackFrameVerdict(cfg, rows, s);
    var best := BestPos(overlappings);
    if overlappings[best] <= cfg.overlapLower {
      // case 2.1: no head close to the anchor
      o := Ok(s.(f := s.f + 1));
    } else if |overlappings| > 1 {
      var second := SecondPos(overlappings, best);
      if overlappings[second] >= cfg.overlapLower && confusion[second] < cfg.overlapLower {
        // case 2.2: a second head close to the anchor and not explained by the confusing anchor
        o := Ok(s.(selectNewAnchor := true));
      } else {
        o := Ok(Assign(rows, s, bboxes[best]));
      }
    } else if overlappings[best] < cfg.overlapUpper {
      // case 2.4: the only head moved too far
      o := Ok(s.(selectNewAnchor := true));
    } else {
      // case 2.5
      o := Ok(Assign(rows, s, bboxes[best]));
    }
  }

  /** The inner `while select_new_anchor` loop. */
  method SelectAnchor(cfg: Config, end: int, rows: seq<Detection>, answers: seq<Decision>, s0: State) returns (s: State)
    requires cfg.skipFollow >= 1
    ensures s == SetupPhase(cfg, end, rows, answers, s0)
  {
    s := s0;
    while s.selectNewAnchor && !s.terminated && s.f < end
      invariant SetupPhase(cfg, end, rows, answers, s) == SetupPhase(cfg, end, rows, answers, s0)
      decreases end - s.f, if s.terminated || !s.selectNewAnchor then 0 else 1
    {
      if !Present(rows, s.f) {
        s := s.(f := s.f + 1);
        continue;
      }
      SetupFrameProgress(cfg, end, rows, answers, s);
      s := SetupAtFrame(cfg, end, rows, answers, s);
    }
  }

  /** The tracking run: the outer loop over frames with the anchor-setup loop inside it. */
  method TrackRun(cfg: Config, rows: seq<Detection>, start: int, end: int, answers: seq<Decision>) returns (o: Outcome)
    requires cfg.skipFollow >= 1
    ensures o == Run(cfg, end, rows, answers, Initial(start))
  {
    var s := Initial(start);
    while !s.terminated && s.f < end
      invariant Run(cfg, end, rows, answers, s) == Run(cfg, end, rows, answers, Initial(start))
      decreases end - s.f, (if s.terminated then 0 else 1), (if s.selectNewAnchor then 0 else 1)
    {
      ghost var s0 := s;
      OuterStepProgress(cfg, end, rows, answers, s0);
      RunUnfold(cfg, end, rows, answers, s0);
      if !Present(rows, s.f) {
        s := s.(f := s.f + 1);
        continue;
      }
      s := SelectAnchor(cfg, end, rows, answers, s);
      if !Present(rows, s.f) {
        s := s.(f := s.f + 1);
        continue;
      }
      var step := TrackAtFrame(cfg, rows, s);
      assert step == OuterStep(cfg, end, rows, answers, s0);
      if step.Unbound? {
        return step;
      }
      s := step.state;
    }
    o := Ok(s);
  }
}
