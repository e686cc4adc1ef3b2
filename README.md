# PersonTracker in Dafny

A model of the anchor-based person tracker of the Gaze_Dataset_Collection
annotation tool (`PersonTracker.py`), with two small helpers from the same
repository: `expand_headbox` (`utils.py`) and the label-line transform of
`rewrite.py`.

The tracker reads a pool of unlabelled head detections, each a frame number
and a box. For one person it walks the frames in order:

- In **anchor setup** a human confirms a head, rejects it or skips. Each
  rejected box becomes the "confusing anchor".
- A frame where nobody confirms a head makes the tracker skip a window of
  frames.
- In **tracking** each frame is scored by how much of the anchor box each
  detection covers. The overlap rules then take one detection, leave the
  frame as a gap, or send the run back to anchor setup.
- The finished run becomes a dense track over `[start_frame, end_frame)`
  minus the skipped frames. Its gaps are filled by linear interpolation.
- A final confirmation then accepts or drops the run. Accepted tracks are
  stored per personID, and their rows leave the pool.

Modules:

- `Overlap`: boxes and the directional overlap ratio, which is intersection
  over the area of the second box, not IoU.
- `Utils`: `expand_headbox`.
- `Rewrite`: the line filter, as a function `HeadNotes` and the source's loop
  `RewriteLabels`, which is proved to compute it.
- `Proposals`: the pool rows, `get_group`, `range` and the pool's last frame.
- `Engine`: the loop of `__track_person` as pure transition functions over a
  state record. The record holds `f`, `select_new_anchor`, `anchor_coord`,
  `confusing_anchor`, `Terminated`, `skipped_frames`, the pool positions
  whose personID was set, and the number of windows shown.
  - The human is a scripted sequence of answers:
    Yes / No / Skip / Terminate and Drop, or Closed when the window is shut
    without a button.
  - A run ends `Ok`, or `Unbound` when the source would read `anchor_coord`
    before any anchor was confirmed. That happens after a Terminate with no
    anchor, or when setup runs out at a present `end_frame`. The source
    raises `UnboundLocalError` there, and `Run` keeps this error path. For
    the Terminate case the whole run (`Finalize.TrackPersonRun`) takes the
    evidently intended exit instead, and drops the run (see Findings).
- `TrackingLoop`: the same loop as imperative code. The `for` loops over a
  frame's detections, the inner `while select_new_anchor` loop and the outer
  `while` loop are each proved equal to the `Engine` function that specifies
  them.
- `EngineProperties`: the per-answer and per-case behaviour, progress of `f`,
  and the invariant that marks lie in `[start, f)`, at most one per frame.
- `Interpolation`: pandas' `interpolate(method='linear')`, positional:
  - a gap between known rows lies on the straight line between them, in even
    steps;
  - a trailing gap repeats the last known row;
  - a leading gap stays empty.
- `Finalize`: what runs after the loop:
  - the kept frames;
  - the built track;
  - the crash cases (`iloc[-1]` on an empty track, `int()` of a NaN last
    box);
  - the final check;
  - the left merge that removes used rows from the pool.
- `Sorting`: `sort_values` as a stable sorted permutation.
- `Registry`: the `PersonTracker` class. It holds the pool, `tracked_dfs`
  with its key order, `frame_dir`, `dropped_frames`, and the methods
  `release`, `load_from_files`, `track_person`, `get_person_df`,
  `get_full_df` and `get_dropped_frames`.

Nothing here is executed; all statements are verified by Dafny.

## Model

| member | source | states |
|---|---|---|
| Overlap.Area | PersonTracker.py:241 | the clamped area of the second box is non-negative, and positive for a box with positive width and height |
| Overlap.IntersectionArea | PersonTracker.py:236-240 | the clamped intersection area lies between 0 and the area of the second box |
| Overlap.IntersectionRatio | PersonTracker.py:231-243 | the ratio lies in [0, 1]; it is 0 for a zero-area second box (guard, see Left out) |
| Overlap.RatioShare | PersonTracker.py:236-243 | for a second box of positive area, ratio times that area is the intersection area |
| Overlap.RatioDisjoint | PersonTracker.py:236-242 | boxes separated along either axis have ratio 0 |
| Overlap.RatioCovered | PersonTracker.py:236-242 | a box covering a positive-area box2 has ratio 1 |
| Overlap.RatioSelf | PersonTracker.py:236-242 | a positive-area box covers all of itself: ratio 1 |
| Overlap.RatioAsymmetric | PersonTracker.py:231-243 | the ratio is directional: large over small is 1, small over large is below 1 |
| Utils.ExpandHeadbox | utils.py:20-30 | the result always has xmin >= 0, ymin >= 0, xmax <= 1, ymax <= 1 |
| Utils.ExpandIdentity | utils.py:24-30 | with k = 0 a box inside the unit square is returned unchanged |
| Utils.ExpandContains | utils.py:25-28 | with k >= 0 an ordered box in the unit square is covered by its expansion, which stays ordered |
| Utils.ExpandStep | utils.py:25-28 | each side moves outward by at most k times the box's extent on its axis |
| Rewrite.HeadNotes | rewrite.py:11-14 | the output is no longer than the input and every output line starts with '0' |
| Rewrite.RewriteLabels | rewrite.py:8-17 | the loop that appends to head_notes computes exactly HeadNotes of the file's lines |
| Rewrite.HeadNotesSelect | rewrite.py:11-14 | output line j is input line idx[j] with its first character replaced by '0'; idx increases strictly, holds only lines starting with '2', and holds every such line |
| Rewrite.HeadNotesNone | rewrite.py:11-14 | lines none of which starts with '2' are all dropped |
| Rewrite.HeadNotesTwice | rewrite.py:12-14 | applying the transform to its own output yields no lines (not idempotent) |
| Proposals.Range | PersonTracker.py:307 | list(range(lo, hi)); specified by EngineProperties.SetupNoAnchor, which states the skip window it appends |
| Proposals.FrameIndices | PersonTracker.py:276 | get_group(f) yields, in pool order, exactly the pool positions whose frame is f |
| Proposals.PresentIff | PersonTracker.py:257 | a frame is in frame_ls exactly when some pool row has that frame |
| Proposals.MaxFrame | PersonTracker.py:169 | the default end_frame is a frame of the pool and no pool row has a later one |
| Engine.ScanOne | PersonTracker.py:278-299 | one detection of the setup scan; no contract of its own, specified by EngineProperties.ScanPrefix, ScanSilent, ScanDecided and SetupConfirm |
| Engine.ScanFrame | PersonTracker.py:276-299 | the scan of one frame's detections; specified by Engine.ScanFrameShape and EngineProperties.ScanDecided, ScanNoAnchor and SetupTerminate |
| Engine.SkipWindow | PersonTracker.py:300-307 | the automatic skip; specified by EngineProperties.SetupNoAnchor |
| Engine.SetupFrame | PersonTracker.py:276-307 | anchor setup at one present frame; specified by Engine.SetupFrameProgress and EngineProperties.SetupConfirm, SetupNoAnchor, SetupTerminate and SetupFrameInv |
| Engine.ScanFrameShape | PersonTracker.py:278-299 | the scan of a frame ends undecided at f, confirmed at f + 1, or terminated at f; it never touches the skip list |
| Engine.SetupFrameProgress | PersonTracker.py:276-308 | anchor setup at a frame only grows the state and either advances f or terminates |
| Engine.SetupPhase | PersonTracker.py:271-308 | the inner setup loop only grows the state (f, skip list as a prefix, marks, prompts) and, when it runs, advances f or terminates |
| Engine.BestPos | PersonTracker.py:325-327 | the last element of the stable ascending sort: a greatest overlap, later positions strictly smaller |
| Engine.SecondPos | PersonTracker.py:325-338 | the next-to-last element of that sort: the greatest overlap among the others, later ones strictly smaller |
| Engine.Decide | PersonTracker.py:329-355 | not-found exactly when every overlap is <= overlap_lower; a take is always the last greatest overlap (BestPos), above overlap_lower; a lone detection is taken exactly when its overlap is > overlap_lower and >= overlap_upper and reset exactly when it lies strictly between them; among several, reset exactly when the best overlap is above overlap_lower and the runner-up (SecondPos) is >= overlap_lower with confusion < overlap_lower |
| Engine.TrackFrame | PersonTracker.py:310-355 | one tracking step; specified by Engine.Decide, Engine.TrackFrameProgress and EngineProperties.TrackNotFound, TrackAmbiguous, TrackMovedSingle, TrackUpperIgnoredForSeveral, TrackAssigns and TrackFrameInv |
| Engine.OuterStep | PersonTracker.py:265-355 | one iteration of the outer loop; specified by Engine.OuterStepProgress and EngineProperties.MissingFrameStepped |
| Engine.Run | PersonTracker.py:263-355 | the whole loop; specified by EngineProperties.RunGrows, RunStops, RunInv, TerminateWithAnchor and TerminateWithoutAnchorUnbound, and computed by TrackingLoop.TrackRun |
| Engine.TrackFrameProgress | PersonTracker.py:315-355 | a tracking step advances f by one, or keeps f and asks for a new anchor; it never terminates |
| Engine.OuterStepProgress | PersonTracker.py:265-355 | an outer iteration grows the state and advances f, terminates, or switches back to anchor setup |
| TrackingLoop.ScanDetections | PersonTracker.py:278-299 | the `for` loop over a frame's detections computes ScanFrame |
| TrackingLoop.SetupAtFrame | PersonTracker.py:276-308 | one inner-loop iteration at a present frame computes SetupFrame |
| TrackingLoop.ScoreFrame | PersonTracker.py:316-323 | the scoring loop fills overlappings and confusion exactly as Overlaps and Confusions |
| TrackingLoop.TrackAtFrame | PersonTracker.py:315-355 | one tracking step at a present frame computes TrackFrame |
| TrackingLoop.SelectAnchor | PersonTracker.py:271-308 | the inner `while select_new_anchor` loop computes SetupPhase |
| TrackingLoop.TrackRun | PersonTracker.py:259-355 | the nested while loops from the initial state compute Run |
| EngineProperties.ScanPrefix | PersonTracker.py:280-291 | windows answered No or Closed keep the prompt open and change only the prompt count and the confusing anchor, which a No sets to its box |
| EngineProperties.ScanSilent | PersonTracker.py:298-299 | once the frame is decided every remaining detection only overwrites the confusing anchor |
| EngineProperties.ScanDecided | PersonTracker.py:278-299 | the scan of a frame is its first decisive answer followed by the silent overwrite of the confusing anchor |
| EngineProperties.SetupConfirm | PersonTracker.py:284-299 | Yes: the anchor is exactly that detection's box, that one row is marked, f advances by one, no more windows at the frame; a later detection becomes the confusing anchor |
| EngineProperties.SetupNoAnchor | PersonTracker.py:290-308 | all No/Closed, or a Skip: [max(1, f - skip_prev_f), min(f + skip_follow_f, end)] is appended to the skip list and f moves to its end; anchor, marks and termination unchanged |
| EngineProperties.ScanNoAnchor | PersonTracker.py:278-299 | a scan with no Yes or Terminate changes only the prompt count and the confusing anchor |
| EngineProperties.SetupTerminate | PersonTracker.py:294-297 | Terminate: the run is terminated at the same frame, nothing else but prompts and confusing anchor changes |
| EngineProperties.MissingFrameStepped | PersonTracker.py:266-269 | a frame without detections is stepped over with only f changed |
| EngineProperties.TrackNotFound | PersonTracker.py:331-333 | case 2.1: no overlap above overlap_lower leaves marks and anchor unchanged and advances f by one |
| EngineProperties.TrackAmbiguous | PersonTracker.py:337-341 | case 2.2: a runner-up >= overlap_lower with confusion < overlap_lower restarts anchor setup at the same frame |
| EngineProperties.TrackMovedSingle | PersonTracker.py:343-347 | case 2.4: a lone detection with overlap_lower < overlap < overlap_upper restarts anchor setup at the same frame |
| EngineProperties.TrackUpperIgnoredForSeveral | PersonTracker.py:335-355 | with several detections overlap_upper plays no part: when the best overlap is above overlap_lower and case 2.2 does not fire, the best is taken whether or not it reaches overlap_upper |
| EngineProperties.TakeIsBest | PersonTracker.py:349-353 | a taken detection has the greatest overlap with the anchor, above overlap_lower, and >= overlap_upper when alone |
| EngineProperties.TrackAssigns | PersonTracker.py:329-355 | a tracking step steps over the frame, restarts setup, or marks exactly one best-overlap detection of the frame, which becomes the anchor as f advances |
| EngineProperties.RunGrows | PersonTracker.py:265-355 | over a run f never decreases, the skip list only grows at its end, marks are only added |
| EngineProperties.RunStops | PersonTracker.py:265 | a completed run stops terminated or with f >= end_frame |
| EngineProperties.TerminateWithoutAnchorUnbound | PersonTracker.py:294-320 | Terminate before any anchor leads to the read of an unbound anchor_coord, with Terminated set |
| EngineProperties.TerminateWithAnchor | PersonTracker.py:294-297 | Terminate with an anchor ends the run as terminated |
| EngineProperties.ScanFrameInv | PersonTracker.py:284-288 | the setup scan keeps the marks invariant: marks lie in [start, f), one per frame |
| EngineProperties.SetupFrameInv | PersonTracker.py:276-308 | anchor setup at a frame keeps the marks invariant |
| EngineProperties.SetupStepInv | PersonTracker.py:271-308 | one iteration of the setup loop keeps the marks invariant and advances f or terminates |
| EngineProperties.SetupPhaseInv | PersonTracker.py:271-308 | the inner setup loop keeps the marks invariant |
| EngineProperties.AssignInv | PersonTracker.py:350-355 | marking a row of the current frame and advancing f keeps the marks invariant |
| EngineProperties.TrackFrameInv | PersonTracker.py:315-355 | a tracking step keeps the marks invariant |
| EngineProperties.RunInv | PersonTracker.py:265-355 | a whole run keeps the marks invariant |
| EngineProperties.RunFromStartInv | PersonTracker.py:259-355 | after a run from start_frame, marked rows lie in [start_frame, f) with at most one per frame |
| Interpolation.LastKnownBefore | PersonTracker.py:371 | the last known row before p, with none known in between; none when no row before p is known |
| Interpolation.FirstKnownAfter | PersonTracker.py:371 | the first known row after p, with none known in between; none when no row after p is known |
| Interpolation.Lerp | PersonTracker.py:371 | the fill line; specified by Interpolation.LerpEnds, LerpStep and LerpWithin |
| Interpolation.InterpolateAt | PersonTracker.py:371 | the filled value of one row; specified by Interpolation.Interpolate, InterpolateDefined, InterpolateBetween, InterpolateTrailing, InterpolateEvenSteps and InterpolateWithin |
| Interpolation.Interpolate | PersonTracker.py:371 | filling keeps the length and every known value |
| Interpolation.InterpolateDefined | PersonTracker.py:371 | a row stays empty exactly when no row at or before it is known |
| Interpolation.InterpolateBetween | PersonTracker.py:371 | a row inside a gap between known rows a and b is p - a steps of b - a along the line between their boxes |
| Interpolation.InterpolateTrailing | PersonTracker.py:371 | rows after the last known row repeat it |
| Interpolation.LerpEnds | PersonTracker.py:371 | the fill line starts at the first known value and ends at the second |
| Interpolation.LerpStep | PersonTracker.py:371 | successive steps on the fill line differ by (y - x) / n |
| Interpolation.LerpWithin | PersonTracker.py:371 | on the gap the fill line stays between its two end values |
| Interpolation.InterpolateEvenSteps | PersonTracker.py:371 | across a gap every coordinate moves by the same amount from row to row: total change over the number of rows |
| Interpolation.InterpolateWithin | PersonTracker.py:371 | a filled row lies, coordinate by coordinate, between the two known boxes around its gap |
| Finalize.Kept | PersonTracker.py:366-371 | the frameID column is strictly increasing and holds exactly the frames of [start, end) not in skipped_frames |
| Finalize.MarkedBoxFrom | PersonTracker.py:363-369 | the merged box of a frame is absent exactly when no marked row lies in it, otherwise it is the box of a marked row of that frame |
| Finalize.Known | PersonTracker.py:363-369 | one merged box per kept frame; its entries are given by Finalize.MarkedBoxFrom and MarkedBoxUnique |
| Finalize.MarkedBoxUnique | PersonTracker.py:363-369 | at a frame with a single marked row the merge yields that row's box |
| Finalize.PositionOfFrame | PersonTracker.py:367-371 | every frame of [start, end) not skipped has a row in the track |
| Finalize.BuildTrack | PersonTracker.py:363-371 | the dense, filled track; specified by Finalize.BuildTrackShape and AcceptedTrack |
| Finalize.BuildTrackShape | PersonTracker.py:363-371 | the built track is strictly increasing in frame, covers exactly the kept frames, has one personID, and carries the box of every marked row in a kept frame |
| Finalize.ConsumedExactly | PersonTracker.py:182-185 | the merge removes a pool row exactly when it was marked in the run and its frame is below end_frame and not skipped |
| Finalize.Matched | PersonTracker.py:182 | the merge indicator of each pool row; specified by Finalize.ConsumedExactly and RemainingSelect |
| Finalize.LeftOnlyIncreasing | PersonTracker.py:183 | the `left_only` positions are listed in increasing order |
| Finalize.LeftOnlyMembers | PersonTracker.py:183 | a position is listed exactly when its indicator is `left_only` |
| Finalize.Remaining | PersonTracker.py:182-185 | the pool after removal is no longer than before |
| Finalize.RemainingSelect | PersonTracker.py:182-185 | the rows left are, in pool order, exactly the rows the merge does not match |
| Finalize.RemainingSorted | PersonTracker.py:182-185 | removal keeps the pool sorted by frame then xmin |
| Finalize.FinalCheckAlwaysDrops | PersonTracker.py:378 | the final check as written holds for every decision |
| Finalize.AsWrittenNeverAccepts | PersonTracker.py:373-384 | with the final check as written no run is ever accepted |
| Finalize.FinishAccepts | PersonTracker.py:357-384 | with the corrected check a run is accepted exactly when not terminated, the track is non-empty with a known last box, and the final answer is neither No nor Terminate; the accepted track is the built one |
| Finalize.FinishDrops | PersonTracker.py:357-361 | a terminated run is dropped; an unbound anchor is a crash |
| Finalize.Finish | PersonTracker.py:357-384 | everything after the loop; specified by Finalize.FinishAccepts, FinishDrops and AsWrittenNeverAccepts |
| Finalize.BreakOnTerminate | PersonTracker.py:265-297 | the corrected exit on Terminate and Drop; specified by Finalize.BreakOnTerminateDrops |
| Finalize.BreakOnTerminateDrops | PersonTracker.py:265-297 | with the corrected exit every terminated run is dropped, whether it stopped at the tracking step or after the loop; other outcomes pass unchanged |
| Finalize.TerminateFirstCrashesAsWritten | PersonTracker.py:294-320 | as written, Terminate and Drop on the run's first window ends in the crash on the unbound anchor_coord |
| Finalize.TerminateFirstDropped | PersonTracker.py:294-361 | with the corrected exit the same run is dropped |
| Finalize.TrackPersonRun | PersonTracker.py:245-384 | one whole __track_person run; specified by Finalize.AcceptedTrack, FinishAccepts, FinishDrops, BreakOnTerminateDrops and TerminateFirstDropped |
| Finalize.AcceptedTrack | PersonTracker.py:357-384 | an accepted track covers exactly range(start, end) minus the skipped frames in increasing order, has one personID and a known last box, and keeps every marked row's box; its marks are unique per frame |
| Sorting.Insert | PersonTracker.py:130 | insertion keeps the rows sorted and adds exactly one element |
| Sorting.Sort | PersonTracker.py:130 | sort_values returns a sorted permutation of its input |
| Sorting.SameKey | PersonTracker.py:153 | the rows of the input with the key of y, in input order, never more than the input holds; the stability statement of Sorting.SortStable is made with it |
| Sorting.InsertStable | PersonTracker.py:153 | insertion places x first among the rows with its key and keeps the order of the others |
| Sorting.SortStable | PersonTracker.py:153 | for every key, the rows with that key appear in the sorted result in their input order |
| Sorting.SortSorted | PersonTracker.py:130 | sorting rows already sorted by a key that is unique per row leaves them unchanged |
| Registry.Concat | PersonTracker.py:138 | pd.concat on a list; specified by Registry.PersonTracker.GetFullDfAsWritten, FullDfDiscrepancy and GetFullDf |
| Registry.ConcatTables | PersonTracker.py:130 | concatenating a non-empty list of tables stacks them |
| Registry.Appended | PersonTracker.py:177-180 | appending a track creates the person's list if needed, adds the track at its end, and leaves other persons alone |
| Registry.PersonTracker.constructor | PersonTracker.py:88-111 | a new tracker has its four parameters (by default skip_prev_f = 1, skip_follow_f = 1, overlap_upper = 0.6, overlap_lower = 0.2), no tracks, no pool, no frame directory and no dropped intervals |
| Registry.PersonTracker.Release | PersonTracker.py:113-116 | tracks, frame directory and pool are cleared; dropped intervals are unchanged |
| Registry.PersonTracker.Load | PersonTracker.py:141-154 | the pool becomes the detections sorted by frame then xmin (a permutation), rows with equal frame and xmin keeping their file order, and the frame directory is set; tracks and dropped intervals are unchanged |
| Registry.PersonTracker.TrackPerson | PersonTracker.py:156-188 | start_frame defaults to 1 and end_frame to -1; not loaded: report and no change; negative end_frame on an empty pool: failure and no change; otherwise the report is the run's result, a dropped run appends [start, end], and an accepted track is appended to the person's tracks while the matched rows leave the pool |
| Registry.PersonTracker.Record | PersonTracker.py:176-185 | after a run: only a dropped run changes dropped_frames; only an accepted one changes the tracks and the pool |
| Registry.PersonTracker.GetPersonDf | PersonTracker.py:123-131 | None exactly for an unknown personID; otherwise all the person's track rows, sorted by frame |
| Registry.PersonTracker.GetFullDfAsWritten | PersonTracker.py:136-139 | as written get_full_df always raises |
| Registry.PersonTracker.GetFullDf | PersonTracker.py:136-139 | None exactly when nobody is tracked; otherwise every track row of every person, sorted by frame |
| Registry.PersonTracker.AllTracksEmpty | PersonTracker.py:137 | there are no tracks at all exactly when no person is tracked |
| Registry.PersonTracker.FullDfDiscrepancy | PersonTracker.py:136-139 | once someone is tracked, the as-written get_full_df raises while the intended one returns rows |
| Registry.PersonTracker.PersonDfSingleTrack | PersonTracker.py:130 | a person with one track gets exactly that track back |
| Registry.PersonTracker.GetDroppedFrames | PersonTracker.py:386-387 | the recorded dropped intervals, oldest first |

## Left out

- `PopupWindow` (tkinter) is replaced by the sequence `answers` of scripted decisions. A window closed without a button answers Closed.
- `__get_head_img`, `set_remote_connection` and the SFTP download are image and network I/O. Only one of their effects is modelled: the crash on a NaN coordinate of the last track row.
- The CSV reading of `load_from_files` is I/O. `Load` starts from the parsed rows, without the label column.
- `track_all` is an unimplemented stub. `get_tracked_person` is a plain getter of the keys, which is `tracked.Keys` here.
- `Visualizer.py`, `cvat_utils.py`, the I/O functions of `utils.py`, and the directory walk and file writes of `rewrite.py` are left out. They only read, write or draw.
- Coordinates are mathematical reals; floating-point rounding is not modelled.
- Printed messages are not modelled. `reset_index` and the DataFrame index are not modelled either.
- The personID column that `__track_person` writes into the pool in place is modelled as the set of marked pool positions. The model does not capture that this column stays in the pool after every run, on the rows the merge keeps (rows marked at end_frame or in a skipped window included), where it is reset by the next run.
- Only coordinates are interpolated. The frameID column has no gaps and the personID column is constant, so pandas' handling of those columns is not modelled.
- Overlap.IntersectionRatio: returns 0 for a second box of zero area, where the source raises ZeroDivisionError.
- Registry.PersonTracker.TrackPerson: requires skip_follow_f >= 1, and so do TrackingLoop.TrackRun and Engine.Run. With 0, a frame where no anchor is confirmed is revisited forever. The model has no non-terminating run.
- Registry.PersonTracker.GetPersonDf: promises only a sorted permutation, because this single-key sort_values uses pandas' default quicksort, which is not stable, so the order of rows with equal frames is not determined.
- Registry.PersonTracker.GetFullDf: promises only a sorted permutation, for the same reason.
- The model does not capture that a pool row with NaN coordinates could match in the merge. Pool rows always have numeric coordinates here.

## Findings

| source | as written | input that shows it | evidently intended | confidence | as-written member | corrected member |
|---|---|---|---|---|---|---|
| PersonTracker.py:378 | the final-check condition ORs the test for No with a non-empty string literal, so it is always true and every run that reaches the final check is dropped and recorded in dropped_frames | any completed run whose final answer is Yes | drop only when the final answer is No or Terminate and Drop | not executed | Finalize.AsWrittenNeverAccepts | Finalize.FinishAccepts |
| PersonTracker.py:294-320 | after Terminate and Drop in anchor setup the inner loop ends but the tracking step still runs at the same frame; before any anchor was confirmed it reads the unbound anchor_coord and raises, so nothing is recorded in dropped_frames | a run whose start_frame has detections and whose first window is answered Terminate and Drop | leave the loop once Terminated is set, so the run is dropped and [start_frame, end_frame] is recorded | not executed | Finalize.TerminateFirstCrashesAsWritten | Finalize.TerminateFirstDropped |
| PersonTracker.py:136-139 | get_full_df passes pd.concat the dictionary's values, each a list of tables, which pd.concat rejects; with no tracks it raises as well | one accepted track for any personID, then get_full_df | all track rows of all persons, sorted by frame | not executed | Registry.PersonTracker.FullDfDiscrepancy | Registry.PersonTracker.GetFullDf |
