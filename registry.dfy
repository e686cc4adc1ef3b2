/**
 * The PersonTracker object: its parameters, the proposal pool, the tracks
 * collected per personID and the list of dropped intervals, with the
 * operations that read and update them.
 */
module Registry {
  import opened Wrappers
  import opened Proposals
  import opened Engine
  import opened TrackingLoop
  import opened Finalize
  import opened Sorting

  /** sort_values('frameID') on track rows. */
  function FrameLe(a: TrackRow, b: TrackRow): bool { a.frame <= b.frame }

  /** sort_values(by=['frameID', 'xmin']) on pool rows. */
  function DetectionLe(a: Detection, b: Detection): bool
  {
    a.frame < b.frame || (a.frame == b.frame && a.box.xmin <= b.box.xmin)
  }

  lemma FrameLeTotal()
    ensures TotalPreorder(FrameLe)
  {
  }

  lemma DetectionLeTotal()
    ensures TotalPreorder(DetectionLe)
  {
  }

  /** An argument of pd.concat: a table, or a list of tables. */
  datatype ConcatArg = Table(rows: seq<TrackRow>) | TableList(tables: seq<seq<TrackRow>>)

  function Flatten(tables: seq<seq<TrackRow>>): seq<TrackRow>
  {
    if tables == [] then [] else tables[0] + Flatten(tables[1..])
  }

  /** pd.concat: raises on an empty list and on any argument that is not a table; otherwise stacks the tables. */
  function Concat(objs: seq<ConcatArg>): (r: Option<seq<TrackRow>>)
    ensures r.Some? <==> |objs| > 0 && forall j :: 0 <= j < |objs| ==> objs[j].Table?
  {
    if |objs| == 0 || exists j :: 0 <= j < |objs| && objs[j].TableList? then None
    else Some(Flatten(seq(|objs|, j requires 0 <= j < |objs| => objs[j].rows)))
  }

  function Tables(tables: seq<seq<TrackRow>>): (r: seq<ConcatArg>)
    ensures |r| == |tables| && forall j :: 0 <= j < |r| ==> r[j].Table?
  {
    seq(|tables|, j requires 0 <= j < |tables| => Table(tables[j]))
  }

  lemma ConcatTables(tables: seq<seq<TrackRow>>)
    ensures tables != [] ==> Concat(Tables(tables)) == Some(Flatten(tables))
  {
    var args := Tables(tables);
    var unpacked := seq(|args|, j requires 0 <= j < |args| => args[j].rows);
    assert unpacked == tables by {
      assert |unpacked| == |tables|;
      forall j | 0 <= j < |tables| ensures unpacked[j] == tables[j] { }
    }
  }

  /** `tracked_dfs[personID].append(df)`, creating the empty list first for a new personID. */
  function Appended(tracked: map<string, seq<seq<TrackRow>>>, pid: string, track: seq<TrackRow>): (r: map<string, seq<seq<TrackRow>>>)
    ensures r.Keys == tracked.Keys + {pid}
    ensures r[pid] == (if pid in tracked then tracked[pid] else []) + [track]
    ensures forall k :: k in tracked && k != pid ==> r[k] == tracked[k]
  {
    var lists := if pid in tracked then tracked else tracked[pid := []];
    lists[pid := lists[pid] + [track]]
  }

  /** What track_person reported: not loaded, no frame to end at, or the run's result. */
  datatype Report = NotLoaded | EmptyPool | Finished(result: RunResult)

  class PersonTracker {
    const skipPrev: int
    const skipFollow: int
    const overlapUpper: real
    const overlapLower: real
    /** tracked_dfs: the accepted tracks of each personID, oldest first. */
    var tracked: map<string, seq<seq<TrackRow>>>
    /** The keys of tracked_dfs in insertion order, as a Python dict keeps them. */
    var order: seq<string>
    var frameDir: Option<string>
    /** proposal_df: None before load_from_files and after release. */
    var pool: Option<seq<Detection>>
    /** dropped_frames: the [start_frame, end_frame] interval of every dropped run. */
    var dropped: seq<(int, int)>

    ghost predicate Valid()
      reads this
    {
      (frameDir.Some? ==> pool.Some?) &&
      (pool.Some? ==> SortedByFrameXmin(pool.value)) &&
      (forall k :: k in tracked ==> |tracked[k]| > 0) &&
      (forall k :: k in tracked <==> k in order) &&
      (forall j, k :: 0 <= j < k < |order| ==> order[j] != order[k])
    }

    function Cfg(): Config
    {
      Config(skipPrev, skipFollow, overlapUpper, overlapLower)
    }

    /** A tracker with no pool, no tracks and no dropped intervals. */
    constructor(skipPrev: int := 1, skipFollow: int := 1, overlapUpper: real := 0.6, overlapLower: real := 0.2)
      ensures Valid()
      ensures this.skipPrev == skipPrev && this.skipFollow == skipFollow
      ensures this.overlapUpper == overlapUpper && this.overlapLower == overlapLower
      ensures tracked == map[] && order == [] && frameDir.None? && pool.None? && dropped == []
    {
      this.skipPrev := skipPrev;
      this.skipFollow := skipFollow;
      this.overlapUpper := overlapUpper;
      this.overlapLower := overlapLower;
      tracked := map[];
      order := [];
      frameDir := None;
      pool := None;
      dropped := [];
    }

    /** release: forget the tracks, the frame directory and the pool; the dropped intervals stay. */
    method Release()
      modifies this
      ensures Valid()
      ensures tracked == map[] && order == [] && frameDir.None? && pool.None?
      ensures dropped == old(dropped)
    {
      tracked := map[];
      order := [];
      frameDir := None;
      pool := None;
    }

    /** load_from_files, from the rows read out of the detection file: the pool becomes those rows sorted by frame, then xmin; sort_values on two keys is stable, so rows with equal keys keep their file order. */
    method Load(raw: seq<Detection>, dir: Option<string>)
      requires Valid()
      modifies this
      ensures Valid()
      ensures frameDir == dir && pool.Some?
      ensures SortedByFrameXmin(pool.value) && multiset(pool.value) == multiset(raw)
      ensures forall d :: SameKey(pool.value, DetectionLe, d) == SameKey(raw, DetectionLe, d)
      ensures tracked == old(tracked) && order == old(order) && dropped == old(dropped)
    {
      DetectionLeTotal();
      var rows := Sort(raw, DetectionLe);
      forall d
        ensures SameKey(rows, DetectionLe, d) == SameKey(raw, DetectionLe, d)
      {
        SortStable(raw, DetectionLe, d);
      }
      frameDir := dir;
      pool := Some(rows);
    }

    /**
     * track_person: run __track_person on the pool from start to endArg
     * (the pool's last frame when endArg is negative), drawing the human
     * decisions from `answers`. A dropped run records its interval; an
     * accepted one is appended to the person's tracks and the rows it used
     * leave the pool.
     */
    method TrackPerson(pid: string, start: int := 1, endArg: int := -1, answers: seq<Decision>) returns (report: Report)
      requires Valid() && skipFollow >= 1
      modifies this
      ensures Valid()
      ensures old(frameDir).None? ==> report == NotLoaded && unchanged(this)
      ensures old(frameDir).Some? && endArg < 0 && |old(pool).value| == 0 ==> report == EmptyPool && unchanged(this)
      ensures old(frameDir).Some? && !(endArg < 0 && |old(pool).value| == 0) ==>
        var rows := old(pool).value;
        var end := if endArg < 0 then MaxFrame(rows) else endArg;
        var r := TrackPersonRun(Cfg(), rows, pid, start, end, answers);
        report == Finished(r) && frameDir == old(frameDir) &&
        dropped == old(dropped) + (if r.Dropped? then [(start, end)] else []) &&
        (r.Accepted? ==>
          tracked == Appended(old(tracked), pid, r.track) &&
          order == old(order) + (if pid in old(tracked) then [] else [pid]) &&
          pool == Some(Remaining(rows, r.marked, r.track, pid))) &&
        (!r.Accepted? ==> tracked == old(tracked) && order == old(order) && pool == old(pool))
    {
      if frameDir.None? {
        return NotLoaded;
      }
      var rows := pool.value;
      var end := endArg;
      if endArg < 0 {
        if |rows| == 0 {
          return EmptyPool;
        }
        end := MaxFrame(rows);
      }
      var o := TrackRun(Cfg(), rows, start, end, answers);
      var r := Finish(rows, pid, start, end, answers, BreakOnTerminate(o), FinalCheckDrops);
      assert r == TrackPersonRun(Cfg(), rows, pid, start, end, answers);
      Record(pid, start, end, rows, r);
      report := Finished(r);
    }

    /** What track_person does with the result of a run on `rows`: a dropped run records its interval, an accepted track is stored and its rows leave the pool. */
    method Record(pid: string, start: int, end: int, rows: seq<Detection>, r: RunResult)
      requires Valid() && pool == Some(rows)
      modifies this
      ensures Valid()
      ensures frameDir == old(frameDir)
      ensures dropped == old(dropped) + (if r.Dropped? then [(start, end)] else [])
      ensures r.Accepted? ==>
        tracked == Appended(old(tracked), pid, r.track) &&
        order == old(order) + (if pid in old(tracked) then [] else [pid]) &&
        pool == Some(Remaining(rows, r.marked, r.track, pid))
      ensures !r.Accepted? ==> tracked == old(tracked) && order == old(order) && pool == old(pool)
    {
      match r {
        case Crashed(_) =>
        case Dropped =>
          dropped := dropped + [(start, end)];
        case Accepted(track, marked) =>
          if pid !in tracked {
            order := order + [pid];
          }
          tracked := Appended(tracked, pid, track);
          RemainingSorted(rows, marked, track, pid);
          pool := Some(Remaining(rows, marked, track, pid));
      }
    }

    /** get_person_df: None for an unknown personID, otherwise all the person's track rows sorted by frame. */
    function GetPersonDf(pid: string): (r: Option<seq<TrackRow>>)
      requires Valid()
      reads this
      ensures r.None? <==> pid !in tracked
      ensures r.Some? ==> SortedBy(r.value, FrameLe) && multiset(r.value) == multiset(Flatten(tracked[pid]))
    {
      if pid !in tracked then None
      else
        FrameLeTotal();
        ConcatTables(tracked[pid]);
        Some(Sort(Concat(Tables(tracked[pid])).value, FrameLe))
    }

    /** The tracks of every person, persons in insertion order. */
    function AllTracks(): seq<seq<TrackRow>>
      reads this
    {
      var keys := order;
      var tracks := tracked;
      Flatten2(seq(|keys|, j requires 0 <= j < |keys| => if keys[j] in tracks then tracks[keys[j]] else []))
    }

    /**
     * get_full_df as written: pd.concat receives the dictionary's values,
     * each a list of tables rather than a table, so it raises whenever there
     * is a track, and also when there is none.
     */
    function GetFullDfAsWritten(): (r: Option<seq<TrackRow>>)
      reads this
      ensures r.None?
    {
      var keys := order;
      var tracks := tracked;
      Concat(seq(|keys|, j requires 0 <= j < |keys| => TableList(if keys[j] in tracks then tracks[keys[j]] else [])))
    }

    /** get_full_df as evidently intended: every track row of every person, sorted by frame; None (pd.concat raising) when there are no tracks. */
    function GetFullDf(): (r: Option<seq<TrackRow>>)
      requires Valid()
      reads this
      ensures r.None? <==> tracked == map[]
      ensures r.Some? ==> SortedBy(r.value, FrameLe) && multiset(r.value) == multiset(Flatten(AllTracks()))
    {
      FrameLeTotal();
      var all := AllTracks();
      AllTracksEmpty();
      ConcatTables(all);
      match Concat(Tables(all))
      case None => None
      case Some(rows) => Some(Sort(rows, FrameLe))
    }

    /** There are no tracks at all exactly when no person has been tracked. */
    lemma AllTracksEmpty()
      requires Valid()
      ensures AllTracks() == [] <==> tracked == map[]
    {
      var keys := order;
      var tracks := tracked;
      var lists := seq(|keys|, j requires 0 <= j < |keys| => if keys[j] in tracks then tracks[keys[j]] else []);
      Flatten2Empty(lists);
      if tracked != map[] {
        var k :| k in tracked;
        var j :| 0 <= j < |order| && order[j] == k;
        assert lists[j] != [];
      }
    }

    /** Once a person has a track, get_full_df as written raises where the intended version returns the rows. */
    lemma FullDfDiscrepancy()
      requires Valid() && tracked != map[]
      ensures GetFullDfAsWritten().None? && GetFullDf().Some?
    {
    }

    /** A person with a single track, whose frames increase, gets that very track back from get_person_df. */
    lemma PersonDfSingleTrack(pid: string)
      requires Valid() && pid in tracked && |tracked[pid]| == 1
      requires forall j, k :: 0 <= j < k < |tracked[pid][0]| ==> tracked[pid][0][j].frame < tracked[pid][0][k].frame
      ensures GetPersonDf(pid) == Some(tracked[pid][0])
    {
      var t := tracked[pid][0];
      FrameLeTotal();
      ConcatTables(tracked[pid]);
      assert Flatten(tracked[pid]) == t + Flatten([]);
      assert Flatten(tracked[pid]) == t;
      SortSorted(t, FrameLe);
    }

    /** get_dropped_frames: the intervals of the dropped runs, oldest first. */
    function GetDroppedFrames(): (r: seq<(int, int)>)
      reads this
      ensures r == dropped
    {
      dropped
    }
  }

  lemma {:induction false} Flatten2Empty(lists: seq<seq<seq<TrackRow>>>)
    ensures Flatten2(lists) == [] <==> forall j :: 0 <= j < |lists| ==> lists[j] == []
  {
    if lists != [] {
      Flatten2Empty(lists[1..]);
      assert forall j :: 1 <= j < |lists| ==> lists[j] == lists[1..][j - 1];
    }
  }

  /** Concatenation of a list of lists of tables. */
  function Flatten2(lists: seq<seq<seq<TrackRow>>>): seq<seq<TrackRow>>
  {
    if lists == [] then [] else lists[0] + Flatten2(lists[1..])
  }
}
