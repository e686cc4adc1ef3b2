/**
 * The per-file line transform of rewrite.py: keep the label lines of class
 * '2' and relabel them as class '0'. Lines come from readlines(), so none
 * is empty (the source indexes line[0]).
 */
module Rewrite {

  predicate NonEmptyLines(lines: seq<string>)
  {
    forall i :: 0 <= i < |lines| ==> |lines[i]| > 0
  }

  /** A label line whose class starts with the character '2'. */
  predicate IsHeadLine(line: string)
  {
    |line| > 0 && line[0] == '2'
  }

  /** The line with its first character replaced by '0'. */
  function Relabelled(line: string): string
    requires |line| > 0
  {
    ['0'] + line[1..]
  }

  /** The lines the transform writes back: the specification of RewriteLabels. */
  function HeadNotes(lines: seq<string>): (r: seq<string>)
    requires NonEmptyLines(lines)
    ensures |r| <= |lines|
    ensures forall j :: 0 <= j < |r| ==> |r[j]| > 0 && r[j][0] == '0'
  {
    if lines == [] then []
    else
      var last := lines[|lines| - 1];
      HeadNotes(lines[..|lines| - 1]) + (if IsHeadLine(last) then [Relabelled(last)] else [])
  }

  /** The source's loop over the lines of one file, appending to head_notes. */
  method RewriteLabels(lines: seq<string>) returns (headNotes: seq<string>)
    requires NonEmptyLines(lines)
    ensures headNotes == HeadNotes(lines)
  {
    headNotes := [];
    var i := 0;
    while i < |lines|
      invariant 0 <= i <= |lines|
      invariant headNotes == HeadNotes(lines[..i])
    {
      var line := lines[i];
      assert lines[..i + 1][..i] == lines[..i];
      if line[0] == '2' {
        line := ['0'] + line[1..];
        headNotes := headNotes + [line];
      }
      i := i + 1;
    }
    assert lines[..i] == lines;
  }

  /**
   * Selection, relabelling and order: the output is, in input order, exactly
   * the relabelled head lines; `idx` lists the input positions they come from.
   */
  lemma {:induction false} HeadNotesSelect(lines: seq<string>) returns (idx: seq<nat>)
    requires NonEmptyLines(lines)
    ensures |idx| == |HeadNotes(lines)|
    ensures forall j :: 0 <= j < |idx| ==> idx[j] < |lines| && IsHeadLine(lines[idx[j]])
    ensures forall j :: 0 <= j < |idx| ==> HeadNotes(lines)[j] == Relabelled(lines[idx[j]])
    ensures forall j, k :: 0 <= j < k < |idx| ==> idx[j] < idx[k]
    ensures forall i :: 0 <= i < |lines| && IsHeadLine(lines[i]) ==> i in idx
  {
    if lines == [] {
      idx := [];
    } else {
      var n := |lines| - 1;
      var front := lines[..n];
      var idx0 := HeadNotesSelect(front);
      assert forall j :: 0 <= j < |idx0| ==> front[idx0[j]] == lines[idx0[j]];
      if IsHeadLine(lines[n]) {
        idx := idx0 + [n];
      } else {
        idx := idx0;
      }
      forall i | 0 <= i < |lines| && IsHeadLine(lines[i])
        ensures i in idx
      {
        if i < n { assert front[i] == lines[i]; }
      }
    }
  }

  /** Lines none of which is a head line are all dropped. */
  lemma {:induction false} HeadNotesNone(lines: seq<string>)
    requires NonEmptyLines(lines)
    requires forall i :: 0 <= i < |lines| ==> !IsHeadLine(lines[i])
    ensures HeadNotes(lines) == []
  {
    if lines != [] {
      HeadNotesNone(lines[..|lines| - 1]);
    }
  }

  /** The transform is not idempotent: applied to its own output it drops every line. */
  lemma HeadNotesTwice(lines: seq<string>)
    requires NonEmptyLines(lines)
    ensures HeadNotes(HeadNotes(lines)) == []
  {
    HeadNotesNone(HeadNotes(lines));
  }
}
