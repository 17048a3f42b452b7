/**
 Whole decompositions whose result is known exactly: no obstruction, an
 obstruction equal to the parent, and an obstruction covering the upper
 left of the parent.
 */
module Scenarios {
  import opened Rectangles
  import opened Sorting
  import opened EventLines
  import opened Gaps
  import opened Sweep

  lemma NoObstructionLines(parent: Rect)
    ensures Events(parent, []) == if parent.left <= parent.right then [Line(parent.left, true)] else []
  {
    var l := Line(parent.left, true);
    assert RawLines(parent, []) == [l];
    assert [l][1..] == [];
    assert Sort([l], LineX) == Insert(l, [], LineX) == [l];
    assert Dedup([l]) == [l];
    assert Within([l], parent.left, parent.right) == if parent.left <= parent.right then [l] else [];
  }

  lemma NoObstructionStep(parent: Rect)
    ensures Step(parent, [], Line(parent.left, true), State([], [])).active
            == if parent.bottom <= parent.top then [Active(parent.left, parent.top, parent.bottom)] else []
  {
    var gaps := GapsAt(parent, [], parent.left);
    assert Covering([], parent.left) == [];
    assert Sort([], ByDescendingLeft) == [];
    if parent.bottom <= parent.top {
      assert gaps == [Gap(parent.top, parent.bottom)];
      assert gaps[1..] == [];
      assert !HasShape([], parent.top, parent.bottom);
      var a := Active(parent.left, parent.top, parent.bottom);
      assert [] + [a] == [a];
      assert Open([], gaps, parent.left) == Open([a], [], parent.left) == [a];
    } else {
      assert gaps == [];
    }
  }

  lemma NoObstructionRun(parent: Rect)
    ensures Run(parent, [], Events(parent, []), State([], []))
            == if WellFormed(parent) then State([Active(parent.left, parent.top, parent.bottom)], [])
               else State([], [])
  {
    NoObstructionLines(parent);
    if parent.left <= parent.right {
      var lines := [Line(parent.left, true)];
      NoObstructionStep(parent);
      assert lines[1..] == [];
    }
  }

  /** Without obstructions the parent comes back unchanged, unless its sides
      are inverted, in which case nothing comes back. */
  lemma NoObstructions(parent: Rect)
    ensures Decompose(parent, []) == if WellFormed(parent) then [parent] else []
  {
    assert Sort([], ByDescendingTop) == [];
    NoObstructionRun(parent);
    var a := Active(parent.left, parent.top, parent.bottom);
    assert [a][1..] == [];
    assert Flush([a], parent.right) == [parent];
    assert Flush([], parent.right) == [];
  }

  /** An obstruction equal to the parent leaves no gap at any line inside the
      parent's x-range. */
  lemma CoveredGaps(parent: Rect, x: int)
    requires parent.left <= x <= parent.right
    ensures GapsAt(parent, [parent], x) == []
  {
    assert Covering([parent], x) == [parent];
    var below := Min(parent.top, parent.bottom - 1);
    assert Shingle(below, [], parent.bottom) == [];
    assert [parent][1..] == [];
  }

  /** With the parent as its own obstruction, the sweep over any lines inside
      the parent's x-range, opening or closing, never has an active rectangle
      and emits nothing: the result does not depend on which flag survives at
      `parent.left`. */
  lemma {:induction false} FullyObstructedAnyLines(parent: Rect, lines: seq<Line>)
    requires forall l :: l in lines ==> parent.left <= l.x <= parent.right
    ensures Run(parent, [parent], lines, State([], [])) == State([], [])
    decreases |lines|
  {
    if |lines| > 0 {
      assert lines[0] in lines;
      CoveredGaps(parent, lines[0].x);
      assert Step(parent, [parent], lines[0], State([], [])) == State([], []);
      FullyObstructedAnyLines(parent, lines[1..]);
    }
  }

  /** An obstruction equal to the parent leaves nothing. */
  lemma FullyObstructed(parent: Rect)
    ensures Decompose(parent, [parent]) == []
  {
    var obs := Sort([parent], ByDescendingTop);
    assert obs == [parent];
    FullyObstructedAnyLines(parent, Events(parent, obs));
  }

  lemma PartObstructedSort()
    ensures Sort([Line(0, true), Line(0, false), Line(3, true)], LineX)
            == [Line(0, true), Line(0, false), Line(3, true)]
  {
    var raw := [Line(0, true), Line(0, false), Line(3, true)];
    assert raw[1..] == [Line(0, false), Line(3, true)];
    assert raw[1..][1..] == [Line(3, true)];
    assert raw[1..][1..][1..] == [];
    assert Sort([Line(3, true)], LineX) == Insert(Line(3, true), [], LineX) == [Line(3, true)];
    assert Sort(raw[1..], LineX) == Insert(Line(0, false), [Line(3, true)], LineX) == [Line(0, false), Line(3, true)];
    assert Insert(Line(0, true), [Line(0, false), Line(3, true)], LineX) == raw;
  }

  lemma PartObstructedDedup()
    ensures Dedup([Line(0, true), Line(0, false), Line(3, true)]) == [Line(0, true), Line(3, true)]
  {
    var s := [Line(0, true), Line(0, false), Line(3, true)];
    assert [s[0]] + s[2..] == [Line(0, true), Line(3, true)];
    assert [Line(0, true), Line(3, true)][1..] == [Line(3, true)];
    assert Dedup([Line(3, true)]) == [Line(3, true)];
  }

  lemma PartObstructedRaw()
    ensures RawLines(Rect(0, 5, 5, 0), [Rect(0, 2, 5, 1)]) == [Line(0, true), Line(0, false), Line(3, true)]
  {
    var obs := [Rect(0, 2, 5, 1)];
    assert obs[1..] == [];
    assert ObstructionLines(obs) == [Line(0, false), Line(3, true)];
  }

  lemma PartObstructedWithin()
    ensures Within([Line(0, true), Line(3, true)], 0, 5) == [Line(0, true), Line(3, true)]
  {
    var d := [Line(0, true), Line(3, true)];
    assert d[1..] == [Line(3, true)] && d[1..][1..] == [];
    assert Within([Line(3, true)], 0, 5) == [Line(3, true)];
  }

  /** The event lines of the part-obstructed example: the parent's opening
      line wins at x = 0 over the obstruction's closing line. */
  lemma PartObstructedLines()
    ensures Events(Rect(0, 5, 5, 0), [Rect(0, 2, 5, 1)]) == [Line(0, true), Line(3, true)]
  {
    PartObstructedRaw();
    PartObstructedSort();
    PartObstructedDedup();
    PartObstructedWithin();
  }

  lemma PartObstructedFirstLine()
    ensures Step(Rect(0, 5, 5, 0), [Rect(0, 2, 5, 1)], Line(0, true), State([], []))
            == State([Active(0, 0, 0)], [])
  {
    var parent := Rect(0, 5, 5, 0);
    var o := Rect(0, 2, 5, 1);
    assert Covering([o], 0) == [o];
    assert [o][1..] == [];
    assert Shingle(0, [], 0) == [Gap(0, 0)];
    assert GapsAt(parent, [o], 0) == [Gap(0, 0)];
    assert Sort([], ByDescendingLeft) == [];
    assert !HasShape([], 0, 0);
    assert [Gap(0, 0)][1..] == [];
  }

  lemma PartObstructedSecondLine()
    ensures Step(Rect(0, 5, 5, 0), [Rect(0, 2, 5, 1)], Line(3, true), State([Active(0, 0, 0)], []))
            == State([Active(0, 0, 0), Active(3, 5, 0)], [])
  {
    var parent := Rect(0, 5, 5, 0);
    var o := Rect(0, 2, 5, 1);
    assert !Spans(o, 3);
    assert [o][1..] == [];
    assert Covering([o], 3) == [];
    assert GapsAt(parent, [o], 3) == [Gap(5, 0)];
    assert [Active(0, 0, 0)][1..] == [];
    assert Sort([Active(0, 0, 0)], ByDescendingLeft) == [Active(0, 0, 0)];
    assert !HasShape([Active(0, 0, 0)], 5, 0);
    assert [Gap(5, 0)][1..] == [];
  }

  lemma RunTwoLines(parent: Rect, obs: seq<Rect>, l0: Line, l1: Line, st: State)
    ensures Run(parent, obs, [l0, l1], st) == Step(parent, obs, l1, Step(parent, obs, l0, st))
  {
    var lines := [l0, l1];
    assert lines[1..] == [l1] && [l1][1..] == [];
    var st1 := Step(parent, obs, l0, st);
    assert Run(parent, obs, lines, st) == Run(parent, obs, [l1], st1);
    assert Run(parent, obs, [l1], st1) == Run(parent, obs, [], Step(parent, obs, l1, st1));
  }

  lemma PartObstructedRun()
    ensures Run(Rect(0, 5, 5, 0), [Rect(0, 2, 5, 1)], [Line(0, true), Line(3, true)], State([], []))
            == State([Active(0, 0, 0), Active(3, 5, 0)], [])
  {
    PartObstructedFirstLine();
    PartObstructedSecondLine();
    RunTwoLines(Rect(0, 5, 5, 0), [Rect(0, 2, 5, 1)], Line(0, true), Line(3, true), State([], []));
  }

  lemma PartObstructedFlush()
    ensures Flush([Active(0, 0, 0), Active(3, 5, 0)], 5) == [Rect(0, 5, 0, 0), Rect(3, 5, 5, 0)]
  {
    var active := [Active(0, 0, 0), Active(3, 5, 0)];
    assert active[1..] == [Active(3, 5, 0)] && active[1..][1..] == [];
    assert Flush([Active(3, 5, 0)], 5) == [Rect(3, 5, 5, 0)];
  }

  /** The parent `[0,5] x [0,5]` with the obstruction `[0,2] x [1,5]` leaves the
      bottom row and the part right of the obstruction, which overlap. */
  lemma PartObstructed()
    ensures Decompose(Rect(0, 5, 5, 0), [Rect(0, 2, 5, 1)]) == [Rect(0, 5, 0, 0), Rect(3, 5, 5, 0)]
  {
    var o := Rect(0, 2, 5, 1);
    assert [o][1..] == [];
    assert Sort([o], ByDescendingTop) == Insert(o, [], ByDescendingTop) == [o];
    PartObstructedLines();
    PartObstructedRun();
    PartObstructedFlush();
  }
}
