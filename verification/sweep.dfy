/**
 Sections 3 and 4 of the sweep: the active rectangles carried from line to
 line, and the decomposition as a whole.

 An active rectangle has a fixed left side and a fixed shape `(top, bottom)`;
 its right side is decided when it is closed. At an opening line every gap
 whose shape is not yet active starts a new active rectangle. At a closing
 line every active rectangle that still fits inside some gap stays; every
 other one is emitted with `right = x - 1` and continued into the gaps, each
 continuation keeping the closed rectangle's left side. After the last line
 the rectangles still active are emitted with the parent's right side.

 Before each line the active rectangles are sorted by descending left side.
 The source sorts unstably; the model uses the stable sort of `Sorting`.
 The order only decides which of two continuations with the same shape is
 kept, and the order of the emitted rectangles; no property below depends
 on it.
 */
module Sweep {
  import opened Rectangles
  import opened Sorting
  import opened EventLines
  import opened Gaps

  /** A rectangle whose right side is not known yet. */
  datatype Active = Active(left: int, top: int, bottom: int)

  /** The state between two lines: the active rectangles and the rectangles emitted so far. */
  datatype State = State(active: seq<Active>, done: seq<Rect>)

  /** The accumulators of one closing line. */
  datatype Closing = Closing(kept: seq<Active>, spawned: seq<Active>, emitted: seq<Rect>)

  /** Sort key under which ascending order is descending `left`. */
  function ByDescendingLeft(a: Active): int {
    -a.left
  }

  predicate SameShape(a: Active, top: int, bottom: int) {
    a.top == top && a.bottom == bottom
  }

  predicate HasShape(active: seq<Active>, top: int, bottom: int) {
    exists a :: a in active && SameShape(a, top, bottom)
  }

  /** No two entries share a shape. */
  predicate UniqueShapes(active: seq<Active>) {
    forall i, j :: 0 <= i < j < |active| ==> !SameShape(active[i], active[j].top, active[j].bottom)
  }

  /** Some gap contains the whole shape of `a`. */
  predicate Fits(a: Active, gaps: seq<Gap>) {
    exists g :: g in gaps && g.top >= a.top && a.bottom >= g.bottom
  }

  /** The finished rectangle for `a` when it is closed at the line `x`. */
  function Closed(a: Active, x: int): Rect {
    Rect(a.left, x - 1, a.top, a.bottom)
  }

  /** The part of the closed shape `a` that continues into the gap `g`. */
  function Continuation(a: Active, g: Gap): Active {
    Active(a.left, Min(a.top, g.top), Max(a.bottom, g.bottom))
  }

  /** A rectangle emitted by the sweep over `parent` stays in its x-range and below its top. */
  predicate InBounds(q: Rect, parent: Rect) {
    parent.left <= q.left <= q.right <= parent.right && q.top <= parent.top
  }

  lemma UniqueAppend(s: seq<Active>, a: Active)
    requires UniqueShapes(s) && !HasShape(s, a.top, a.bottom)
    ensures UniqueShapes(s + [a])
  {
    forall i | 0 <= i < |s| ensures !SameShape(s[i], a.top, a.bottom) {
      assert s[i] in s;
    }
  }

  lemma UniqueConcat(s: seq<Active>, t: seq<Active>)
    requires UniqueShapes(s) && UniqueShapes(t)
    requires forall b :: b in t ==> !HasShape(s, b.top, b.bottom)
    ensures UniqueShapes(s + t)
  {
    forall i, j | 0 <= i < |s| <= j < |s| + |t|
      ensures !SameShape((s + t)[i], (s + t)[j].top, (s + t)[j].bottom)
    {
      assert t[j - |s|] in t;
      assert s[i] in s;
    }
  }

  /** Every entry of a prefix of `t` is an entry of `t`. */
  lemma PrefixMembers(s: seq<Active>, t: seq<Active>)
    requires |s| <= |t| && t[..|s|] == s
    ensures forall a :: a in s ==> a in t
  {
    forall a | a in s ensures a in t {
      var i :| 0 <= i < |s| && s[i] == a;
      assert t[..|s|][i] == a;
    }
  }

  lemma ShapeKept(s: seq<Active>, t: seq<Active>, top: int, bottom: int)
    requires forall a :: a in s ==> a in t
    requires HasShape(s, top, bottom)
    ensures HasShape(t, top, bottom)
  {
    var a :| a in s && SameShape(a, top, bottom);
    assert a in t;
  }

  // ---------------------------------------------------------------------
  // Opening lines

  /** One gap of an opening line: it starts a rectangle at `x` unless its
      shape is already active. */
  function OpenOne(active: seq<Active>, g: Gap, x: int): (r: seq<Active>)
    ensures |active| <= |r| && r[..|active|] == active
    ensures forall a :: a in r ==> a in active || a == Active(x, g.top, g.bottom)
    ensures HasShape(r, g.top, g.bottom)
    ensures UniqueShapes(active) ==> UniqueShapes(r)
  {
    if HasShape(active, g.top, g.bottom) then active
    else
      var a := Active(x, g.top, g.bottom);
      assert (active + [a])[|active|] == a && a in active + [a];
      assert UniqueShapes(active) ==> UniqueShapes(active + [a]) by {
        if UniqueShapes(active) {
          UniqueAppend(active, a);
        }
      }
      active + [a]
  }

  /** An opening line: each gap whose shape is not active starts a rectangle
      at `x`. The rectangles already active stay, in their order. */
  function Open(active: seq<Active>, gaps: seq<Gap>, x: int): (r: seq<Active>)
    ensures |active| <= |r| && r[..|active|] == active
    ensures UniqueShapes(active) ==> UniqueShapes(r)
    decreases |gaps|
  {
    if |gaps| == 0 then active
    else
      var next := OpenOne(active, gaps[0], x);
      var r := Open(next, gaps[1..], x);
      assert r[..|next|][..|active|] == r[..|active|];
      r
  }

  /** Each rectangle an opening line starts begins at the line with the
      shape of a gap. */
  lemma {:induction false} OpenAdds(active: seq<Active>, gaps: seq<Gap>, x: int)
    ensures forall a :: a in Open(active, gaps, x) ==>
              a in active || (a.left == x && exists g :: g in gaps && SameShape(a, g.top, g.bottom))
    decreases |gaps|
  {
    if |gaps| > 0 {
      var next := OpenOne(active, gaps[0], x);
      assert Open(active, gaps, x) == Open(next, gaps[1..], x);
      OpenAdds(next, gaps[1..], x);
      assert gaps[0] in gaps;
      assert forall g :: g in gaps[1..] ==> g in gaps;
    }
  }

  /** After an opening line every gap's shape is active. */
  lemma {:induction false} OpenCovers(active: seq<Active>, gaps: seq<Gap>, x: int)
    ensures forall g :: g in gaps ==> HasShape(Open(active, gaps, x), g.top, g.bottom)
    decreases |gaps|
  {
    if |gaps| > 0 {
      var next := OpenOne(active, gaps[0], x);
      var r := Open(next, gaps[1..], x);
      assert Open(active, gaps, x) == r;
      OpenCovers(next, gaps[1..], x);
      forall g | g in gaps ensures HasShape(r, g.top, g.bottom) {
        if g == gaps[0] {
          PrefixMembers(next, r);
          ShapeKept(next, r, g.top, g.bottom);
        } else {
          assert g in gaps[1..];
        }
      }
    }
  }

  // ---------------------------------------------------------------------
  // Closing lines

  /** A rectangle that fits no gap passes the filter of a closing line for
      every gap: a gap reaching both above its top and below its bottom
      would contain it. */
  lemma NotFittingPassesFilter(a: Active, gaps: seq<Gap>, g: Gap)
    requires !Fits(a, gaps) && g in gaps
    ensures g.top <= a.top || a.bottom <= g.bottom
  {
  }

  /** One gap of a closing line: the continuation of the closed `rect` into
      `g` is appended when `g` passes the filter and neither `all` (the
      active rectangles at this line) nor `spawned` has its shape yet. */
  function ContinueOne(rect: Active, g: Gap, all: seq<Active>, spawned: seq<Active>): (r: seq<Active>)
    ensures |spawned| <= |r| && r[..|spawned|] == spawned
    ensures forall f :: f in r ==>
              f in spawned || (f == Continuation(rect, g) && !HasShape(all, f.top, f.bottom))
    ensures (g.top <= rect.top || rect.bottom <= g.bottom) ==>
              var c := Continuation(rect, g); HasShape(all, c.top, c.bottom) || HasShape(r, c.top, c.bottom)
    ensures UniqueShapes(spawned) ==> UniqueShapes(r)
  {
    var c := Continuation(rect, g);
    if (g.top <= rect.top || rect.bottom <= g.bottom)
       && !HasShape(all, c.top, c.bottom) && !HasShape(spawned, c.top, c.bottom)
    then
      assert (spawned + [c])[|spawned|] == c && c in spawned + [c];
      assert UniqueShapes(spawned) ==> UniqueShapes(spawned + [c]) by {
        if UniqueShapes(spawned) {
          UniqueAppend(spawned, c);
        }
      }
      spawned + [c]
    else spawned
  }

  /** The continuations of the closed `rect` into `gaps`, appended to `spawned`
      unless `all` (the active rectangles at this line) or `spawned` already
      has the shape. */
  function Continue(rect: Active, gaps: seq<Gap>, all: seq<Active>, spawned: seq<Active>): (r: seq<Active>)
    ensures |spawned| <= |r| && r[..|spawned|] == spawned
    ensures UniqueShapes(spawned) ==> UniqueShapes(r)
    decreases |gaps|
  {
    if |gaps| == 0 then spawned
    else
      var next := ContinueOne(rect, gaps[0], all, spawned);
      var r := Continue(rect, gaps[1..], all, next);
      assert r[..|next|][..|spawned|] == r[..|spawned|];
      r
  }

  /** What `Continue` adds: only continuations of `rect` into `gaps`, none
      with a shape active at this line, and nothing already spawned is lost. */
  lemma {:induction false} ContinueAdds(rect: Active, gaps: seq<Gap>, all: seq<Active>, spawned: seq<Active>)
    ensures forall f :: f in Continue(rect, gaps, all, spawned) ==>
              f in spawned || (!HasShape(all, f.top, f.bottom) && exists g :: g in gaps && f == Continuation(rect, g))
    ensures forall f :: f in spawned ==> f in Continue(rect, gaps, all, spawned)
    decreases |gaps|
  {
    PrefixMembers(spawned, Continue(rect, gaps, all, spawned));
    if |gaps| > 0 {
      var next := ContinueOne(rect, gaps[0], all, spawned);
      assert Continue(rect, gaps, all, spawned) == Continue(rect, gaps[1..], all, next);
      ContinueAdds(rect, gaps[1..], all, next);
      assert gaps[0] in gaps;
      assert forall g :: g in gaps[1..] ==> g in gaps;
    }
  }

  /** Every gap passing the filter has its continuation's shape active at
      this line or spawned. */
  lemma {:induction false} ContinueCovers(rect: Active, gaps: seq<Gap>, all: seq<Active>, spawned: seq<Active>)
    ensures forall g :: g in gaps && (g.top <= rect.top || rect.bottom <= g.bottom) ==>
              var c := Continuation(rect, g);
              HasShape(all, c.top, c.bottom) || HasShape(Continue(rect, gaps, all, spawned), c.top, c.bottom)
    decreases |gaps|
  {
    if |gaps| > 0 {
      var g := gaps[0];
      var next := ContinueOne(rect, g, all, spawned);
      var r := Continue(rect, gaps[1..], all, next);
      assert Continue(rect, gaps, all, spawned) == r;
      ContinueCovers(rect, gaps[1..], all, next);
      var c := Continuation(rect, g);
      if HasShape(next, c.top, c.bottom) {
        PrefixMembers(next, r);
        ShapeKept(next, r, c.top, c.bottom);
      }
      assert forall h :: h in gaps ==> h == g || h in gaps[1..] by {
        assert gaps == [g] + gaps[1..];
      }
    }
  }

  /** The accumulators after one active rectangle `a` of a closing line: kept
      when it fits a gap, otherwise emitted at `x - 1` and continued. */
  function CloseOne(a: Active, all: seq<Active>, gaps: seq<Gap>, x: int, acc: Closing): Closing {
    if Fits(a, gaps) then acc.(kept := acc.kept + [a])
    else Closing(acc.kept, Continue(a, gaps, all, acc.spawned), acc.emitted + [Closed(a, x)])
  }

  /** A closing line over the active rectangles `todo` still to visit, `all`
      being every active rectangle at this line. */
  function CloseAll(todo: seq<Active>, all: seq<Active>, gaps: seq<Gap>, x: int, acc: Closing): (r: Closing)
    ensures forall a :: a in r.kept <==> a in acc.kept || (a in todo && Fits(a, gaps))
    ensures forall q :: q in r.emitted <==>
              q in acc.emitted || exists a :: a in todo && !Fits(a, gaps) && q == Closed(a, x)
    decreases |todo|
  {
    if |todo| == 0 then acc
    else
      assert forall b :: b in todo <==> b == todo[0] || b in todo[1..] by {
        assert todo == [todo[0]] + todo[1..];
      }
      CloseAll(todo[1..], all, gaps, x, CloseOne(todo[0], all, gaps, x, acc))
  }

  /** What one rectangle of a closing line spawns: continuations of that
      rectangle, only when it fits no gap, and nothing earlier is lost. */
  lemma CloseOneSpawns(a: Active, all: seq<Active>, gaps: seq<Gap>, x: int, acc: Closing)
    ensures forall f :: f in acc.spawned ==> f in CloseOne(a, all, gaps, x, acc).spawned
    ensures forall f :: f in CloseOne(a, all, gaps, x, acc).spawned && f !in acc.spawned ==>
              !Fits(a, gaps) && !HasShape(all, f.top, f.bottom) && exists g :: g in gaps && f == Continuation(a, g)
  {
    if !Fits(a, gaps) {
      ContinueAdds(a, gaps, all, acc.spawned);
    }
  }

  /** Nothing spawned earlier in a closing line is lost. */
  lemma {:induction false} CloseAllKeepsSpawned(todo: seq<Active>, all: seq<Active>, gaps: seq<Gap>, x: int, acc: Closing)
    ensures forall f :: f in acc.spawned ==> f in CloseAll(todo, all, gaps, x, acc).spawned
    decreases |todo|
  {
    if |todo| > 0 {
      var next := CloseOne(todo[0], all, gaps, x, acc);
      assert CloseAll(todo, all, gaps, x, acc) == CloseAll(todo[1..], all, gaps, x, next);
      CloseAllKeepsSpawned(todo[1..], all, gaps, x, next);
      CloseOneSpawns(todo[0], all, gaps, x, acc);
    }
  }

  /** The spawned continuations of a closing line: each new one continues a
      rectangle of `todo` that fits no gap into one of the gaps, with a shape
      not active at this line. */
  lemma {:induction false} CloseAllSpawns(todo: seq<Active>, all: seq<Active>, gaps: seq<Gap>, x: int, acc: Closing)
    ensures var r := CloseAll(todo, all, gaps, x, acc);
            forall f :: f in r.spawned && f !in acc.spawned ==>
              !HasShape(all, f.top, f.bottom)
              && exists a, g :: a in todo && !Fits(a, gaps) && g in gaps && f == Continuation(a, g)
    decreases |todo|
  {
    if |todo| > 0 {
      var a := todo[0];
      var next := CloseOne(a, all, gaps, x, acc);
      var r := CloseAll(todo[1..], all, gaps, x, next);
      assert CloseAll(todo, all, gaps, x, acc) == r;
      CloseAllSpawns(todo[1..], all, gaps, x, next);
      CloseAllKeepsSpawned(todo[1..], all, gaps, x, next);
      CloseOneSpawns(a, all, gaps, x, acc);
      assert a in todo;
      assert forall b :: b in todo[1..] ==> b in todo;
      forall f | f in r.spawned && f !in acc.spawned
        ensures !HasShape(all, f.top, f.bottom)
                && exists b, g :: b in todo && !Fits(b, gaps) && g in gaps && f == Continuation(b, g)
      {
        if f in next.spawned {
          var g :| g in gaps && f == Continuation(a, g);
        } else {
          var b, g :| b in todo[1..] && !Fits(b, gaps) && g in gaps && f == Continuation(b, g);
        }
      }
    }
  }


  /** Conversely, every rectangle of `todo` that fits no gap is continued
      into every gap: the continuation's shape is active at this line or
      spawned. */
  lemma {:induction false} CloseAllContinues(todo: seq<Active>, all: seq<Active>, gaps: seq<Gap>, x: int, acc: Closing)
    ensures var r := CloseAll(todo, all, gaps, x, acc);
            forall a, g :: a in todo && !Fits(a, gaps) && g in gaps ==>
              HasShape(all, Continuation(a, g).top, Continuation(a, g).bottom)
              || HasShape(r.spawned, Continuation(a, g).top, Continuation(a, g).bottom)
    decreases |todo|
  {
    if |todo| > 0 {
      var a := todo[0];
      var next := CloseOne(a, all, gaps, x, acc);
      var r := CloseAll(todo[1..], all, gaps, x, next);
      assert CloseAll(todo, all, gaps, x, acc) == r;
      CloseAllContinues(todo[1..], all, gaps, x, next);
      forall b, g | b in todo && !Fits(b, gaps) && g in gaps
        ensures HasShape(all, Continuation(b, g).top, Continuation(b, g).bottom)
                || HasShape(r.spawned, Continuation(b, g).top, Continuation(b, g).bottom)
      {
        if b != a {
          assert b in todo[1..];
        } else if !HasShape(all, Continuation(a, g).top, Continuation(a, g).bottom) {
          var k := Continuation(a, g);
          ContinueCovers(a, gaps, all, acc.spawned);
          NotFittingPassesFilter(a, gaps, g);
          CloseAllKeepsSpawned(todo[1..], all, gaps, x, next);
          ShapeKept(next.spawned, r.spawned, k.top, k.bottom);
        }
      }
    }
  }

  /** Processes one event line. */
  function Step(parent: Rect, obs: seq<Rect>, line: Line, st: State): State {
    var gaps := GapsAt(parent, obs, line.x);
    var active := Sort(st.active, ByDescendingLeft);
    if line.opens then
      State(Open(active, gaps, line.x), st.done)
    else
      var c := CloseAll(active, active, gaps, line.x, Closing([], [], []));
      State(c.kept + c.spawned, st.done + c.emitted)
  }

  /** Processes the event lines from left to right. */
  function Run(parent: Rect, obs: seq<Rect>, lines: seq<Line>, st: State): State
    decreases |lines|
  {
    if |lines| == 0 then st
    else Run(parent, obs, lines[1..], Step(parent, obs, lines[0], st))
  }

  /** Emits every remaining active rectangle with the right side `right`. */
  function Flush(active: seq<Active>, right: int): (r: seq<Rect>)
    ensures |r| == |active|
    ensures forall i :: 0 <= i < |r| ==> r[i] == Closed(active[i], right + 1)
    decreases |active|
  {
    if |active| == 0 then []
    else
      var rest := Flush(active[1..], right);
      assert forall i :: 1 <= i < |active| ==> active[i] == active[1..][i - 1];
      [Rect(active[0].left, right, active[0].top, active[0].bottom)] + rest
  }

  /** The unobstructed sub-rectangles of `parent` among `obstructions`. */
  function Decompose(parent: Rect, obstructions: seq<Rect>): (r: seq<Rect>)
    ensures forall q :: q in r ==> InBounds(q, parent)
  {
    var obs := Sort(obstructions, ByDescendingTop);
    var lines := Events(parent, obs);
    RunBounds(parent, obs, lines, State([], []), parent.left - 1);
    var last := Run(parent, obs, lines, State([], []));
    FlushBounds(last.active, parent);
    last.done + Flush(last.active, parent.right)
  }

  /** The gaps the decomposition computes at any line, over the obstructions
      in its descending-top order, hold no height covered by any input
      obstruction spanning that line. */
  lemma DecomposeGapsSound(parent: Rect, obstructions: seq<Rect>, x: int)
    ensures forall g, y :: g in GapsAt(parent, Sort(obstructions, ByDescendingTop), x) && InGap(g, y) ==>
              Free(obstructions, x, y)
  {
    var obs := Sort(obstructions, ByDescendingTop);
    GapsSound(parent, obs, x);
    assert forall o :: o in obs <==> o in multiset(obs);
    assert forall o :: o in obstructions <==> o in multiset(obstructions);
  }

  // ---------------------------------------------------------------------
  // Bounds of the emitted rectangles

  /** Every active rectangle starts inside the parent's x-range, at or before
      `hi`, and lies below the parent's top. */
  predicate ActiveBounds(active: seq<Active>, parent: Rect, hi: int) {
    forall a :: a in active ==> parent.left <= a.left <= hi && a.left <= parent.right && a.top <= parent.top
  }

  lemma SortMembers(s: seq<Active>)
    ensures forall a :: a in Sort(s, ByDescendingLeft) <==> a in s
  {
    var r := Sort(s, ByDescendingLeft);
    assert forall a :: a in r <==> a in multiset(r);
    assert forall a :: a in s <==> a in multiset(s);
  }

  /** One line keeps the active rectangles in bounds, with the line's `x` as
      the new limit, and emits only rectangles in bounds. */
  lemma StepBounds(parent: Rect, obs: seq<Rect>, line: Line, st: State, hi: int)
    requires hi < line.x && parent.left <= line.x <= parent.right
    requires ActiveBounds(st.active, parent, hi)
    ensures ActiveBounds(Step(parent, obs, line, st).active, parent, line.x)
    ensures forall q :: q in Step(parent, obs, line, st).done ==> q in st.done || InBounds(q, parent)
  {
    var gaps := GapsAt(parent, obs, line.x);
    var active := Sort(st.active, ByDescendingLeft);
    SortMembers(st.active);
    if line.opens {
      var r := Open(active, gaps, line.x);
      OpenAdds(active, gaps, line.x);
      forall a | a in r && a !in active
        ensures parent.left <= a.left <= line.x && a.left <= parent.right && a.top <= parent.top
      {
        var g :| g in gaps && SameShape(a, g.top, g.bottom);
      }
    } else {
      var c := CloseAll(active, active, gaps, line.x, Closing([], [], []));
      CloseAllSpawns(active, active, gaps, line.x, Closing([], [], []));
      forall f | f in c.spawned ensures parent.left <= f.left <= line.x && f.left <= parent.right && f.top <= parent.top {
        var b, g :| b in active && !Fits(b, gaps) && g in gaps && f == Continuation(b, g);
      }
      assert forall a :: a in c.kept + c.spawned <==> a in c.kept || a in c.spawned;
      assert forall q :: q in st.done + c.emitted <==> q in st.done || q in c.emitted;
    }
  }

  lemma {:induction false} RunBounds(parent: Rect, obs: seq<Rect>, lines: seq<Line>, st: State, hi: int)
    requires StrictlyIncreasing(lines)
    requires forall l :: l in lines ==> hi < l.x && parent.left <= l.x <= parent.right
    requires ActiveBounds(st.active, parent, hi)
    requires forall q :: q in st.done ==> InBounds(q, parent)
    ensures forall q :: q in Run(parent, obs, lines, st).done ==> InBounds(q, parent)
    ensures forall a :: a in Run(parent, obs, lines, st).active ==>
              parent.left <= a.left <= parent.right && a.top <= parent.top
    decreases |lines|
  {
    if |lines| > 0 {
      var line := lines[0];
      assert line in lines;
      StepBounds(parent, obs, line, st, hi);
      assert forall l :: l in lines[1..] ==> line.x < l.x;
      RunBounds(parent, obs, lines[1..], Step(parent, obs, line, st), line.x);
    }
  }

  /** One line only appends to the emitted rectangles, and an opening line
      appends nothing. */
  lemma StepKeepsDone(parent: Rect, obs: seq<Rect>, line: Line, st: State)
    ensures var r := Step(parent, obs, line, st);
            |st.done| <= |r.done| && r.done[..|st.done|] == st.done
    ensures line.opens ==> Step(parent, obs, line, st).done == st.done
  {
    if !line.opens {
      var gaps := GapsAt(parent, obs, line.x);
      var active := Sort(st.active, ByDescendingLeft);
      var c := CloseAll(active, active, gaps, line.x, Closing([], [], []));
      assert (st.done + c.emitted)[..|st.done|] == st.done;
    }
  }

  /** Nothing emitted is ever taken back, and opening lines alone emit nothing. */
  lemma {:induction false} RunKeepsDone(parent: Rect, obs: seq<Rect>, lines: seq<Line>, st: State)
    ensures var r := Run(parent, obs, lines, st);
            |st.done| <= |r.done| && r.done[..|st.done|] == st.done
    ensures (forall l :: l in lines ==> l.opens) ==> Run(parent, obs, lines, st).done == st.done
    decreases |lines|
  {
    if |lines| > 0 {
      var next := Step(parent, obs, lines[0], st);
      StepKeepsDone(parent, obs, lines[0], st);
      RunKeepsDone(parent, obs, lines[1..], next);
      var r := Run(parent, obs, lines[1..], next);
      assert Run(parent, obs, lines, st) == r;
      assert r.done[..|next.done|][..|st.done|] == r.done[..|st.done|];
      if forall l :: l in lines ==> l.opens {
        assert lines[0] in lines;
        assert forall l :: l in lines[1..] ==> l in lines;
      }
    }
  }

  lemma {:induction false} FlushBounds(active: seq<Active>, parent: Rect)
    requires forall a :: a in active ==> parent.left <= a.left <= parent.right && a.top <= parent.top
    ensures forall q :: q in Flush(active, parent.right) ==> InBounds(q, parent)
    decreases |active|
  {
    if |active| > 0 {
      assert active[0] in active;
      FlushBounds(active[1..], parent);
    }
  }

  // ---------------------------------------------------------------------
  // Shape uniqueness of the active rectangles

  lemma {:induction false} InsertUnique(a: Active, s: seq<Active>)
    requires SortedBy(s, ByDescendingLeft)
    requires UniqueShapes(s) && !HasShape(s, a.top, a.bottom)
    ensures UniqueShapes(Insert(a, s, ByDescendingLeft))
    decreases |s|
  {
    if |s| > 0 && ByDescendingLeft(a) > ByDescendingLeft(s[0]) {
      var rest := Insert(a, s[1..], ByDescendingLeft);
      assert !HasShape(s[1..], a.top, a.bottom) by {
        forall b | b in s[1..] ensures !SameShape(b, a.top, a.bottom) {
          assert b in s;
        }
      }
      assert UniqueShapes(s[1..]) by {
        forall i, j | 0 <= i < j < |s| - 1
          ensures !SameShape(s[1..][i], s[1..][j].top, s[1..][j].bottom)
        {
          assert s[1..][i] == s[i + 1] && s[1..][j] == s[j + 1];
        }
      }
      InsertUnique(a, s[1..]);
      forall j | 0 <= j < |rest| ensures !SameShape(s[0], rest[j].top, rest[j].bottom) {
        var b := rest[j];
        assert b in multiset(rest);
        if b != a {
          assert b in s[1..];
          var k :| 0 <= k < |s| - 1 && s[1..][k] == b;
          assert s[k + 1] == b;
        } else {
          assert s[0] in s;
        }
      }
      assert Insert(a, s, ByDescendingLeft) == [s[0]] + rest;
    } else if |s| > 0 {
      forall j | 0 <= j < |s| ensures !SameShape(a, s[j].top, s[j].bottom) {
        assert s[j] in s;
      }
    }
  }

  /** Sorting the active rectangles keeps their shapes unique. */
  lemma {:induction false} SortUnique(s: seq<Active>)
    requires UniqueShapes(s)
    ensures UniqueShapes(Sort(s, ByDescendingLeft))
    decreases |s|
  {
    if |s| > 0 {
      assert UniqueShapes(s[1..]) by {
        forall i, j | 0 <= i < j < |s| - 1
          ensures !SameShape(s[1..][i], s[1..][j].top, s[1..][j].bottom)
        {
          assert s[1..][i] == s[i + 1] && s[1..][j] == s[j + 1];
        }
      }
      SortUnique(s[1..]);
      var t := Sort(s[1..], ByDescendingLeft);
      assert !HasShape(t, s[0].top, s[0].bottom) by {
        forall b | b in t ensures !SameShape(b, s[0].top, s[0].bottom) {
          assert b in multiset(t);
          var k :| 0 <= k < |s| - 1 && s[1..][k] == b;
          assert s[k + 1] == b;
        }
      }
      InsertUnique(s[0], t);
    }
  }

  /** Kept rectangles, all taken from `all`, followed by spawned ones whose
      shapes are not in `all`, have distinct shapes. */
  lemma KeptThenSpawnedUnique(kept: seq<Active>, spawned: seq<Active>, all: seq<Active>)
    requires forall a :: a in kept ==> a in all
    requires UniqueShapes(kept) && UniqueShapes(spawned)
    requires forall f :: f in spawned ==> !HasShape(all, f.top, f.bottom)
    ensures UniqueShapes(kept + spawned)
  {
    forall f | f in spawned ensures !HasShape(kept, f.top, f.bottom) {
      forall b | b in kept ensures !SameShape(b, f.top, f.bottom) {
        assert b in all;
      }
    }
    UniqueConcat(kept, spawned);
  }

  /** No entry of `s` has the shape of an entry of `t`. */
  predicate NoSharedShape(s: seq<Active>, t: seq<Active>) {
    forall a, b :: a in s && b in t ==> !SameShape(a, b.top, b.bottom)
  }

  /** One rectangle of a closing line keeps the invariant of `CloseAllUnique`
      for the rectangles still to visit. */
  lemma CloseOneUnique(todo: seq<Active>, all: seq<Active>, gaps: seq<Gap>, x: int, acc: Closing)
    requires |todo| > 0 && UniqueShapes(todo) && (forall a :: a in todo ==> a in all)
    requires UniqueShapes(acc.kept) && UniqueShapes(acc.spawned) && NoSharedShape(acc.kept, todo)
    requires forall a :: a in acc.kept ==> a in all
    requires forall f :: f in acc.spawned ==> !HasShape(all, f.top, f.bottom)
    ensures var next := CloseOne(todo[0], all, gaps, x, acc);
            && UniqueShapes(todo[1..]) && (forall a :: a in todo[1..] ==> a in all)
            && UniqueShapes(next.kept) && UniqueShapes(next.spawned) && NoSharedShape(next.kept, todo[1..])
            && (forall a :: a in next.kept ==> a in all)
            && (forall f :: f in next.spawned ==> !HasShape(all, f.top, f.bottom))
  {
    var a := todo[0];
    assert a in todo;
    assert forall b :: b in todo[1..] ==> b in todo;
    assert UniqueShapes(todo[1..]) by {
      forall i, j | 0 <= i < j < |todo| - 1
        ensures !SameShape(todo[1..][i], todo[1..][j].top, todo[1..][j].bottom)
      {
        assert todo[1..][i] == todo[i + 1] && todo[1..][j] == todo[j + 1];
      }
    }
    assert forall b :: b in todo[1..] ==> !SameShape(a, b.top, b.bottom) by {
      forall b | b in todo[1..] ensures !SameShape(a, b.top, b.bottom) {
        var j :| 0 <= j < |todo| - 1 && todo[1..][j] == b;
        assert todo[j + 1] == b;
      }
    }
    if Fits(a, gaps) {
      UniqueAppend(acc.kept, a);
    } else {
      ContinueAdds(a, gaps, all, acc.spawned);
    }
  }

  lemma {:induction false} CloseAllUnique(todo: seq<Active>, all: seq<Active>, gaps: seq<Gap>, x: int, acc: Closing)
    requires UniqueShapes(todo) && (forall a :: a in todo ==> a in all)
    requires UniqueShapes(acc.kept) && UniqueShapes(acc.spawned) && NoSharedShape(acc.kept, todo)
    requires forall a :: a in acc.kept ==> a in all
    requires forall f :: f in acc.spawned ==> !HasShape(all, f.top, f.bottom)
    ensures UniqueShapes(CloseAll(todo, all, gaps, x, acc).kept + CloseAll(todo, all, gaps, x, acc).spawned)
    decreases |todo|
  {
    if |todo| == 0 {
      KeptThenSpawnedUnique(acc.kept, acc.spawned, all);
    } else {
      var next := CloseOne(todo[0], all, gaps, x, acc);
      assert CloseAll(todo, all, gaps, x, acc) == CloseAll(todo[1..], all, gaps, x, next);
      CloseOneUnique(todo, all, gaps, x, acc);
      CloseAllUnique(todo[1..], all, gaps, x, next);
    }
  }

  /** Shape uniqueness survives one line, opening or closing. */
  lemma StepUnique(parent: Rect, obs: seq<Rect>, line: Line, st: State)
    requires UniqueShapes(st.active)
    ensures UniqueShapes(Step(parent, obs, line, st).active)
  {
    var gaps := GapsAt(parent, obs, line.x);
    var active := Sort(st.active, ByDescendingLeft);
    SortUnique(st.active);
    if !line.opens {
      CloseAllUnique(active, active, gaps, line.x, Closing([], [], []));
    }
  }

  lemma {:induction false} RunUnique(parent: Rect, obs: seq<Rect>, lines: seq<Line>, st: State)
    requires UniqueShapes(st.active)
    ensures UniqueShapes(Run(parent, obs, lines, st).active)
    decreases |lines|
  {
    if |lines| > 0 {
      StepUnique(parent, obs, lines[0], st);
      RunUnique(parent, obs, lines[1..], Step(parent, obs, lines[0], st));
    }
  }

  /** After each of the first `k` event lines of a decomposition, no two active
      rectangles share a shape. */
  lemma ActiveShapesUnique(parent: Rect, obstructions: seq<Rect>, k: nat)
    requires k <= |Events(parent, Sort(obstructions, ByDescendingTop))|
    ensures var obs := Sort(obstructions, ByDescendingTop);
            UniqueShapes(Run(parent, obs, Events(parent, obs)[..k], State([], [])).active)
  {
    var obs := Sort(obstructions, ByDescendingTop);
    RunUnique(parent, obs, Events(parent, obs)[..k], State([], []));
  }

  // ---------------------------------------------------------------------
  // What one line does

  /** An opening line keeps every active rectangle and emits nothing; after
      it every gap's shape is active, and every new rectangle starts at the
      line with the shape of a gap. */
  lemma OpeningLine(parent: Rect, obs: seq<Rect>, line: Line, st: State)
    requires line.opens
    ensures var gaps := GapsAt(parent, obs, line.x);
            var next := Step(parent, obs, line, st);
            && next.done == st.done
            && (forall a :: a in st.active ==> a in next.active)
            && (forall g :: g in gaps ==> HasShape(next.active, g.top, g.bottom))
            && (forall a :: a in next.active && a !in st.active ==>
                  a.left == line.x && exists g :: g in gaps && SameShape(a, g.top, g.bottom))
  {
    var gaps := GapsAt(parent, obs, line.x);
    var active := Sort(st.active, ByDescendingLeft);
    SortMembers(st.active);
    var r := Open(active, gaps, line.x);
    assert Step(parent, obs, line, st) == State(r, st.done);
    PrefixMembers(active, r);
    OpenCovers(active, gaps, line.x);
    OpenAdds(active, gaps, line.x);
  }

  /** A closing line keeps exactly the active rectangles that still fit a
      gap, emits exactly the others, each ending at `x - 1`, and adds only
      continuations of the emitted ones, each keeping the left side of the
      rectangle it continues. */
  lemma ClosingLine(parent: Rect, obs: seq<Rect>, line: Line, st: State)
    requires !line.opens
    ensures var gaps := GapsAt(parent, obs, line.x);
            var next := Step(parent, obs, line, st);
            && (forall a :: a in st.active ==> (a in next.active <==> Fits(a, gaps)))
            && (forall q :: q in next.done <==>
                  q in st.done || exists a :: a in st.active && !Fits(a, gaps) && q == Closed(a, line.x))
            && (forall f :: f in next.active && f !in st.active ==>
                  exists a, g :: a in st.active && !Fits(a, gaps) && g in gaps && f == Continuation(a, g))
  {
    var gaps := GapsAt(parent, obs, line.x);
    var active := Sort(st.active, ByDescendingLeft);
    SortMembers(st.active);
    var c := CloseAll(active, active, gaps, line.x, Closing([], [], []));
    CloseAllSpawns(active, active, gaps, line.x, Closing([], [], []));
    assert forall a :: a in c.kept + c.spawned <==> a in c.kept || a in c.spawned;
    assert forall q :: q in st.done + c.emitted <==> q in st.done || q in c.emitted;
    forall a | a in active && a in c.spawned ensures false {
      assert SameShape(a, a.top, a.bottom);
    }
  }

  /** Conversely, a closing line continues every emitted rectangle into every
      gap: afterwards each continuation's shape is active, either spawned or
      already held by an active rectangle, which then fits the gap and stays. */
  lemma ClosingLineContinues(parent: Rect, obs: seq<Rect>, line: Line, st: State)
    requires !line.opens
    ensures var gaps := GapsAt(parent, obs, line.x);
            forall a, g :: a in st.active && !Fits(a, gaps) && g in gaps ==>
              HasShape(Step(parent, obs, line, st).active, Continuation(a, g).top, Continuation(a, g).bottom)
  {
    var gaps := GapsAt(parent, obs, line.x);
    var active := Sort(st.active, ByDescendingLeft);
    SortMembers(st.active);
    var c := CloseAll(active, active, gaps, line.x, Closing([], [], []));
    CloseAllContinues(active, active, gaps, line.x, Closing([], [], []));
    forall a, g | a in st.active && !Fits(a, gaps) && g in gaps
      ensures HasShape(c.kept + c.spawned, Continuation(a, g).top, Continuation(a, g).bottom)
    {
      var k := Continuation(a, g);
      assert a in active;
      if HasShape(active, k.top, k.bottom) {
        // The active rectangle with the continuation's shape fits `g`, so it is kept.
        var b :| b in active && SameShape(b, k.top, k.bottom);
        assert Fits(b, gaps);
        assert b in c.kept + c.spawned;
      } else {
        var b :| b in c.spawned && SameShape(b, k.top, k.bottom);
        assert b in c.kept + c.spawned;
      }
    }
  }
}
