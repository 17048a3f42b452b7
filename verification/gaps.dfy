/**
 Section 2 of the sweep: the free vertical intervals ("gaps") at one event
 line.

 The obstructions spanning the line are read like shingles on a roof, from
 the highest top down. A cursor starts at the parent's top; a shingle whose
 top is below the cursor leaves the gap `[cursor, top + 1]`, and the cursor
 then falls to `min(cursor, bottom - 1)`. Whatever remains at or above the
 parent's bottom is the last gap.

 `bottom - 1` would overflow a bounded coordinate type at its minimum; the
 model uses unbounded integers. Obstruction y-ranges are not clipped to the
 parent, so a gap can reach below the parent's bottom when an obstruction
 lies wholly beneath the parent.
 */
module Gaps {
  import opened Rectangles
  import opened Sorting

  /** A free vertical interval; both ends inclusive. */
  datatype Gap = Gap(top: int, bottom: int)

  predicate InGap(g: Gap, y: int) {
    g.bottom <= y <= g.top
  }

  /** The obstruction's x-span contains the line at `x`. */
  predicate Spans(o: Rect, x: int) {
    o.left <= x <= o.right
  }

  /** The obstruction's y-span contains `y`. */
  predicate Blocks(o: Rect, y: int) {
    o.bottom <= y <= o.top
  }

  /** No obstruction spanning the line at `x` covers height `y`. */
  predicate Free(obs: seq<Rect>, x: int, y: int) {
    forall o :: o in obs && Spans(o, x) ==> !Blocks(o, y)
  }

  /** Gaps listed top to bottom, each strictly below the previous one. */
  predicate TopToBottom(gaps: seq<Gap>) {
    forall i, j :: 0 <= i < j < |gaps| ==> gaps[j].top < gaps[i].bottom
  }

  /** The obstructions that span the line at `x`, in their order. */
  function Covering(obs: seq<Rect>, x: int): (r: seq<Rect>)
    ensures forall o :: o in r <==> o in obs && Spans(o, x)
    ensures SortedBy(obs, ByDescendingTop) ==> SortedBy(r, ByDescendingTop)
    decreases |obs|
  {
    if |obs| == 0 then []
    else
      var rest := Covering(obs[1..], x);
      assert forall o :: o in obs <==> o == obs[0] || o in obs[1..] by {
        assert obs == [obs[0]] + obs[1..];
      }
      assert SortedBy(obs, ByDescendingTop) ==>
               forall o :: o in rest ==> ByDescendingTop(obs[0]) <= ByDescendingTop(o) by {
        if SortedBy(obs, ByDescendingTop) {
          forall o | o in rest ensures ByDescendingTop(obs[0]) <= ByDescendingTop(o) {
            var j :| 0 <= j < |obs| - 1 && obs[1..][j] == o;
            assert obs[j + 1] == o;
          }
        }
      }
      if Spans(obs[0], x) then [obs[0]] + rest else rest
  }

  /** The shingle scan over the spanning obstructions `obs`, with the cursor
      at `cursor` and the parent's bottom at `floor`. */
  function Shingle(cursor: int, obs: seq<Rect>, floor: int): (r: seq<Gap>)
    ensures forall i :: 0 <= i < |r| ==> r[i].bottom <= r[i].top <= cursor
    decreases |obs|
  {
    if |obs| == 0 then
      if cursor >= floor then [Gap(cursor, floor)] else []
    else
      var o := obs[0];
      var here := if cursor > o.top then [Gap(cursor, o.top + 1)] else [];
      here + Shingle(Min(cursor, o.bottom - 1), obs[1..], floor)
  }

  /** The gaps at the line `x` of the sweep over `parent`. */
  function GapsAt(parent: Rect, obs: seq<Rect>, x: int): (r: seq<Gap>)
    ensures forall g :: g in r ==> g.bottom <= g.top <= parent.top
  {
    Shingle(parent.top, Covering(obs, x), parent.bottom)
  }

  lemma {:induction false} ShingleSound(cursor: int, obs: seq<Rect>, floor: int, g: Gap, y: int, o: Rect)
    requires SortedBy(obs, ByDescendingTop)
    requires g in Shingle(cursor, obs, floor) && InGap(g, y)
    requires o in obs
    ensures !Blocks(o, y)
    decreases |obs|
  {
    var o0 := obs[0];
    var c := Min(cursor, o0.bottom - 1);
    var tail := Shingle(c, obs[1..], floor);
    var here := if cursor > o0.top then [Gap(cursor, o0.top + 1)] else [];
    assert Shingle(cursor, obs, floor) == here + tail;
    if g in tail {
      // y is at or below the cursor after `o0`, so below `o0`'s bottom.
      var i :| 0 <= i < |tail| && tail[i] == g;
      if o in obs[1..] {
        ShingleSound(c, obs[1..], floor, g, y, o);
      } else {
        assert o == o0;
      }
    } else {
      // y is above `o0`'s top, and `o0` has the highest top of all.
      assert g == Gap(cursor, o0.top + 1);
      var k :| 0 <= k < |obs| && obs[k] == o;
      assert ByDescendingTop(obs[0]) <= ByDescendingTop(obs[k]);
    }
  }

  lemma {:induction false} ShingleComplete(cursor: int, obs: seq<Rect>, floor: int, y: int)
    requires floor <= y <= cursor
    requires forall o :: o in obs ==> !Blocks(o, y)
    ensures exists g :: g in Shingle(cursor, obs, floor) && InGap(g, y)
    decreases |obs|
  {
    if |obs| == 0 {
      assert Gap(cursor, floor) in Shingle(cursor, obs, floor);
    } else {
      var o0 := obs[0];
      var c := Min(cursor, o0.bottom - 1);
      var tail := Shingle(c, obs[1..], floor);
      var here := if cursor > o0.top then [Gap(cursor, o0.top + 1)] else [];
      assert Shingle(cursor, obs, floor) == here + tail;
      if y > o0.top {
        assert here[0] in Shingle(cursor, obs, floor) && InGap(here[0], y);
      } else {
        assert !Blocks(o0, y);
        ShingleComplete(c, obs[1..], floor, y);
        var g :| g in tail && InGap(g, y);
        assert g in Shingle(cursor, obs, floor);
      }
    }
  }

  lemma {:induction false} ShingleTopToBottom(cursor: int, obs: seq<Rect>, floor: int)
    requires forall o :: o in obs ==> o.bottom <= o.top
    ensures TopToBottom(Shingle(cursor, obs, floor))
    decreases |obs|
  {
    if |obs| > 0 {
      var o0 := obs[0];
      var c := Min(cursor, o0.bottom - 1);
      var tail := Shingle(c, obs[1..], floor);
      var here := if cursor > o0.top then [Gap(cursor, o0.top + 1)] else [];
      ShingleTopToBottom(c, obs[1..], floor);
      assert o0 in obs;
      assert forall j :: 0 <= j < |tail| ==> tail[j].top < o0.top + 1;
    }
  }

  /** Soundness: in obstructions sorted by descending top, no height inside a
      gap is covered by an obstruction spanning the line. */
  lemma GapsSound(parent: Rect, obs: seq<Rect>, x: int)
    requires SortedBy(obs, ByDescendingTop)
    ensures forall g, y :: g in GapsAt(parent, obs, x) && InGap(g, y) ==> Free(obs, x, y)
  {
    forall g, y, o | g in GapsAt(parent, obs, x) && InGap(g, y) && o in obs && Spans(o, x)
      ensures !Blocks(o, y)
    {
      ShingleSound(parent.top, Covering(obs, x), parent.bottom, g, y, o);
    }
  }

  /** Completeness: every free height of the parent lies in some gap. This
      needs neither sorted nor well-formed obstructions. */
  lemma GapsComplete(parent: Rect, obs: seq<Rect>, x: int)
    ensures forall y :: parent.bottom <= y <= parent.top && Free(obs, x, y) ==>
              exists g :: g in GapsAt(parent, obs, x) && InGap(g, y)
  {
    forall y | parent.bottom <= y <= parent.top && Free(obs, x, y)
      ensures exists g :: g in GapsAt(parent, obs, x) && InGap(g, y)
    {
      ShingleComplete(parent.top, Covering(obs, x), parent.bottom, y);
    }
  }

  /** With well-formed spanning obstructions the gaps come out top to bottom, and so no
      two of them share a height. */
  lemma GapsTopToBottom(parent: Rect, obs: seq<Rect>, x: int)
    requires forall o :: o in obs && Spans(o, x) ==> o.bottom <= o.top
    ensures TopToBottom(GapsAt(parent, obs, x))
    ensures var gaps := GapsAt(parent, obs, x);
            forall i, j, y :: 0 <= i < |gaps| && 0 <= j < |gaps| && InGap(gaps[i], y) && InGap(gaps[j], y) ==> i == j
  {
    ShingleTopToBottom(parent.top, Covering(obs, x), parent.bottom);
  }
}
