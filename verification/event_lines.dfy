/**
 Section 1 of the sweep: the vertical lines at which the set of free
 intervals may change.

 The parent contributes an opening line at its left side; every
 obstruction contributes a closing line at its left side and an opening
 line just after its right side. The lines are sorted by x, lines with
 equal x are collapsed to the first of them, and lines outside the
 parent's x-range are dropped.

 `right + 1` would overflow a bounded coordinate type at its maximum; the
 model uses unbounded integers.
 */
module EventLines {
  import opened Rectangles
  import opened Sorting

  datatype Line = Line(x: int, opens: bool)

  function LineX(l: Line): int {
    l.x
  }

  predicate StrictlyIncreasing(lines: seq<Line>) {
    forall i, j :: 0 <= i < j < |lines| ==> lines[i].x < lines[j].x
  }

  /** The lines of the obstructions, in their order: close at `left`, open at `right + 1`. */
  function ObstructionLines(obs: seq<Rect>): (r: seq<Line>)
    ensures |r| == 2 * |obs|
    ensures forall i :: 0 <= i < |obs| ==>
              r[2 * i] == Line(obs[i].left, false) && r[2 * i + 1] == Line(obs[i].right + 1, true)
    decreases |obs|
  {
    if |obs| == 0 then []
    else
      var rest := ObstructionLines(obs[1..]);
      assert forall i :: 1 <= i < |obs| ==> obs[i] == obs[1..][i - 1];
      [Line(obs[0].left, false), Line(obs[0].right + 1, true)] + rest
  }

  /** Every line, before sorting: the parent's opening line comes first. */
  function RawLines(parent: Rect, obs: seq<Rect>): (r: seq<Line>)
    ensures |r| > 0 && r[0] == Line(parent.left, true)
    ensures forall l :: l in r <==>
              l == Line(parent.left, true)
              || exists o :: o in obs && (l == Line(o.left, false) || l == Line(o.right + 1, true))
  {
    var lines := ObstructionLines(obs);
    assert forall l :: l in lines ==>
              exists o :: o in obs && (l == Line(o.left, false) || l == Line(o.right + 1, true)) by {
      forall l | l in lines
        ensures exists o :: o in obs && (l == Line(o.left, false) || l == Line(o.right + 1, true))
      {
        var k :| 0 <= k < |lines| && lines[k] == l;
        assert obs[k / 2] in obs;
        assert k == 2 * (k / 2) || k == 2 * (k / 2) + 1;
      }
    }
    assert forall o :: o in obs ==> Line(o.left, false) in lines && Line(o.right + 1, true) in lines by {
      forall o | o in obs ensures Line(o.left, false) in lines && Line(o.right + 1, true) in lines {
        var i :| 0 <= i < |obs| && obs[i] == o;
        assert lines[2 * i] == Line(o.left, false);
      }
    }
    [Line(parent.left, true)] + lines
  }

  /** Collapses each run of consecutive lines with equal x to its first line. */
  function Dedup(s: seq<Line>): (r: seq<Line>)
    requires SortedBy(s, LineX)
    ensures StrictlyIncreasing(r)
    ensures |s| > 0 ==> |r| > 0 && r[0] == s[0]
    ensures forall l :: l in r ==> l in s
    decreases |s|
  {
    if |s| <= 1 then s
    else if s[0].x == s[1].x then
      Dedup([s[0]] + s[2..])
    else
      var rest := Dedup(s[1..]);
      assert forall l :: l in rest ==> s[0].x < l.x by {
        forall l | l in rest ensures s[0].x < l.x {
          var i :| 0 <= i < |s[1..]| && s[1..][i] == l;
          assert LineX(s[0]) <= LineX(s[1]) <= LineX(s[i + 1]);
        }
      }
      [s[0]] + rest
  }

  /** Keeps the lines with `lo <= x <= hi`, in order. */
  function Within(s: seq<Line>, lo: int, hi: int): (r: seq<Line>)
    ensures forall l :: l in r <==> l in s && lo <= l.x <= hi
    ensures StrictlyIncreasing(s) ==> StrictlyIncreasing(r)
    decreases |s|
  {
    if |s| == 0 then []
    else
      var rest := Within(s[1..], lo, hi);
      assert forall l :: l in rest ==> l in s[1..];
      if lo <= s[0].x <= hi then [s[0]] + rest else rest
  }

  /** The event lines of one decomposition, for obstructions already in sweep order. */
  function Events(parent: Rect, obs: seq<Rect>): (r: seq<Line>)
    ensures StrictlyIncreasing(r)
    ensures forall l :: l in r ==> parent.left <= l.x <= parent.right
    ensures forall l :: l in r ==> l in RawLines(parent, obs)
  {
    var sorted := Sort(RawLines(parent, obs), LineX);
    assert forall l :: l in sorted ==> l in multiset(sorted);
    Within(Dedup(sorted), parent.left, parent.right)
  }

  lemma {:induction false} DedupKeepsFirst(s: seq<Line>, k: int)
    requires SortedBy(s, LineX)
    ensures Find(Dedup(s), LineX, k) == Find(s, LineX, k)
    decreases |s|
  {
    if |s| <= 1 {
    } else if s[0].x == s[1].x {
      var t := [s[0]] + s[2..];
      DedupKeepsFirst(t, k);
      assert t[1..] == s[2..];
      assert s[1..][1..] == s[2..];
    } else {
      DedupKeepsFirst(s[1..], k);
      assert ([s[0]] + Dedup(s[1..]))[1..] == Dedup(s[1..]);
    }
  }

  lemma {:induction false} WithinKeepsFirst(s: seq<Line>, lo: int, hi: int, k: int)
    ensures Find(Within(s, lo, hi), LineX, k) == if lo <= k <= hi then Find(s, LineX, k) else None
    decreases |s|
  {
    if |s| > 0 {
      WithinKeepsFirst(s[1..], lo, hi, k);
      var rest := Within(s[1..], lo, hi);
      assert ([s[0]] + rest)[1..] == rest;
    }
  }

  /** For every x in the parent's range, the event line at x is exactly the
      first line built at x (so its `opens` flag is that line's flag), and
      there is no event line at any other x. */
  lemma EventsKeepFirst(parent: Rect, obs: seq<Rect>, k: int)
    ensures Find(Events(parent, obs), LineX, k)
            == if parent.left <= k <= parent.right then Find(RawLines(parent, obs), LineX, k) else None
  {
    var raw := RawLines(parent, obs);
    SortKeepsFirst(raw, LineX, k);
    DedupKeepsFirst(Sort(raw, LineX), k);
    WithinKeepsFirst(Dedup(Sort(raw, LineX)), parent.left, parent.right, k);
  }

  /** The parent's opening line wins the tie at `parent.left`: when the parent
      is not empty in x, the first event line is it. */
  lemma ParentLineFirst(parent: Rect, obs: seq<Rect>)
    requires parent.left <= parent.right
    ensures |Events(parent, obs)| > 0 && Events(parent, obs)[0] == Line(parent.left, true)
  {
    var r := Events(parent, obs);
    EventsKeepFirst(parent, obs, parent.left);
    assert Find(r, LineX, parent.left) == Some(Line(parent.left, true));
    var i :| 0 <= i < |r| && r[i] == Line(parent.left, true);
  }
}
