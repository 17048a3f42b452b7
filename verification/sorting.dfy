/**
 The sorts the sweep relies on: the obstructions by descending top, the
 event lines by x and the active rectangles by descending left.

 The source uses unstable sorts, whose order among equal keys is
 unspecified. This model fixes one legal order: a stable insertion sort by
 an integer key (a descending order is an ascending order of the negated
 key). `Find` picks out the first element with a given key, and
 `SortKeepsFirst` says that sorting does not change it, which is what
 decides which line survives deduplication.
 */
module Sorting {

  datatype Option<T> = None | Some(value: T)

  /** `s` is in non-decreasing order of `key`. */
  predicate SortedBy<T>(s: seq<T>, key: T -> int) {
    forall i, j :: 0 <= i < j < |s| ==> key(s[i]) <= key(s[j])
  }

  /** Inserts `x` before the first element whose key is not smaller,
      so `x` precedes every element of `s` with the same key. */
  function Insert<T>(x: T, s: seq<T>, key: T -> int): (r: seq<T>)
    requires SortedBy(s, key)
    ensures |r| == |s| + 1
    ensures r[0] == x || (|s| > 0 && r[0] == s[0])
    ensures multiset(r) == multiset(s) + multiset{x}
    ensures SortedBy(r, key)
    decreases |s|
  {
    if |s| == 0 then [x]
    else if key(x) <= key(s[0]) then [x] + s
    else
      var rest := Insert(x, s[1..], key);
      assert s == [s[0]] + s[1..];
      assert key(s[0]) <= key(rest[0]);
      [s[0]] + rest
  }

  /** Stable insertion sort by `key`. */
  function Sort<T>(s: seq<T>, key: T -> int): (r: seq<T>)
    ensures multiset(r) == multiset(s)
    ensures SortedBy(r, key)
    decreases |s|
  {
    if |s| == 0 then []
    else
      assert s == [s[0]] + s[1..];
      Insert(s[0], Sort(s[1..], key), key)
  }

  /** The first element of `s` whose key is `k`, if any. */
  function Find<T>(s: seq<T>, key: T -> int, k: int): (r: Option<T>)
    ensures r.None? <==> forall i :: 0 <= i < |s| ==> key(s[i]) != k
    ensures r.Some? ==> exists i :: 0 <= i < |s| && s[i] == r.value && key(s[i]) == k
                                    && forall j :: 0 <= j < i ==> key(s[j]) != k
    decreases |s|
  {
    if |s| == 0 then None
    else if key(s[0]) == k then Some(s[0])
    else
      var r := Find(s[1..], key, k);
      assert r.Some? ==> exists i :: 0 < i < |s| && s[i] == r.value && key(s[i]) == k
                                     && forall j :: 0 <= j < i ==> key(s[j]) != k by {
        if r.Some? {
          var i :| 0 <= i < |s| - 1 && s[1..][i] == r.value && key(s[1..][i]) == k
                   && forall j :: 0 <= j < i ==> key(s[1..][j]) != k;
          assert forall j :: 0 <= j < i + 1 ==> key(s[j]) != k by {
            forall j | 0 <= j < i + 1 ensures key(s[j]) != k {
              if j > 0 { assert s[j] == s[1..][j - 1]; }
            }
          }
        }
      }
      r
  }

  lemma {:induction false} FindInsert<T>(x: T, s: seq<T>, key: T -> int, k: int)
    requires SortedBy(s, key)
    ensures Find(Insert(x, s, key), key, k) == if key(x) == k then Some(x) else Find(s, key, k)
    decreases |s|
  {
    if |s| == 0 {
    } else if key(x) <= key(s[0]) {
      assert ([x] + s)[1..] == s;
    } else {
      var rest := Insert(x, s[1..], key);
      FindInsert(x, s[1..], key, k);
      assert ([s[0]] + rest)[1..] == rest;
    }
  }

  /** Sorting keeps, for every key, the first element carrying it: the sort is stable. */
  lemma {:induction false} SortKeepsFirst<T>(s: seq<T>, key: T -> int, k: int)
    ensures Find(Sort(s, key), key, k) == Find(s, key, k)
    decreases |s|
  {
    if |s| > 0 {
      SortKeepsFirst(s[1..], key, k);
      FindInsert(s[0], Sort(s[1..], key), key, k);
    }
  }
}
