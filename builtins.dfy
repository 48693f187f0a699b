/**
 * The Python built-ins `min`, `max`, `sum` and `sorted` on lists of integers,
 * as the labeller and the neighbourhood filters use them.
 */
module Builtins {

  /** `min(s)`: an element of `s` that no element undercuts. */
  function Min(s: seq<int>): (m: int)
    requires |s| > 0
    ensures m in s
    ensures forall i :: 0 <= i < |s| ==> m <= s[i]
  {
    if |s| == 1 then s[0]
    else
      var rest := Min(s[1..]);
      if s[0] <= rest then s[0] else rest
  }

  /** `max(s)`: an element of `s` that no element exceeds. */
  function Max(s: seq<int>): (m: int)
    requires |s| > 0
    ensures m in s
    ensures forall i :: 0 <= i < |s| ==> s[i] <= m
  {
    if |s| == 1 then s[0]
    else
      var rest := Max(s[1..]);
      if s[0] >= rest then s[0] else rest
  }

  /** `sum(s)`. */
  function Sum(s: seq<int>): int
  {
    if |s| == 0 then 0 else s[0] + Sum(s[1..])
  }

  /** `sum` adds the entries from left to right: the sum of a list is the sum
      of all but its last entry, plus the last entry. */
  lemma {:induction false} SumSnoc(s: seq<int>)
    requires |s| > 0
    ensures Sum(s) == Sum(s[..|s| - 1]) + s[|s| - 1]
  {
    if |s| > 1 {
      assert s[1..][..|s| - 2] == s[..|s| - 1][1..];
      SumSnoc(s[1..]);
    }
  }

  /** A sum lies between `|s|` times the smallest element and `|s|` times the largest. */
  lemma {:induction false} SumBounds(s: seq<int>, lo: int, hi: int)
    requires forall i :: 0 <= i < |s| ==> lo <= s[i] <= hi
    ensures |s| * lo <= Sum(s) <= |s| * hi
  {
    if |s| > 0 {
      SumBounds(s[1..], lo, hi);
      assert |s| * lo == lo + (|s| - 1) * lo;
      assert |s| * hi == hi + (|s| - 1) * hi;
    }
  }

  predicate IsSorted(s: seq<int>)
  {
    forall i, j :: 0 <= i < j < |s| ==> s[i] <= s[j]
  }

  /** Places `x` into the sorted list `s`. */
  function Insert(x: int, s: seq<int>): (r: seq<int>)
    requires IsSorted(s)
    ensures IsSorted(r) && |r| == |s| + 1
    ensures multiset(r) == multiset(s) + multiset{x}
  {
    if |s| == 0 then [x]
    else if x <= s[0] then [x] + s
    else
      var tail := Insert(x, s[1..]);
      InsertBehindHead(x, s, tail);
      [s[0]] + tail
  }

  /** Inserting `x` above the head of `s` into its tail keeps the head in front. */
  lemma InsertBehindHead(x: int, s: seq<int>, tail: seq<int>)
    requires IsSorted(s) && |s| > 0 && s[0] < x
    requires IsSorted(tail) && multiset(tail) == multiset(s[1..]) + multiset{x}
    ensures IsSorted([s[0]] + tail)
    ensures multiset([s[0]] + tail) == multiset(s) + multiset{x}
  {
    assert s == [s[0]] + s[1..];
    forall i | 0 <= i < |tail|
      ensures s[0] <= tail[i]
    {
      assert tail[i] in multiset(tail);
      if tail[i] != x {
        assert tail[i] in multiset(s[1..]);
        var j :| 0 <= j < |s[1..]| && s[1..][j] == tail[i];
        assert s[1..][j] == s[j + 1];
      }
    }
    SortedCons(s[0], tail);
    assert multiset([s[0]] + tail) == multiset{s[0]} + multiset(tail);
  }

  /** A value no larger than any entry of a sorted list may go in front of it. */
  lemma SortedCons(h: int, t: seq<int>)
    requires IsSorted(t) && forall i :: 0 <= i < |t| ==> h <= t[i]
    ensures IsSorted([h] + t)
  {
    var r := [h] + t;
    forall i, j | 0 <= i < j < |r|
      ensures r[i] <= r[j]
    {
      assert r[j] == t[j - 1];
      if i > 0 {
        assert r[i] == t[i - 1];
      }
    }
  }

  /** `sorted(s)`: the elements of `s` in ascending order. */
  function Sorted(s: seq<int>): (r: seq<int>)
    ensures IsSorted(r) && |r| == |s|
    ensures multiset(r) == multiset(s)
  {
    if |s| == 0 then []
    else
      assert s == [s[0]] + s[1..];
      Insert(s[0], Sorted(s[1..]))
  }
}
