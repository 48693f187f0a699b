/**
 * The disjoint-set forest that `connected_components` builds in count_rice.py:
 * a growing list `parent` of provisional labels, where `parent[i] == i` marks a
 * root. Index 0 is a sentinel that is never used as a label.
 */
module UnionFind {

  /** Every element points to itself or to an earlier element, so following
      parent links always ends at a root. */
  predicate IsForest(parent: seq<int>)
  {
    forall i :: 0 <= i < |parent| ==> 0 <= parent[i] <= i
  }

  /** The root of the set that holds `i`. */
  ghost function Root(parent: seq<int>, i: int): (r: int)
    requires IsForest(parent) && 0 <= i < |parent|
    ensures 0 <= r <= i && parent[r] == r
    decreases i
  {
    if parent[i] == i then i else Root(parent, parent[i])
  }

  /** The elements that `find` walks through from `i` before it reaches the
      root: `i` and its ancestors, the root excluded. */
  ghost function Path(parent: seq<int>, i: int): (p: set<int>)
    requires IsForest(parent) && 0 <= i < |parent|
    ensures forall j :: j in p ==> 0 <= j <= i && parent[j] != j
    ensures parent[i] != i ==> i in p
    decreases i
  {
    if parent[i] == i then {} else {i} + Path(parent, parent[i])
  }

  /** Every element on the walked path lies in the set of `i`. */
  lemma {:induction false} PathInSet(parent: seq<int>, i: int)
    requires IsForest(parent) && 0 <= i < |parent|
    ensures forall j :: j in Path(parent, i) ==> Root(parent, j) == Root(parent, i)
    decreases i
  {
    if parent[i] != i {
      PathInSet(parent, parent[i]);
    }
  }

  /** `after` is `before` with the sets of `a` and `b` merged under the smaller
      of their two roots; every other set keeps its root. */
  ghost predicate MergedAt(before: seq<int>, after: seq<int>, a: int, b: int)
    requires IsForest(before) && IsForest(after) && |after| == |before|
    requires 0 <= a < |before| && 0 <= b < |before|
  {
    var ra, rb := Root(before, a), Root(before, b);
    forall i :: 0 <= i < |before| ==>
      Root(after, i) ==
        if Root(before, i) == ra || Root(before, i) == rb
        then (if ra < rb then ra else rb)
        else Root(before, i)
  }

  /** Every two elements in one set of `before` are in one set of `after`
      (which may have grown since). */
  ghost predicate Coarser(before: seq<int>, after: seq<int>)
    requires IsForest(before) && IsForest(after) && |after| >= |before|
  {
    forall i, j :: 0 <= i < |before| && 0 <= j < |before| && Root(before, i) == Root(before, j) ==>
      Root(after, i) == Root(after, j)
  }

  /** Every entry of `ls` is an element of the forest. */
  ghost predicate AllIn(parent: seq<int>, ls: seq<int>)
  {
    forall j :: 0 <= j < |ls| ==> 0 <= ls[j] < |parent|
  }

  /** The roots, in `parent`, of the elements listed in `ls`. */
  ghost function RootsOf(parent: seq<int>, ls: seq<int>): set<int>
    requires IsForest(parent) && AllIn(parent, ls)
  {
    set j | 0 <= j < |ls| :: Root(parent, ls[j])
  }

  /** `after` is `before` with the sets of all elements of `ls` merged into
      one set, rooted at the least of their old roots; every other set keeps
      its root. */
  ghost predicate MergedAll(before: seq<int>, after: seq<int>, ls: seq<int>)
    requires IsForest(before) && IsForest(after) && |after| == |before|
    requires |ls| > 0 && AllIn(before, ls)
  {
    var rs := RootsOf(before, ls);
    Root(after, ls[0]) in rs &&
    (forall r :: r in rs ==> Root(after, ls[0]) <= r) &&
    forall i :: 0 <= i < |before| ==>
      Root(after, i) == if Root(before, i) in rs then Root(after, ls[0]) else Root(before, i)
  }

  /** Before any union, the one set of `a` is trivially merged. */
  lemma MergedAllStart(parent: seq<int>, a: int)
    requires IsForest(parent) && 0 <= a < |parent|
    ensures MergedAll(parent, parent, [a])
  {
    var rs := RootsOf(parent, [a]);
    assert Root(parent, [a][0]) in rs;
    assert forall r :: r in rs ==> r == Root(parent, a);
  }

  /** Listing the first element again merges nothing new. */
  lemma MergedAllRepeat(before: seq<int>, after: seq<int>, ls: seq<int>)
    requires IsForest(before) && IsForest(after) && |after| == |before|
    requires |ls| > 0 && AllIn(before, ls) && MergedAll(before, after, ls)
    ensures MergedAll(before, after, ls + [ls[0]])
  {
    assert RootsOf(before, ls + [ls[0]]) == RootsOf(before, ls) by {
      assert forall j :: 0 <= j < |ls| ==> (ls + [ls[0]])[j] == ls[j];
    }
  }

  /** Merging the set of `b` into the merged set of `ls` (by one union with
      `ls[0]`) gives the merged set of `ls + [b]`. */
  lemma MergedAllStep(orig: seq<int>, before: seq<int>, after: seq<int>, ls: seq<int>, b: int)
    requires IsForest(orig) && IsForest(before) && IsForest(after)
    requires |before| == |orig| && |after| == |orig|
    requires |ls| > 0 && AllIn(orig, ls) && 0 <= b < |orig|
    requires MergedAll(orig, before, ls) && MergedAt(before, after, b, ls[0])
    ensures MergedAll(orig, after, ls + [b])
  {
    var rs := RootsOf(orig, ls);
    var rs' := RootsOf(orig, ls + [b]);
    assert rs' == rs + {Root(orig, b)} by {
      assert forall j :: 0 <= j < |ls| ==> (ls + [b])[j] == ls[j];
      assert (ls + [b])[|ls|] == b;
    }
    assert (ls + [b])[0] == ls[0];
    forall i | 0 <= i < |orig|
      ensures Root(after, i) == if Root(orig, i) in rs' then Root(after, ls[0]) else Root(orig, i)
    {
      MergedAllStepAt(orig, before, after, ls, b, i);
    }
    MergedAllStepAt(orig, before, after, ls, b, ls[0]);
  }

  lemma MergedAllStepAt(orig: seq<int>, before: seq<int>, after: seq<int>, ls: seq<int>, b: int, i: int)
    requires IsForest(orig) && IsForest(before) && IsForest(after)
    requires |before| == |orig| && |after| == |orig|
    requires |ls| > 0 && AllIn(orig, ls) && 0 <= b < |orig| && 0 <= i < |orig|
    requires MergedAll(orig, before, ls) && MergedAt(before, after, b, ls[0])
    ensures Root(after, ls[0]) in RootsOf(orig, ls) + {Root(orig, b)}
    ensures forall r :: r in RootsOf(orig, ls) + {Root(orig, b)} ==> Root(after, ls[0]) <= r
    ensures Root(after, i) ==
      if Root(orig, i) in RootsOf(orig, ls) + {Root(orig, b)} then Root(after, ls[0]) else Root(orig, i)
  {
    var rs := RootsOf(orig, ls);
    var r, rb := Root(before, ls[0]), Root(before, b);
    assert Root(before, b) == if Root(orig, b) in rs then r else Root(orig, b);
    assert Root(before, i) == if Root(orig, i) in rs then r else Root(orig, i);
  }

  /** After merging the sets of `ls`, they form one set, and the partition
      is only coarser. */
  lemma MergedAllJoins(before: seq<int>, after: seq<int>, ls: seq<int>)
    requires IsForest(before) && IsForest(after) && |after| == |before|
    requires |ls| > 0 && AllIn(before, ls) && MergedAll(before, after, ls)
    ensures Coarser(before, after)
    ensures forall j :: 0 <= j < |ls| ==> Root(after, ls[j]) == Root(after, ls[0])
  {
    var rs := RootsOf(before, ls);
    forall j | 0 <= j < |ls|
      ensures Root(after, ls[j]) == Root(after, ls[0])
    {
      assert Root(before, ls[j]) in rs;
    }
  }

  /** Pointing one element straight at its own root changes no element's root. */
  lemma {:induction false} CompressKeepsRootAt(parent: seq<int>, j: int, i: int)
    requires IsForest(parent) && 0 <= j < |parent| && 0 <= i < |parent|
    ensures IsForest(parent[j := Root(parent, j)])
    ensures Root(parent[j := Root(parent, j)], i) == Root(parent, i)
    decreases i
  {
    var p' := parent[j := Root(parent, j)];
    if parent[i] != i && i != j {
      CompressKeepsRootAt(parent, j, parent[i]);
    } else if i == j && parent[j] != j {
      var r := Root(parent, j);
      assert p'[r] == r;
    }
  }

  lemma CompressKeepsRoots(parent: seq<int>, j: int)
    requires IsForest(parent) && 0 <= j < |parent|
    ensures IsForest(parent[j := Root(parent, j)])
    ensures forall i :: 0 <= i < |parent| ==> Root(parent[j := Root(parent, j)], i) == Root(parent, i)
  {
    forall i | 0 <= i < |parent|
      ensures Root(parent[j := Root(parent, j)], i) == Root(parent, i)
    {
      CompressKeepsRootAt(parent, j, i);
    }
    if |parent| > 0 {
      CompressKeepsRootAt(parent, j, 0);
    }
  }

  /** Hanging root `b` under the smaller root `a` moves exactly the elements of
      b's set into a's set. */
  lemma {:induction false} LinkRootAt(parent: seq<int>, a: int, b: int, i: int)
    requires IsForest(parent) && 0 <= a < b < |parent| && parent[a] == a && parent[b] == b
    requires 0 <= i < |parent|
    ensures IsForest(parent[b := a])
    ensures Root(parent[b := a], i) == if Root(parent, i) == b then a else Root(parent, i)
    decreases i
  {
    if parent[i] != i {
      LinkRootAt(parent, a, b, parent[i]);
    }
  }

  /** Appending a self-rooted element equal to the old length keeps every
      existing root and makes the new element its own root. */
  lemma {:induction false} AppendKeepsRootAt(parent: seq<int>, i: int)
    requires IsForest(parent) && 0 <= i < |parent|
    ensures IsForest(parent + [|parent|])
    ensures Root(parent + [|parent|], i) == Root(parent, i)
    decreases i
  {
    if parent[i] != i {
      AppendKeepsRootAt(parent, parent[i]);
    }
  }

  /** The forest of count_rice.py:103-127, with the three nested helpers as methods. */
  class DisjointSet {
    var parent: seq<int>

    ghost predicate Valid()
      reads this
    {
      |parent| >= 1 && IsForest(parent)
    }

    /** Starts with the sentinel alone. */
    constructor ()
      ensures Valid() && parent == [0]
    {
      parent := [0];
    }

    /** `make_set`: appends a new singleton whose index is the old length. */
    method MakeSet() returns (x: int)
      requires Valid()
      modifies this
      ensures Valid()
      ensures x == |old(parent)| && parent == old(parent) + [x]
      ensures Root(parent, x) == x
      ensures forall i :: 0 <= i < x ==> Root(parent, i) == Root(old(parent), i)
    {
      forall i | 0 <= i < |parent|
        ensures Root(parent + [|parent|], i) == Root(parent, i)
      {
        AppendKeepsRootAt(parent, i);
      }
      AppendKeepsRootAt(parent, 0);
      parent := parent + [|parent|];
      x := |parent| - 1;
    }

    /** `find`: walks up to the root, then points every element on the walked
        path straight at it. No element's root changes. */
    method Find(x: int) returns (root: int)
      requires Valid() && 0 <= x < |parent|
      modifies this
      ensures Valid() && |parent| == |old(parent)|
      ensures root == Root(old(parent), x)
      ensures forall i :: 0 <= i < |parent| ==> Root(parent, i) == Root(old(parent), i)
      ensures parent[x] == root
      ensures forall i :: 0 <= i < |parent| ==> parent[i] == if i in Path(old(parent), x) then root else old(parent)[i]
    {
      root := x;
      while parent[root] != root
        invariant 0 <= root <= x
        invariant Root(parent, root) == Root(parent, x)
        decreases root
      {
        root := parent[root];
      }
      var y := x;
      while parent[y] != root
        invariant Valid() && |parent| == |old(parent)|
        invariant 0 <= y < |parent|
        invariant root == Root(old(parent), x) == Root(parent, y)
        invariant forall i :: 0 <= i < |parent| ==> Root(parent, i) == Root(old(parent), i)
        invariant y <= x && (y == x || parent[x] == root)
        invariant Path(old(parent), y) <= Path(old(parent), x)
        invariant forall i :: 0 <= i < |parent| ==>
          parent[i] == if i in Path(old(parent), x) - Path(old(parent), y) then root else old(parent)[i]
        decreases y
      {
        var next := parent[y];
        CompressKeepsRoots(parent, y);
        parent := parent[y := root];
        y := next;
      }
    }

    /** `union`: finds both roots and, when they differ, attaches the larger root
        under the smaller one. Exactly the two sets of `a` and `b` are merged,
        and the merged set is rooted at the smaller root. */
    method Union(a: int, b: int)
      requires Valid() && 0 <= a < |parent| && 0 <= b < |parent|
      modifies this
      ensures Valid() && |parent| == |old(parent)|
      ensures MergedAt(old(parent), parent, a, b)
    {
      var ra := Find(a);
      var rb := Find(b);
      if ra == rb {
        return;
      }
      ghost var p := parent;
      if ra < rb {
        forall i | 0 <= i < |p| ensures Root(p[rb := ra], i) == if Root(p, i) == rb then ra else Root(p, i) {
          LinkRootAt(p, ra, rb, i);
        }
        LinkRootAt(p, ra, rb, 0);
        parent := parent[rb := ra];
      } else {
        forall i | 0 <= i < |p| ensures Root(p[ra := rb], i) == if Root(p, i) == ra then rb else Root(p, i) {
          LinkRootAt(p, rb, ra, i);
        }
        LinkRootAt(p, rb, ra, 0);
        parent := parent[ra := rb];
      }
    }
  }
}
