/**
 * `filter_by_area` of count_rice.py: components whose pixel count lies in
 * `[min_area, max_area]` are kept and renumbered 1, 2, ... in ascending order
 * of their old label; every other pixel becomes background.
 */
module AreaFilter {
  import opened Connectivity
  import opened Labeling

  // ---------------------------------------------------------------------------
  // Areas

  /** Number of entries of `row` equal to `lab`. */
  function CountIn(row: seq<int>, lab: int): nat
  {
    if |row| == 0 then 0
    else CountIn(row[..|row| - 1], lab) + (if row[|row| - 1] == lab then 1 else 0)
  }

  /** Number of pixels labelled `lab` in the first `n` rows. */
  function AreaRows(labels: seq<seq<int>>, lab: int, n: int): nat
    requires 0 <= n <= |labels|
  {
    if n == 0 then 0 else AreaRows(labels, lab, n - 1) + CountIn(labels[n - 1], lab)
  }

  /** The area of component `lab`: its number of pixels. */
  function Area(labels: seq<seq<int>>, lab: int): nat
  {
    AreaRows(labels, lab, |labels|)
  }

  /** The pixels of a label map in scan order: row 0, then row 1, ... */
  function RowMajor(labels: seq<seq<int>>): seq<int>
  {
    if |labels| == 0 then [] else RowMajor(labels[..|labels| - 1]) + labels[|labels| - 1]
  }

  /** `CountIn` counts exactly the occurrences of `lab` in the row. */
  lemma {:induction false} CountInOccurrences(row: seq<int>, lab: int)
    ensures CountIn(row, lab) == multiset(row)[lab]
  {
    if |row| > 0 {
      CountInOccurrences(row[..|row| - 1], lab);
      assert row == row[..|row| - 1] + [row[|row| - 1]];
    }
  }

  /** The area of a label is how often it occurs among all pixels in scan order. */
  lemma {:induction false} AreaOccurrences(labels: seq<seq<int>>, lab: int)
    ensures Area(labels, lab) == multiset(RowMajor(labels))[lab]
  {
    AreaRowsOccurrences(labels, lab, |labels|);
    assert labels[..|labels|] == labels;
  }

  lemma {:induction false} AreaRowsOccurrences(labels: seq<seq<int>>, lab: int, n: int)
    requires 0 <= n <= |labels|
    ensures AreaRows(labels, lab, n) == multiset(RowMajor(labels[..n]))[lab]
  {
    if n > 0 {
      AreaRowsOccurrences(labels, lab, n - 1);
      CountInOccurrences(labels[n - 1], lab);
      assert labels[..n][..n - 1] == labels[..n - 1];
    }
  }

  lemma {:induction false} CountInPositive(row: seq<int>, lab: int)
    requires CountIn(row, lab) > 0
    ensures exists x :: 0 <= x < |row| && row[x] == lab
  {
    if row[|row| - 1] != lab {
      CountInPositive(row[..|row| - 1], lab);
      var x :| 0 <= x < |row| - 1 && row[..|row| - 1][x] == lab;
      assert row[x] == lab;
    }
  }

  lemma {:induction false} AreaRowsPositive(labels: seq<seq<int>>, lab: int, n: int)
    requires 0 <= n <= |labels| && AreaRows(labels, lab, n) > 0
    ensures exists p :: InGrid(labels, p) && labels[p.0][p.1] == lab
  {
    if CountIn(labels[n - 1], lab) > 0 {
      CountInPositive(labels[n - 1], lab);
      var x :| 0 <= x < |labels[n - 1]| && labels[n - 1][x] == lab;
      assert InGrid(labels, (n - 1, x));
    } else {
      AreaRowsPositive(labels, lab, n - 1);
    }
  }

  /** A component has a positive area exactly when some pixel carries its label. */
  lemma AreaPositiveIffOccurs(labels: seq<seq<int>>, lab: int)
    ensures Area(labels, lab) > 0 <==> LabelOccurs(labels, lab)
  {
    if Area(labels, lab) > 0 {
      AreaRowsPositive(labels, lab, |labels|);
    }
    if LabelOccurs(labels, lab) {
      var p :| InGrid(labels, p) && labels[p.0][p.1] == lab;
      CountInAt(labels[p.0], lab, p.1);
      AreaRowsAt(labels, lab, p.0, |labels|);
    }
  }

  lemma {:induction false} CountInAt(row: seq<int>, lab: int, x: int)
    requires 0 <= x < |row| && row[x] == lab
    ensures CountIn(row, lab) > 0
    decreases |row|
  {
    if x < |row| - 1 {
      CountInAt(row[..|row| - 1], lab, x);
    }
  }

  lemma {:induction false} AreaRowsAt(labels: seq<seq<int>>, lab: int, y: int, n: int)
    requires 0 <= y < n <= |labels| && CountIn(labels[y], lab) > 0
    ensures AreaRows(labels, lab, n) > 0
  {
    if y < n - 1 {
      AreaRowsAt(labels, lab, y, n - 1);
    }
  }

  /** Two rows whose `j`-entries sit exactly where the other row has `a` entries
      count the same. */
  lemma {:induction false} CountInTransfer(r: seq<int>, s: seq<int>, j: int, a: int)
    requires |r| == |s| && forall x :: 0 <= x < |r| ==> (r[x] == j <==> s[x] == a)
    ensures CountIn(r, j) == CountIn(s, a)
  {
    if |r| > 0 {
      CountInTransfer(r[..|r| - 1], s[..|s| - 1], j, a);
    }
  }

  lemma {:induction false} AreaRowsTransfer(g: seq<seq<int>>, l: seq<seq<int>>, j: int, a: int, n: int)
    requires SameShape(g, l) && 0 <= n <= |g|
    requires forall p :: InGrid(l, p) ==> (g[p.0][p.1] == j <==> l[p.0][p.1] == a)
    ensures AreaRows(g, j, n) == AreaRows(l, a, n)
  {
    if n > 0 {
      AreaRowsTransfer(g, l, j, a, n - 1);
      var y := n - 1;
      forall x | 0 <= x < |g[y]|
        ensures g[y][x] == j <==> l[y][x] == a
      {
        assert InGrid(l, (y, x));
      }
      CountInTransfer(g[y], l[y], j, a);
    }
  }

  /** Component `j` of `g` covers exactly the pixels of component `a` of `l`,
      so their areas agree. */
  lemma AreaTransfer(g: seq<seq<int>>, l: seq<seq<int>>, j: int, a: int)
    requires SameShape(g, l)
    requires forall p :: InGrid(l, p) ==> (g[p.0][p.1] == j <==> l[p.0][p.1] == a)
    ensures Area(g, j) == Area(l, a)
  {
    AreaRowsTransfer(g, l, j, a, |g|);
  }

  // ---------------------------------------------------------------------------
  // Which components are kept, and their new numbers

  /** `min_area <= cnt <= max_area` for a label that occurs and is not background. */
  ghost predicate Kept(labels: seq<seq<int>>, minArea: int, maxArea: int, lab: int)
  {
    lab != 0 && Area(labels, lab) > 0 && minArea <= Area(labels, lab) <= maxArea
  }

  /** Every label that occurs in the grid. */
  ghost function LabelSet(labels: seq<seq<int>>): set<int>
  {
    set y, x | 0 <= y < |labels| && 0 <= x < |labels[y]| :: labels[y][x]
  }

  /** `valid_labels`. */
  ghost function KeptSet(labels: seq<seq<int>>, minArea: int, maxArea: int): (s: set<int>)
    ensures forall lab :: lab in s <==> Kept(labels, minArea, maxArea, lab)
  {
    var s := set lab | lab in LabelSet(labels) && Kept(labels, minArea, maxArea, lab);
    forall lab | Kept(labels, minArea, maxArea, lab)
      ensures lab in s
    {
      AreaPositiveIffOccurs(labels, lab);
      var p :| InGrid(labels, p) && labels[p.0][p.1] == lab;
    }
    s
  }

  predicate StrictlyIncreasing(s: seq<int>)
  {
    forall i, j :: 0 <= i < j < |s| ==> s[i] < s[j]
  }

  /** The least element of a non-empty set. */
  ghost function SetMin(s: set<int>): (m: int)
    requires s != {}
    ensures m in s && forall v :: v in s ==> m <= v
    decreases |s|
  {
    assert (forall v :: v !in s) ==> s == {};
    var x: int :| x in s;
    var others := s - {x};
    if others == {} then
      assert forall v :: v in s ==> v == x || v in others;
      x
    else
      var rest := SetMin(others);
      assert forall v :: v in s ==> v == x || v in others;
      if x <= rest then x else rest
  }

  /** `sorted(s)` for a set: its elements in ascending order. */
  ghost function SortedElems(s: set<int>): (r: seq<int>)
    ensures StrictlyIncreasing(r) && |r| == |s|
    ensures forall v :: v in r <==> v in s
    decreases |s|
  {
    if s == {} then []
    else
      var m := SetMin(s);
      var rest := SortedElems(s - {m});
      assert |s - {m}| == |s| - 1;
      assert forall v :: v in rest ==> v in s && v != m;
      AscendingCons(m, rest);
      assert forall v :: v in s ==> v == m || v in s - {m};
      [m] + rest
  }

  /** Putting an element below all others in front of an ascending listing. */
  lemma AscendingCons(m: int, rest: seq<int>)
    requires StrictlyIncreasing(rest) && forall v :: v in rest ==> m < v
    ensures StrictlyIncreasing([m] + rest)
    ensures forall v :: v in [m] + rest <==> v == m || v in rest
  {
    var r := [m] + rest;
    forall i, j | 0 <= i < j < |r|
      ensures r[i] < r[j]
    {
      assert r[j] == rest[j - 1];
      if i > 0 {
        assert r[i] == rest[i - 1];
      } else {
        assert rest[j - 1] in rest;
      }
    }
  }

  /** A set has only one ascending listing. */
  lemma {:induction false} AscendingListingUnique(a: seq<int>, b: seq<int>)
    requires StrictlyIncreasing(a) && StrictlyIncreasing(b)
    requires forall v :: v in a <==> v in b
    ensures a == b
  {
    assert |a| > 0 ==> a[0] in a && a[0] in b;
    assert |b| > 0 ==> b[0] in b && b[0] in a;
    if |a| > 0 && |b| > 0 {
      // Both heads are the least element.
      assert a[0] in b && b[0] in a;
      assert a[0] == b[0];
      forall v ensures v in a[1..] <==> v in b[1..] {
        if v in a[1..] {
          assert v in b && v != b[0];
        }
        if v in b[1..] {
          assert v in a && v != a[0];
        }
      }
      AscendingListingUnique(a[1..], b[1..]);
    }
  }

  /** The position of `v` in an ascending listing. */
  ghost function IndexOf(s: seq<int>, v: int): (i: int)
    requires v in s
    ensures 0 <= i < |s| && s[i] == v
  {
    var i :| 0 <= i < |s| && s[i] == v; i
  }

  /** In an ascending listing the position of `s[i]` is `i`. */
  lemma IndexOfAscending(s: seq<int>, i: int)
    requires StrictlyIncreasing(s) && 0 <= i < |s|
    ensures IndexOf(s, s[i]) == i
  {
  }

  /** The number a label receives: its 1-based position among the kept labels
      in ascending order, or 0 when it is dropped. */
  ghost function NewLabel(labels: seq<seq<int>>, minArea: int, maxArea: int, lab: int): (r: int)
    ensures r == 0 <==> !Kept(labels, minArea, maxArea, lab)
    ensures Kept(labels, minArea, maxArea, lab) ==> 1 <= r <= |KeptSet(labels, minArea, maxArea)|
  {
    var kept := KeptSet(labels, minArea, maxArea);
    if lab in kept then IndexOf(SortedElems(kept), lab) + 1 else 0
  }

  /** The label map that `filter_by_area` returns. */
  ghost function AreaFiltered(labels: seq<seq<int>>, minArea: int, maxArea: int): (r: seq<seq<int>>)
    ensures SameShape(r, labels)
    ensures forall p :: InGrid(labels, p) ==> r[p.0][p.1] == NewLabel(labels, minArea, maxArea, labels[p.0][p.1])
  {
    seq(|labels|, y requires 0 <= y < |labels| =>
      seq(|labels[y]|, x requires 0 <= x < |labels[y]| => NewLabel(labels, minArea, maxArea, labels[y][x])))
  }

  // ---------------------------------------------------------------------------
  // What the renumbering promises

  /** A pixel stays foreground exactly when its component's area is within
      `[min_area, max_area]` (both ends inclusive); kept components get the
      numbers `1..count`. */
  lemma KeptExactly(labels: seq<seq<int>>, minArea: int, maxArea: int, p: Pixel)
    requires InGrid(labels, p)
    ensures var n := AreaFiltered(labels, minArea, maxArea)[p.0][p.1];
      (n != 0 <==> minArea <= Area(labels, labels[p.0][p.1]) <= maxArea && labels[p.0][p.1] != 0) &&
      0 <= n <= |KeptSet(labels, minArea, maxArea)|
  {
    AreaPositiveIffOccurs(labels, labels[p.0][p.1]);
  }

  /** Renumbering keeps the order of kept labels, so distinct components stay
      distinct and the smallest old label becomes 1. */
  lemma NewLabelMonotone(labels: seq<seq<int>>, minArea: int, maxArea: int, a: int, b: int)
    requires Kept(labels, minArea, maxArea, a) && Kept(labels, minArea, maxArea, b)
    ensures a < b <==> NewLabel(labels, minArea, maxArea, a) < NewLabel(labels, minArea, maxArea, b)
    ensures a == b <==> NewLabel(labels, minArea, maxArea, a) == NewLabel(labels, minArea, maxArea, b)
  {
    var order := SortedElems(KeptSet(labels, minArea, maxArea));
    var i, j := IndexOf(order, a), IndexOf(order, b);
    if i < j {
      assert order[i] < order[j];
    } else if j < i {
      assert order[j] < order[i];
    }
  }

  /** Every number in `1..count` is used: the result is densely labelled. */
  lemma FilteredDense(labels: seq<seq<int>>, minArea: int, maxArea: int)
    ensures DenseLabels(AreaFiltered(labels, minArea, maxArea), |KeptSet(labels, minArea, maxArea)|)
  {
    var kept := KeptSet(labels, minArea, maxArea);
    var f := AreaFiltered(labels, minArea, maxArea);
    forall p | InGrid(f, p)
      ensures 0 <= f[p.0][p.1] <= |kept|
    {
      assert InGrid(labels, p);
    }
    forall k | 1 <= k <= |kept|
      ensures LabelOccurs(f, k)
    {
      NumberUsed(labels, minArea, maxArea, k);
    }
  }

  /** The `k`-th smallest kept label lies somewhere, and there the result holds `k`. */
  lemma NumberUsed(labels: seq<seq<int>>, minArea: int, maxArea: int, k: int)
    requires 1 <= k <= |KeptSet(labels, minArea, maxArea)|
    ensures LabelOccurs(AreaFiltered(labels, minArea, maxArea), k)
  {
    var kept := KeptSet(labels, minArea, maxArea);
    var order := SortedElems(kept);
    var f := AreaFiltered(labels, minArea, maxArea);
    var lab := order[k - 1];
    assert lab in kept;
    AreaPositiveIffOccurs(labels, lab);
    var p :| InGrid(labels, p) && labels[p.0][p.1] == lab;
    IndexOfAscending(order, k - 1);
    assert f[p.0][p.1] == k;
  }

  /** Component `NewLabel(a)` of the result is exactly component `a` of the input. */
  lemma NewComponentIsOld(labels: seq<seq<int>>, minArea: int, maxArea: int, a: int)
    requires Kept(labels, minArea, maxArea, a)
    ensures Area(AreaFiltered(labels, minArea, maxArea), NewLabel(labels, minArea, maxArea, a)) == Area(labels, a)
  {
    var f := AreaFiltered(labels, minArea, maxArea);
    var j := NewLabel(labels, minArea, maxArea, a);
    forall p | InGrid(labels, p)
      ensures f[p.0][p.1] == j <==> labels[p.0][p.1] == a
    {
      var b := labels[p.0][p.1];
      if Kept(labels, minArea, maxArea, b) {
        NewLabelMonotone(labels, minArea, maxArea, a, b);
      }
    }
    AreaTransfer(f, labels, j, a);
  }

  /** The kept labels of the result are exactly `1..count`. */
  lemma FilteredKeptSet(labels: seq<seq<int>>, minArea: int, maxArea: int)
    ensures forall k :: k in KeptSet(AreaFiltered(labels, minArea, maxArea), minArea, maxArea) <==>
      1 <= k <= |KeptSet(labels, minArea, maxArea)|
  {
    var n := |KeptSet(labels, minArea, maxArea)|;
    var f := AreaFiltered(labels, minArea, maxArea);
    FilteredDense(labels, minArea, maxArea);
    forall k
      ensures k in KeptSet(f, minArea, maxArea) <==> 1 <= k <= n
    {
      if 1 <= k <= n {
        NumberKeptAgain(labels, minArea, maxArea, k);
      } else if k != 0 {
        UnusedNumber(f, n, k);
        AreaPositiveIffOccurs(f, k);
      }
    }
  }

  /** The component numbered `k` in the result passes the bounds again. */
  lemma NumberKeptAgain(labels: seq<seq<int>>, minArea: int, maxArea: int, k: int)
    requires 1 <= k <= |KeptSet(labels, minArea, maxArea)|
    ensures Kept(AreaFiltered(labels, minArea, maxArea), minArea, maxArea, k)
  {
    var order := SortedElems(KeptSet(labels, minArea, maxArea));
    IndexOfAscending(order, k - 1);
    assert order[k - 1] in KeptSet(labels, minArea, maxArea);
    NewComponentIsOld(labels, minArea, maxArea, order[k - 1]);
  }

  /** A densely labelled map uses no number outside `1..n` but 0. */
  lemma UnusedNumber(f: seq<seq<int>>, n: int, k: int)
    requires DenseLabels(f, n) && !(1 <= k <= n) && k != 0
    ensures !LabelOccurs(f, k)
  {
  }

  /** When the kept labels are exactly `1..n`, renumbering is the identity. */
  lemma RenumberingOfRange(labels: seq<seq<int>>, minArea: int, maxArea: int, n: int)
    requires n >= 0 && forall k :: k in KeptSet(labels, minArea, maxArea) <==> 1 <= k <= n
    ensures |KeptSet(labels, minArea, maxArea)| == n
    ensures forall k :: 0 <= k <= n ==> NewLabel(labels, minArea, maxArea, k) == k
  {
    var kept := KeptSet(labels, minArea, maxArea);
    var ones := seq(n, i requires 0 <= i < n => i + 1);
    forall k
      ensures k in kept <==> k in ones
    {
      if 1 <= k <= n {
        assert ones[k - 1] == k;
      }
    }
    AscendingListingUnique(SortedElems(kept), ones);
    forall k | 1 <= k <= n
      ensures NewLabel(labels, minArea, maxArea, k) == k
    {
      IndexOfAscending(ones, k - 1);
    }
  }

  /** Filtering a second time with the same bounds changes nothing: every
      surviving component already has an admissible area and the numbers
      `1..count` are already in ascending order. */
  lemma FilterIdempotent(labels: seq<seq<int>>, minArea: int, maxArea: int)
    ensures var f := AreaFiltered(labels, minArea, maxArea);
      AreaFiltered(f, minArea, maxArea) == f &&
      |KeptSet(f, minArea, maxArea)| == |KeptSet(labels, minArea, maxArea)|
  {
    var n := |KeptSet(labels, minArea, maxArea)|;
    var f := AreaFiltered(labels, minArea, maxArea);
    FilteredDense(labels, minArea, maxArea);
    FilteredKeptSet(labels, minArea, maxArea);
    RenumberingOfRange(f, minArea, maxArea, n);
    GridExt(AreaFiltered(f, minArea, maxArea), f);
  }

  // ---------------------------------------------------------------------------
  // filter_by_area

  /** `counts[lab]` once the scan has reached `(y, x)`. */
  function Partial(labels: seq<seq<int>>, lab: int, y: int, x: int): nat
    requires 0 <= y < |labels| && 0 <= x <= |labels[y]|
  {
    AreaRows(labels, lab, y) + CountIn(labels[y][..x], lab)
  }

  /** The area-counting loop (count_rice.py:176-183): `counts` maps every
      non-zero label that occurs to its area. */
  method CountAreas(labels: seq<seq<int>>, w: int) returns (counts: map<int, int>)
    requires w >= 0 && IsGrid(labels, |labels|, w)
    ensures forall lab :: lab in counts <==> lab != 0 && Area(labels, lab) > 0
    ensures forall lab :: lab in counts ==> counts[lab] == Area(labels, lab)
  {
    counts := map[];
    for y := 0 to |labels|
      invariant forall lab :: lab in counts <==> lab != 0 && AreaRows(labels, lab, y) > 0
      invariant forall lab :: lab in counts ==> counts[lab] == AreaRows(labels, lab, y)
    {
      for x := 0 to w
        invariant forall lab :: lab in counts <==> lab != 0 && Partial(labels, lab, y, x) > 0
        invariant forall lab :: lab in counts ==> counts[lab] == Partial(labels, lab, y, x)
      {
        assert labels[y][..x + 1][..x] == labels[y][..x];
        var lab := labels[y][x];
        if lab == 0 {
          continue;
        }
        counts := counts[lab := (if lab in counts then counts[lab] else 0) + 1];
      }
      assert labels[y][..w] == labels[y];
    }
  }

  /** The least element of a non-empty set, found by a linear scan. */
  method MinOf(s: set<int>) returns (m: int)
    requires s != {}
    ensures m in s && forall v :: v in s ==> m <= v
  {
    assert (forall v :: v !in s) ==> s == {};
    m :| m in s;
    var rest := s - {m};
    while rest != {}
      invariant rest <= s && m in s
      invariant forall v :: v in s && v !in rest ==> m <= v
      decreases |rest|
    {
      assert (forall v :: v !in rest) ==> rest == {};
      var v: int :| v in rest;
      if v < m {
        m := v;
      }
      rest := rest - {v};
    }
  }

  /** After `count` rounds of the numbering loop: the `count` least valid
      labels have been numbered `1..count` and the others remain. */
  ghost predicate NumberingInv(order: seq<int>, valid: set<int>, remaining: set<int>, newMap: map<int, int>, count: int)
  {
    0 <= count <= |order| && |remaining| == |order| - count &&
    remaining <= valid && newMap.Keys <= valid &&
    (forall v :: v in valid <==> v in order) &&
    (forall i :: 0 <= i < |order| ==> (order[i] in remaining <==> i >= count)) &&
    (forall i :: 0 <= i < |order| ==> (order[i] in newMap <==> i < count)) &&
    (forall i :: 0 <= i < count ==> newMap[order[i]] == i + 1)
  }

  /** The least remaining label is the next one in ascending order. */
  lemma NumberStep(order: seq<int>, valid: set<int>, remaining: set<int>, newMap: map<int, int>, count: int, lab: int)
    requires StrictlyIncreasing(order) && NumberingInv(order, valid, remaining, newMap, count)
    requires lab in remaining && forall v :: v in remaining ==> lab <= v
    ensures lab == order[count]
    ensures NumberingInv(order, valid, remaining - {lab}, newMap[lab := count + 1], count + 1)
  {
    var i := IndexOf(order, lab);
    assert order[count] in remaining && lab <= order[count];
    assert i == count;
  }

  /** Numbers the kept labels 1, 2, ... in ascending order of the old label
      (count_rice.py:190-194), the ascending order drawn by repeatedly taking
      the least remaining label. */
  method NumberKept(valid: set<int>) returns (newMap: map<int, int>, count: int)
    ensures count == |valid|
    ensures forall lab :: lab in newMap <==> lab in valid
    ensures forall lab :: lab in valid ==> newMap[lab] == IndexOf(SortedElems(valid), lab) + 1
  {
    ghost var order := SortedElems(valid);
    newMap, count := map[], 0;
    var remaining := valid;
    while remaining != {}
      invariant NumberingInv(order, valid, remaining, newMap, count)
      decreases |remaining|
    {
      var lab := MinOf(remaining);
      NumberStep(order, valid, remaining, newMap, count, lab);
      newMap := newMap[lab := count + 1];
      remaining := remaining - {lab};
      count := count + 1;
    }
    forall lab | lab in valid
      ensures lab in newMap && newMap[lab] == IndexOf(order, lab) + 1
    {
      var i := IndexOf(order, lab);
    }
  }

  /** The relabelling loop (count_rice.py:196-201): kept labels are looked up
      in `new_label_map`, everything else stays 0. */
  method ApplyNumbering(labels: seq<seq<int>>, w: int, newMap: map<int, int>) returns (filtered: seq<seq<int>>)
    requires w >= 0 && IsGrid(labels, |labels|, w)
    ensures SameShape(filtered, labels)
    ensures forall p :: InGrid(labels, p) ==>
      filtered[p.0][p.1] == if labels[p.0][p.1] in newMap then newMap[labels[p.0][p.1]] else 0
  {
    var h := |labels|;
    filtered := Zeros(h, w);
    for y := 0 to h
      invariant SameShape(filtered, labels)
      invariant forall p :: InGrid(labels, p) ==>
        filtered[p.0][p.1] == if p.0 < y && labels[p.0][p.1] in newMap then newMap[labels[p.0][p.1]] else 0
    {
      for x := 0 to w
        invariant SameShape(filtered, labels)
        invariant forall p :: InGrid(labels, p) ==>
          filtered[p.0][p.1] == if RasterBefore(p, (y, x)) && labels[p.0][p.1] in newMap then newMap[labels[p.0][p.1]] else 0
      {
        var lab := labels[y][x];
        if lab in newMap {
          filtered := Put(filtered, y, x, newMap[lab]);
        }
      }
    }
  }

  /** The labels whose count lies within the bounds are exactly the kept ones. */
  lemma ValidIsKept(labels: seq<seq<int>>, counts: map<int, int>, minArea: int, maxArea: int)
    requires forall lab :: lab in counts <==> lab != 0 && Area(labels, lab) > 0
    requires forall lab :: lab in counts ==> counts[lab] == Area(labels, lab)
    ensures (set lab | lab in counts && minArea <= counts[lab] <= maxArea) == KeptSet(labels, minArea, maxArea)
  {
    var valid := set lab | lab in counts && minArea <= counts[lab] <= maxArea;
    var kept := KeptSet(labels, minArea, maxArea);
    forall lab
      ensures lab in valid <==> lab in kept
    {
    }
  }

  /** Looking every pixel up in the numbering of the kept labels gives `AreaFiltered`. */
  lemma NumberedIsFiltered(labels: seq<seq<int>>, minArea: int, maxArea: int, newMap: map<int, int>, filtered: seq<seq<int>>)
    requires forall lab :: lab in newMap <==> lab in KeptSet(labels, minArea, maxArea)
    requires forall lab :: lab in KeptSet(labels, minArea, maxArea) ==>
      newMap[lab] == IndexOf(SortedElems(KeptSet(labels, minArea, maxArea)), lab) + 1
    requires SameShape(filtered, labels)
    requires forall p :: InGrid(labels, p) ==>
      filtered[p.0][p.1] == if labels[p.0][p.1] in newMap then newMap[labels[p.0][p.1]] else 0
    ensures filtered == AreaFiltered(labels, minArea, maxArea)
  {
    var f := AreaFiltered(labels, minArea, maxArea);
    forall p | InGrid(f, p)
      ensures filtered[p.0][p.1] == f[p.0][p.1]
    {
      assert InGrid(labels, p);
    }
    GridExt(filtered, f);
  }

  /** `filter_by_area` (count_rice.py:170-203). */
  method FilterByArea(labels: seq<seq<int>>, minArea: int, maxArea: int) returns (filtered: seq<seq<int>>, count: int)
    requires Rectangular(labels)
    ensures filtered == AreaFiltered(labels, minArea, maxArea)
    ensures count == |KeptSet(labels, minArea, maxArea)|
  {
    var h := |labels|;
    var w := if h > 0 then |labels[0]| else 0;
    var counts := CountAreas(labels, w);
    var valid := set lab | lab in counts && minArea <= counts[lab] <= maxArea;
    ValidIsKept(labels, counts, minArea, maxArea);
    var newMap;
    newMap, count := NumberKept(valid);
    filtered := ApplyNumbering(labels, w, newMap);
    NumberedIsFiltered(labels, minArea, maxArea, newMap, filtered);
  }
}
