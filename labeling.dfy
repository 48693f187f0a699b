/**
 * Binarisation and two-pass connected-component labelling of count_rice.py.
 * The grey and binary images are PIL buffers, modelled as `array2<int>`
 * indexed `img[y, x]` (height `img.Length0`, width `img.Length1`); the mask
 * and the label map are Python lists of rows, modelled as `seq<seq<...>>`.
 */
module Labeling {
  import opened UnionFind
  import opened Connectivity
  import opened Builtins

  /** `q` is visited before `p` by a row-major raster scan. */
  ghost predicate RasterBefore(q: Pixel, p: Pixel)
  {
    q.0 < p.0 || (q.0 == p.0 && q.1 < p.1)
  }

  // ---------------------------------------------------------------------------
  // threshold_image

  /** `threshold_image`: 255 exactly where the grey value is strictly above the
      threshold; a value equal to the threshold becomes background. */
  method ThresholdImage(img: array2<int>, threshold: int) returns (out: array2<int>)
    ensures out.Length0 == img.Length0 && out.Length1 == img.Length1
    ensures forall y, x :: 0 <= y < img.Length0 && 0 <= x < img.Length1 ==>
      out[y, x] == (if img[y, x] > threshold then 255 else 0)
    ensures forall y, x :: 0 <= y < img.Length0 && 0 <= x < img.Length1 ==>
      (out[y, x] != 0 <==> img[y, x] > threshold)
  {
    var h, w := img.Length0, img.Length1;
    out := new int[h, w];
    for y := 0 to h
      invariant forall y', x' :: 0 <= y' < y && 0 <= x' < w ==>
        out[y', x'] == (if img[y', x'] > threshold then 255 else 0)
    {
      for x := 0 to w
        invariant forall y', x' :: 0 <= y' < y && 0 <= x' < w ==>
          out[y', x'] == (if img[y', x'] > threshold then 255 else 0)
        invariant forall x' :: 0 <= x' < x ==>
          out[y, x'] == (if img[y, x'] > threshold then 255 else 0)
      {
        out[y, x] := if img[y, x] > threshold then 255 else 0;
      }
    }
  }

  /** The foreground mask: true exactly where the binary image is nonzero, as a list of rows. */
  function MaskOf(img: array2<int>): (mask: seq<seq<bool>>)
    reads img
    ensures IsGrid(mask, img.Length0, img.Length1)
    ensures forall y, x :: 0 <= y < img.Length0 && 0 <= x < img.Length1 ==>
      (mask[y][x] <==> img[y, x] != 0)
  {
    seq(img.Length0, y reads img requires 0 <= y < img.Length0 =>
      seq(img.Length1, x reads img requires 0 <= x < img.Length1 => img[y, x] != 0))
  }

  // ---------------------------------------------------------------------------
  // What a finished label map promises

  ghost predicate LabelOccurs(labels: seq<seq<int>>, k: int)
  {
    exists p :: InGrid(labels, p) && labels[p.0][p.1] == k
  }

  /** Labels lie in `0..count` and each of `1..count` is used somewhere. */
  ghost predicate DenseLabels(labels: seq<seq<int>>, count: int)
  {
    count >= 0 &&
    (forall p :: InGrid(labels, p) ==> 0 <= labels[p.0][p.1] <= count) &&
    (forall k :: 1 <= k <= count ==> LabelOccurs(labels, k))
  }

  /** Some pixel scanned before `b` carries `k`. */
  ghost predicate OccursBefore(labels: seq<seq<int>>, k: int, b: Pixel)
  {
    exists p :: InGrid(labels, p) && RasterBefore(p, b) && labels[p.0][p.1] == k
  }

  /** Labels are handed out in raster order: a pixel with label `k >= 2` has
      some earlier pixel with label `k - 1`, so the first `k - 1` precedes the
      first `k`. */
  ghost predicate FirstMetOrder(labels: seq<seq<int>>)
  {
    forall p :: InGrid(labels, p) && labels[p.0][p.1] >= 2 ==> OccursBefore(labels, labels[p.0][p.1] - 1, p)
  }

  /** A witness scanned before `b` still counts for a later `b'` and survives
      any change to pixels not before `b`. */
  lemma OccursBeforeMono(labels: seq<seq<int>>, labels': seq<seq<int>>, k: int, b: Pixel, b': Pixel)
    requires OccursBefore(labels, k, b) && SameShape(labels', labels)
    requires b == b' || RasterBefore(b, b')
    requires forall p :: InGrid(labels, p) && RasterBefore(p, b) ==> labels'[p.0][p.1] == labels[p.0][p.1]
    ensures OccursBefore(labels', k, b')
  {
    var p :| InGrid(labels, p) && RasterBefore(p, b) && labels[p.0][p.1] == k;
    assert labels'[p.0][p.1] == k;
  }

  // ---------------------------------------------------------------------------
  // First pass: provisional labels in a disjoint-set forest

  /** After the raster scan reached `(y, x)`: provisional labels index the
      forest, and exactly the visited foreground pixels carry one. */
  ghost predicate ProvisionalLabels(mask: seq<seq<bool>>, labels: seq<seq<int>>, parent: seq<int>, y: int, x: int)
  {
    Rectangular(mask) && SameShape(labels, mask) && |parent| >= 1 && IsForest(parent) &&
    (forall p :: InGrid(mask, p) ==> 0 <= labels[p.0][p.1] < |parent|) &&
    (forall p :: InGrid(mask, p) ==>
      (labels[p.0][p.1] != 0 <==> RasterBefore(p, (y, x)) && mask[p.0][p.1]))
  }

  /** Visited 4-adjacent foreground pixels hold labels of the same set. */
  ghost predicate VisitedNeighboursJoined(mask: seq<seq<bool>>, labels: seq<seq<int>>, parent: seq<int>, y: int, x: int)
    requires ProvisionalLabels(mask, labels, parent, y, x)
  {
    forall p, q ::
      (RasterBefore(p, (y, x)) && RasterBefore(q, (y, x)) &&
       Foreground(mask, p) && Foreground(mask, q) && Adjacent(p, q)) ==>
      Root(parent, labels[p.0][p.1]) == Root(parent, labels[q.0][q.1])
  }

  /** Ghost bookkeeping for the converse: each provisional label `l` was
      created at pixel `rep[l]`, which is 4-connected to the pixel that created
      its root. */
  ghost predicate RepsConnected(mask: seq<seq<bool>>, parent: seq<int>, rep: seq<Pixel>)
    requires IsForest(parent) && |rep| == |parent|
  {
    forall l :: 1 <= l < |parent| ==>
      Foreground(mask, rep[l]) && Connected(mask, rep[l], rep[Root(parent, l)])
  }

  /** Every visited foreground pixel is 4-connected to where its label was created. */
  ghost predicate PixelsReachReps(mask: seq<seq<bool>>, labels: seq<seq<int>>, rep: seq<Pixel>, y: int, x: int)
    requires SameShape(labels, mask)
    requires forall p :: InGrid(mask, p) ==> 0 <= labels[p.0][p.1] < |rep|
  {
    forall p :: RasterBefore(p, (y, x)) && Foreground(mask, p) ==>
      Connected(mask, p, rep[labels[p.0][p.1]])
  }

  ghost predicate FirstPassInv(mask: seq<seq<bool>>, labels: seq<seq<int>>, parent: seq<int>, rep: seq<Pixel>, y: int, x: int)
  {
    ProvisionalLabels(mask, labels, parent, y, x) && |rep| == |parent| &&
    VisitedNeighboursJoined(mask, labels, parent, y, x) &&
    RepsConnected(mask, parent, rep) &&
    PixelsReachReps(mask, labels, rep, y, x)
  }

  /** `l` is the (positive) label of the upper or the left neighbour of `(y, x)`. */
  ghost predicate NeighbourLabel(labels: seq<seq<int>>, y: int, x: int, l: int)
    requires 0 <= y < |labels| && 0 <= x < |labels[y]|
    requires y > 0 ==> x < |labels[y - 1]|
  {
    l > 0 &&
    ((y > 0 && labels[y - 1][x] == l) || (x > 0 && labels[y][x - 1] == l))
  }

  /** The list `neighbors` the first pass collects for `(y, x)`: the upper
      label, then the left one, each only when it is positive. */
  function NeighbourList(labels: seq<seq<int>>, y: int, x: int): (r: seq<int>)
    requires 0 <= y < |labels| && 0 <= x < |labels[y]|
    requires y > 0 ==> x < |labels[y - 1]|
    ensures |r| <= 2
    ensures forall l :: NeighbourLabel(labels, y, x, l) <==> l in r
  {
    (if y > 0 && labels[y - 1][x] > 0 then [labels[y - 1][x]] else []) +
    (if x > 0 && labels[y][x - 1] > 0 then [labels[y][x - 1]] else [])
  }

  /** `labels[y][x] = v`. */
  function Put(labels: seq<seq<int>>, y: int, x: int, v: int): (r: seq<seq<int>>)
    requires 0 <= y < |labels| && 0 <= x < |labels[y]|
    ensures SameShape(r, labels)
    ensures forall p :: InGrid(labels, p) ==> r[p.0][p.1] == if p == (y, x) then v else labels[p.0][p.1]
  {
    labels[y := labels[y][x := v]]
  }

  /** The only 4-neighbours a raster scan visits before `c` are the upper and the left one. */
  lemma EarlierNeighbour(c: Pixel, q: Pixel)
    requires Adjacent(c, q) && RasterBefore(q, c)
    ensures q == (c.0 - 1, c.1) || q == (c.0, c.1 - 1)
  {
  }

  /** Giving the foreground pixel `(y, x)` a label of the forest advances the scan. */
  lemma StepProvisional(mask: seq<seq<bool>>, labels: seq<seq<int>>, parent: seq<int>, parent': seq<int>, y: int, x: int, lab: int)
    requires ProvisionalLabels(mask, labels, parent, y, x)
    requires InGrid(mask, (y, x)) && mask[y][x]
    requires IsForest(parent') && |parent'| >= |parent| && 0 < lab < |parent'|
    ensures ProvisionalLabels(mask, Put(labels, y, x, lab), parent', y, x + 1)
  {
  }

  /** Adjacent visited pixels stay joined when `(y, x)` takes a label whose set
      holds the labels of its visited neighbours. */
  lemma StepJoined(mask: seq<seq<bool>>, labels: seq<seq<int>>, parent: seq<int>, parent': seq<int>, y: int, x: int, lab: int)
    requires ProvisionalLabels(mask, labels, parent, y, x) && VisitedNeighboursJoined(mask, labels, parent, y, x)
    requires InGrid(mask, (y, x)) && mask[y][x]
    requires IsForest(parent') && |parent'| >= |parent| && 0 < lab < |parent'| && Coarser(parent, parent')
    requires forall l :: 0 < l < |parent'| && NeighbourLabel(labels, y, x, l) ==> Root(parent', l) == Root(parent', lab)
    requires ProvisionalLabels(mask, Put(labels, y, x, lab), parent', y, x + 1)
    ensures VisitedNeighboursJoined(mask, Put(labels, y, x, lab), parent', y, x + 1)
  {
    var c := (y, x);
    var labels' := Put(labels, y, x, lab);
    forall p, q |
      RasterBefore(p, (y, x + 1)) && RasterBefore(q, (y, x + 1)) &&
      Foreground(mask, p) && Foreground(mask, q) && Adjacent(p, q)
      ensures Root(parent', labels'[p.0][p.1]) == Root(parent', labels'[q.0][q.1])
    {
      if p != c && q != c {
        assert labels'[p.0][p.1] == labels[p.0][p.1] && labels'[q.0][q.1] == labels[q.0][q.1];
        JoinedOldPair(mask, labels, parent, parent', y, x, p, q);
      } else if p == c && q != c {
        assert labels'[q.0][q.1] == labels[q.0][q.1] && labels'[y][x] == lab;
        JoinedNewPixel(mask, labels, parent, parent', y, x, lab, q);
      } else if q == c && p != c {
        assert labels'[p.0][p.1] == labels[p.0][p.1] && labels'[y][x] == lab;
        assert Adjacent(c, p);
        JoinedNewPixel(mask, labels, parent, parent', y, x, lab, p);
      }
    }
  }

  /** Two adjacent pixels visited before `(y, x)` stay joined as the forest coarsens. */
  lemma JoinedOldPair(mask: seq<seq<bool>>, labels: seq<seq<int>>, parent: seq<int>, parent': seq<int>, y: int, x: int, p: Pixel, q: Pixel)
    requires ProvisionalLabels(mask, labels, parent, y, x) && VisitedNeighboursJoined(mask, labels, parent, y, x)
    requires IsForest(parent') && |parent'| >= |parent| && Coarser(parent, parent')
    requires RasterBefore(p, (y, x)) && RasterBefore(q, (y, x))
    requires Foreground(mask, p) && Foreground(mask, q) && Adjacent(p, q)
    ensures Root(parent', labels[p.0][p.1]) == Root(parent', labels[q.0][q.1])
  {
    var a, b := labels[p.0][p.1], labels[q.0][q.1];
    assert 0 <= a < |parent| && 0 <= b < |parent|;
    assert Root(parent, a) == Root(parent, b);
  }

  /** A visited neighbour of `(y, x)` holds a label in the set of `lab`. */
  lemma JoinedNewPixel(mask: seq<seq<bool>>, labels: seq<seq<int>>, parent: seq<int>, parent': seq<int>, y: int, x: int, lab: int, q: Pixel)
    requires ProvisionalLabels(mask, labels, parent, y, x) && InGrid(mask, (y, x))
    requires IsForest(parent') && |parent'| >= |parent| && 0 < lab < |parent'|
    requires forall l :: 0 < l < |parent'| && NeighbourLabel(labels, y, x, l) ==> Root(parent', l) == Root(parent', lab)
    requires Foreground(mask, q) && RasterBefore(q, (y, x)) && Adjacent((y, x), q)
    ensures Root(parent', labels[q.0][q.1]) == Root(parent', lab)
  {
    EarlierNeighbour((y, x), q);
    var l := labels[q.0][q.1];
    assert 0 < l < |parent|;
    assert NeighbourLabel(labels, y, x, l);
  }

  /** A label created at `(y, x)` is connected to its own creating pixel. */
  lemma StepReach(mask: seq<seq<bool>>, labels: seq<seq<int>>, rep: seq<Pixel>, rep': seq<Pixel>, y: int, x: int, lab: int)
    requires SameShape(labels, mask) && InGrid(mask, (y, x))
    requires forall p :: InGrid(mask, p) ==> 0 <= labels[p.0][p.1] < |rep|
    requires PixelsReachReps(mask, labels, rep, y, x)
    requires |rep| <= |rep'| && rep'[..|rep|] == rep && 0 <= lab < |rep'|
    requires Connected(mask, (y, x), rep'[lab])
    ensures forall p :: InGrid(mask, p) ==> 0 <= Put(labels, y, x, lab)[p.0][p.1] < |rep'|
    ensures PixelsReachReps(mask, Put(labels, y, x, lab), rep', y, x + 1)
  {
    var labels' := Put(labels, y, x, lab);
    forall p | RasterBefore(p, (y, x + 1)) && Foreground(mask, p)
      ensures Connected(mask, p, rep'[labels'[p.0][p.1]])
    {
      if p != (y, x) {
        assert rep'[labels[p.0][p.1]] == rep[labels[p.0][p.1]];
      }
    }
  }

  /** A fresh singleton created at a foreground pixel keeps `RepsConnected`. */
  lemma NewSetReps(mask: seq<seq<bool>>, parent: seq<int>, parent': seq<int>, rep: seq<Pixel>, c: Pixel)
    requires IsForest(parent) && |rep| == |parent| && RepsConnected(mask, parent, rep)
    requires IsForest(parent') && |parent'| == |parent| + 1 && Root(parent', |parent|) == |parent|
    requires forall i :: 0 <= i < |parent| ==> Root(parent', i) == Root(parent, i)
    requires Foreground(mask, c)
    ensures RepsConnected(mask, parent', rep + [c])
  {
    var rep' := rep + [c];
    ConnectedRefl(mask, c);
    forall l | 1 <= l < |parent'|
      ensures Foreground(mask, rep'[l]) && Connected(mask, rep'[l], rep'[Root(parent', l)])
    {
      if l < |parent| {
        assert rep'[l] == rep[l] && rep'[Root(parent, l)] == rep[Root(parent, l)];
      }
    }
  }

  /** Skipping a background pixel keeps the invariant. */
  lemma StepBackground(mask: seq<seq<bool>>, labels: seq<seq<int>>, parent: seq<int>, rep: seq<Pixel>, y: int, x: int)
    requires FirstPassInv(mask, labels, parent, rep, y, x)
    requires InGrid(mask, (y, x)) && !mask[y][x]
    ensures FirstPassInv(mask, labels, parent, rep, y, x + 1)
  {
  }

  /** The first-pass invariant survives a pixel that opens a new set. */
  lemma StepNewSet(mask: seq<seq<bool>>, labels: seq<seq<int>>, parent: seq<int>, parent': seq<int>, rep: seq<Pixel>, y: int, x: int)
    requires FirstPassInv(mask, labels, parent, rep, y, x)
    requires InGrid(mask, (y, x)) && mask[y][x]
    requires forall l :: !NeighbourLabel(labels, y, x, l)
    requires IsForest(parent') && |parent'| == |parent| + 1 && Root(parent', |parent|) == |parent|
    requires forall i :: 0 <= i < |parent| ==> Root(parent', i) == Root(parent, i)
    ensures FirstPassInv(mask, Put(labels, y, x, |parent|), parent', rep + [(y, x)], y, x + 1)
  {
    var rep' := rep + [(y, x)];
    assert Coarser(parent, parent');
    StepProvisional(mask, labels, parent, parent', y, x, |parent|);
    StepJoined(mask, labels, parent, parent', y, x, |parent|);
    NewSetReps(mask, parent, parent', rep, (y, x));
    ConnectedRefl(mask, (y, x));
    assert rep'[..|rep|] == rep;
    StepReach(mask, labels, rep, rep', y, x, |parent|);
  }

  /** The pixel is connected to where the label of any visited neighbour was created. */
  lemma NeighbourReachesRep(mask: seq<seq<bool>>, labels: seq<seq<int>>, parent: seq<int>, rep: seq<Pixel>, y: int, x: int, l: int)
    requires ProvisionalLabels(mask, labels, parent, y, x) && |rep| == |parent|
    requires PixelsReachReps(mask, labels, rep, y, x)
    requires InGrid(mask, (y, x)) && mask[y][x] && NeighbourLabel(labels, y, x, l)
    ensures 0 < l < |parent|
    ensures Connected(mask, (y, x), rep[l])
  {
    var n := if y > 0 && labels[y - 1][x] == l then (y - 1, x) else (y, x - 1);
    assert InGrid(mask, n) && RasterBefore(n, (y, x)) && labels[n.0][n.1] == l;
    assert mask[n.0][n.1];
    assert Connected(mask, n, rep[l]);
    ConnectedStep(mask, (y, x), n);
    ConnectedTrans(mask, (y, x), n, rep[l]);
  }

  /** Merging sets whose creating pixels are all 4-connected to one pixel `c`
      keeps every label's creating pixel connected to its (new) root's. */
  lemma MergedAllKeepsReps(mask: seq<seq<bool>>, before: seq<int>, after: seq<int>, rep: seq<Pixel>, ls: seq<int>, c: Pixel)
    requires IsForest(before) && IsForest(after) && |after| == |before| == |rep|
    requires |ls| > 0 && AllIn(before, ls) && MergedAll(before, after, ls)
    requires RepsConnected(mask, before, rep)
    requires forall j :: 0 <= j < |ls| ==> 1 <= ls[j] && Connected(mask, c, rep[ls[j]])
    ensures RepsConnected(mask, after, rep)
  {
    forall l | 1 <= l < |before|
      ensures Connected(mask, rep[l], rep[Root(after, l)])
    {
      var r := Root(before, l);
      var rs := RootsOf(before, ls);
      if r in rs {
        var j :| 0 <= j < |ls| && r == Root(before, ls[j]);
        var k :| 0 <= k < |ls| && Root(after, ls[0]) == Root(before, ls[k]);
        ReachThroughCentre(mask, before, rep, l, ls[j], ls[k], c);
      }
    }
  }

  /** `rep[l]` reaches, through `c`, the root of `b` when `l` shares a set with
      `a` and both `a` and `b` have creating pixels connected to `c`. */
  lemma ReachThroughCentre(mask: seq<seq<bool>>, parent: seq<int>, rep: seq<Pixel>, l: int, a: int, b: int, c: Pixel)
    requires IsForest(parent) && |rep| == |parent| && RepsConnected(mask, parent, rep)
    requires 1 <= l < |parent| && 1 <= a < |parent| && 1 <= b < |parent|
    requires Root(parent, l) == Root(parent, a)
    requires Connected(mask, c, rep[a]) && Connected(mask, c, rep[b])
    ensures Connected(mask, rep[l], rep[Root(parent, b)])
  {
    var r := Root(parent, a);
    // rep[l] ~ rep[r] ~ rep[a] ~ c ~ rep[b] ~ rep[root of b]
    ConnectedSym(mask, rep[a], rep[r]);
    ConnectedTrans(mask, rep[l], rep[r], rep[a]);
    ConnectedSym(mask, c, rep[a]);
    ConnectedTrans(mask, rep[l], rep[a], c);
    ConnectedTrans(mask, rep[l], c, rep[b]);
    ConnectedTrans(mask, rep[l], rep[b], rep[Root(parent, b)]);
  }

  /** The first-pass invariant survives a pixel that takes the smallest
      neighbour label `lab`, once the unions put every neighbour label in `lab`'s set. */
  lemma StepJoin(mask: seq<seq<bool>>, labels: seq<seq<int>>, parent: seq<int>, parent': seq<int>, rep: seq<Pixel>, y: int, x: int, lab: int)
    requires FirstPassInv(mask, labels, parent, rep, y, x)
    requires InGrid(mask, (y, x)) && mask[y][x] && NeighbourLabel(labels, y, x, lab)
    requires IsForest(parent') && |parent'| == |parent| && 0 < lab < |parent| && Coarser(parent, parent')
    requires RepsConnected(mask, parent', rep)
    requires forall l :: 0 < l < |parent'| && NeighbourLabel(labels, y, x, l) ==> Root(parent', l) == Root(parent', lab)
    ensures FirstPassInv(mask, Put(labels, y, x, lab), parent', rep, y, x + 1)
  {
    NeighbourReachesRep(mask, labels, parent, rep, y, x, lab);
    StepProvisional(mask, labels, parent, parent', y, x, lab);
    StepJoined(mask, labels, parent, parent', y, x, lab);
    assert rep[..|rep|] == rep;
    StepReach(mask, labels, rep, rep, y, x, lab);
  }

  lemma RowDone(mask: seq<seq<bool>>, labels: seq<seq<int>>, parent: seq<int>, rep: seq<Pixel>, y: int, w: int)
    requires FirstPassInv(mask, labels, parent, rep, y, w)
    requires |mask| > 0 ==> w == |mask[0]|
    ensures FirstPassInv(mask, labels, parent, rep, y + 1, 0)
  {
    assert forall p :: InGrid(mask, p) ==> (RasterBefore(p, (y, w)) <==> RasterBefore(p, (y + 1, 0)));
  }

  /** Joins each neighbour label other than `lab` with `lab`: afterwards
      every neighbour label is in `lab`'s set, no two labels have been separated,
      and the merged sets' creating pixels stay 4-connected. */
  method JoinNeighbours(ds: DisjointSet, neighbors: seq<int>, lab: int, ghost mask: seq<seq<bool>>, ghost rep: seq<Pixel>, ghost c: Pixel)
    requires ds.Valid() && |rep| == |ds.parent| && RepsConnected(mask, ds.parent, rep)
    requires 1 <= lab < |ds.parent| && Connected(mask, c, rep[lab])
    requires forall j :: 0 <= j < |neighbors| ==> 1 <= neighbors[j] < |ds.parent| && Connected(mask, c, rep[neighbors[j]])
    modifies ds
    ensures ds.Valid() && |ds.parent| == |old(ds.parent)|
    ensures Coarser(old(ds.parent), ds.parent) && RepsConnected(mask, ds.parent, rep)
    ensures forall j :: 0 <= j < |neighbors| ==> Root(ds.parent, neighbors[j]) == Root(ds.parent, lab)
    ensures AllIn(old(ds.parent), [lab] + neighbors) && MergedAll(old(ds.parent), ds.parent, [lab] + neighbors)
  {
    ghost var ls := [lab] + neighbors;
    assert forall j :: 0 <= j < |neighbors| ==> neighbors[j] == ls[j + 1];
    assert AllIn(ds.parent, ls);
    JoinAll(ds, neighbors, lab, ls);
    MergedAllJoins(old(ds.parent), ds.parent, ls);
    forall j | 0 <= j < |ls|
      ensures 1 <= ls[j] && Connected(mask, c, rep[ls[j]])
    {
      if j > 0 {
        assert ls[j] == neighbors[j - 1];
      }
    }
    MergedAllKeepsReps(mask, old(ds.parent), ds.parent, rep, ls, c);
  }

  /** The loop `for other in neighbors: if other != lab: union(other, lab)`:
      exactly the sets of `lab` and of the neighbours are merged. */
  method JoinAll(ds: DisjointSet, neighbors: seq<int>, lab: int, ghost ls: seq<int>)
    requires ds.Valid() && ls == [lab] + neighbors && AllIn(ds.parent, ls)
    modifies ds
    ensures ds.Valid() && |ds.parent| == |old(ds.parent)|
    ensures MergedAll(old(ds.parent), ds.parent, ls)
  {
    assert ls[0] == lab;
    MergedAllStart(ds.parent, lab);
    assert ls[..1] == [lab];
    for i := 0 to |neighbors|
      invariant ds.Valid() && |ds.parent| == |old(ds.parent)|
      invariant AllIn(old(ds.parent), ls[..i + 1]) && MergedAll(old(ds.parent), ds.parent, ls[..i + 1])
    {
      JoinNext(ds, neighbors[i], lab, ls, i, old(ds.parent));
    }
    assert ls[..|neighbors| + 1] == ls;
  }

  /** One turn of the join loop: `union(other, lab)` unless `other` is `lab`. */
  method JoinNext(ds: DisjointSet, other: int, lab: int, ghost ls: seq<int>, ghost i: int, ghost orig: seq<int>)
    requires ds.Valid() && IsForest(orig) && |ds.parent| == |orig|
    requires 0 <= i < |ls| - 1 && ls[0] == lab && ls[i + 1] == other && AllIn(orig, ls)
    requires AllIn(orig, ls[..i + 1]) && MergedAll(orig, ds.parent, ls[..i + 1])
    modifies ds
    ensures ds.Valid() && |ds.parent| == |orig|
    ensures AllIn(orig, ls[..i + 2]) && MergedAll(orig, ds.parent, ls[..i + 2])
  {
    assert ls[..i + 2] == ls[..i + 1] + [other];
    assert ls[..i + 1][0] == lab;
    if other != lab {
      ghost var p0 := ds.parent;
      ds.Union(other, lab);
      MergedAllStep(orig, p0, ds.parent, ls[..i + 1], other);
    } else {
      MergedAllRepeat(orig, ds.parent, ls[..i + 1]);
    }
  }


  /** The body of the first pass for one pixel (count_rice.py:131-150). */
  method VisitPixel(mask: seq<seq<bool>>, labels: seq<seq<int>>, ds: DisjointSet, y: int, x: int, ghost rep: seq<Pixel>)
    returns (labels': seq<seq<int>>, ghost rep': seq<Pixel>)
    requires ds.Valid() && FirstPassInv(mask, labels, ds.parent, rep, y, x) && InGrid(mask, (y, x))
    modifies ds
    ensures ds.Valid() && FirstPassInv(mask, labels', ds.parent, rep', y, x + 1)
    // background: nothing changes
    ensures !mask[y][x] ==> labels' == labels && ds.parent == old(ds.parent)
    // no labelled neighbour: a fresh set, whose label the pixel takes
    ensures mask[y][x] && (forall l :: !NeighbourLabel(labels, y, x, l)) ==>
      ds.parent == old(ds.parent) + [|old(ds.parent)|] && labels' == Put(labels, y, x, |old(ds.parent)|)
    // otherwise: the least neighbour label, no new set, and exactly the sets
    // of that label and of the neighbour labels merged
    ensures mask[y][x] && (exists l :: NeighbourLabel(labels, y, x, l)) ==>
      |ds.parent| == |old(ds.parent)| &&
      NeighbourLabel(labels, y, x, labels'[y][x]) &&
      (forall l :: NeighbourLabel(labels, y, x, l) ==> labels'[y][x] <= l) &&
      labels' == Put(labels, y, x, labels'[y][x]) &&
      AllIn(old(ds.parent), [labels'[y][x]] + NeighbourList(labels, y, x)) &&
      MergedAll(old(ds.parent), ds.parent, [labels'[y][x]] + NeighbourList(labels, y, x))
  {
    if !mask[y][x] {
      StepBackground(mask, labels, ds.parent, rep, y, x);
      labels', rep' := labels, rep;
    } else {
      var neighbors: seq<int> := [];
      if y > 0 && labels[y - 1][x] > 0 {
        neighbors := neighbors + [labels[y - 1][x]];
      }
      if x > 0 && labels[y][x - 1] > 0 {
        neighbors := neighbors + [labels[y][x - 1]];
      }
      assert neighbors == NeighbourList(labels, y, x);
      if neighbors == [] {
        labels', rep' := OpenSet(mask, labels, ds, y, x, rep);
      } else {
        labels', rep' := JoinLabels(mask, labels, ds, y, x, neighbors, rep);
      }
    }
  }

  /** A foreground pixel with no labelled neighbour opens a new set and takes its label. */
  method OpenSet(mask: seq<seq<bool>>, labels: seq<seq<int>>, ds: DisjointSet, y: int, x: int, ghost rep: seq<Pixel>)
    returns (labels': seq<seq<int>>, ghost rep': seq<Pixel>)
    requires ds.Valid() && FirstPassInv(mask, labels, ds.parent, rep, y, x) && InGrid(mask, (y, x)) && mask[y][x]
    requires forall l :: !NeighbourLabel(labels, y, x, l)
    modifies ds
    ensures ds.Valid() && FirstPassInv(mask, labels', ds.parent, rep', y, x + 1)
    ensures ds.parent == old(ds.parent) + [|old(ds.parent)|] && labels' == Put(labels, y, x, |old(ds.parent)|)
  {
    ghost var before := ds.parent;
    var lab := ds.MakeSet();
    StepNewSet(mask, labels, before, ds.parent, rep, y, x);
    labels' := Put(labels, y, x, lab);
    rep' := rep + [(y, x)];
  }

  /** A foreground pixel with labelled neighbours takes the least of their
      labels, and all of them are joined into one set. */
  method JoinLabels(mask: seq<seq<bool>>, labels: seq<seq<int>>, ds: DisjointSet, y: int, x: int, neighbors: seq<int>, ghost rep: seq<Pixel>)
    returns (labels': seq<seq<int>>, ghost rep': seq<Pixel>)
    requires ds.Valid() && FirstPassInv(mask, labels, ds.parent, rep, y, x) && InGrid(mask, (y, x)) && mask[y][x]
    requires neighbors != [] && forall l :: NeighbourLabel(labels, y, x, l) <==> l in neighbors
    modifies ds
    ensures ds.Valid() && FirstPassInv(mask, labels', ds.parent, rep', y, x + 1)
    ensures |ds.parent| == |old(ds.parent)|
    ensures NeighbourLabel(labels, y, x, labels'[y][x]) && (forall l :: NeighbourLabel(labels, y, x, l) ==> labels'[y][x] <= l)
    ensures labels' == Put(labels, y, x, labels'[y][x])
    ensures AllIn(old(ds.parent), [labels'[y][x]] + neighbors) && MergedAll(old(ds.parent), ds.parent, [labels'[y][x]] + neighbors)
  {
    ghost var before := ds.parent;
    var lab := Min(neighbors);
    labels' := Put(labels, y, x, lab);
    forall j | 0 <= j < |neighbors| ensures 0 < neighbors[j] < |before| && Connected(mask, (y, x), rep[neighbors[j]]) {
      NeighbourReachesRep(mask, labels, before, rep, y, x, neighbors[j]);
    }
    JoinNeighbours(ds, neighbors, lab, mask, rep, (y, x));
    StepJoin(mask, labels, before, ds.parent, rep, y, x, lab);
    rep' := rep;
  }


  /** First pass (count_rice.py:129-150): every foreground pixel gets a
      provisional label; adjacent ones end up in the same set. */
  method FirstPass(mask: seq<seq<bool>>, w: int, ds: DisjointSet) returns (labels: seq<seq<int>>, ghost rep: seq<Pixel>)
    requires w >= 0 && IsGrid(mask, |mask|, w)
    requires ds.Valid() && ds.parent == [0]
    modifies ds
    ensures ds.Valid()
    ensures FirstPassInv(mask, labels, ds.parent, rep, |mask|, 0)
  {
    var h := |mask|;
    labels := seq(h, _ => seq(w, _ => 0));
    rep := [(0, 0)];
    FirstPassStart(mask, w, labels, ds.parent, rep);
    for y := 0 to h
      invariant ds.Valid()
      invariant FirstPassInv(mask, labels, ds.parent, rep, y, 0)
    {
      labels, rep := FirstPassRow(mask, w, labels, ds, y, rep);
    }
  }

  /** Before the scan no pixel is labelled and the forest is the sentinel alone. */
  lemma FirstPassStart(mask: seq<seq<bool>>, w: int, labels: seq<seq<int>>, parent: seq<int>, rep: seq<Pixel>)
    requires w >= 0 && IsGrid(mask, |mask|, w) && IsGrid(labels, |mask|, w)
    requires forall p :: InGrid(labels, p) ==> labels[p.0][p.1] == 0
    requires parent == [0] && rep == [(0, 0)]
    ensures FirstPassInv(mask, labels, parent, rep, 0, 0)
  {
    assert ProvisionalLabels(mask, labels, parent, 0, 0);
  }

  /** One row of the first pass. */
  method FirstPassRow(mask: seq<seq<bool>>, w: int, labels: seq<seq<int>>, ds: DisjointSet, y: int, ghost rep: seq<Pixel>)
    returns (labels': seq<seq<int>>, ghost rep': seq<Pixel>)
    requires w >= 0 && IsGrid(mask, |mask|, w) && 0 <= y < |mask|
    requires ds.Valid() && FirstPassInv(mask, labels, ds.parent, rep, y, 0)
    modifies ds
    ensures ds.Valid() && FirstPassInv(mask, labels', ds.parent, rep', y + 1, 0)
  {
    labels', rep' := labels, rep;
    for x := 0 to w
      invariant ds.Valid()
      invariant FirstPassInv(mask, labels', ds.parent, rep', y, x)
    {
      labels', rep' := VisitPixel(mask, labels', ds, y, x, rep');
    }
    RowDone(mask, labels', ds.parent, rep', y, w);
  }

  // ---------------------------------------------------------------------------
  // Second pass: provisional labels to dense final labels

  /** Provisional labels index the forest `parent`. */
  ghost predicate LabelsInForest(prov: seq<seq<int>>, parent: seq<int>)
  {
    Rectangular(prov) && IsForest(parent) &&
    forall p :: InGrid(prov, p) ==> 0 <= prov[p.0][p.1] < |parent|
  }

  /** `parent` is a (path-compressed) copy of `p0`: same length, same roots. */
  ghost predicate SameRoots(p0: seq<int>, parent: seq<int>)
    requires IsForest(p0)
  {
    IsForest(parent) && |parent| == |p0| &&
    forall i :: 0 <= i < |p0| ==> Root(parent, i) == Root(p0, i)
  }

  lemma SameRootsTrans(p0: seq<int>, p1: seq<int>, p2: seq<int>)
    requires IsForest(p0) && SameRoots(p0, p1) && SameRoots(p1, p2)
    ensures SameRoots(p0, p2)
  {
  }

  /** Pixels visited so far carry the number of their root; the others still
      carry their provisional label. */
  ghost predicate Relabelled(prov: seq<seq<int>>, p0: seq<int>, labels: seq<seq<int>>, rootMap: map<int, int>, y: int, x: int)
    requires LabelsInForest(prov, p0)
  {
    SameShape(labels, prov) &&
    forall p :: InGrid(prov, p) ==>
      if !RasterBefore(p, (y, x)) then labels[p.0][p.1] == prov[p.0][p.1]
      else if prov[p.0][p.1] == 0 then labels[p.0][p.1] == 0
      else Root(p0, prov[p.0][p.1]) in rootMap && labels[p.0][p.1] == rootMap[Root(p0, prov[p.0][p.1])]
  }

  /** `root_map` numbers distinct roots with distinct numbers in `1..next_label`. */
  ghost predicate RootNumbering(rootMap: map<int, int>, next: int)
  {
    next >= 0 &&
    (forall r :: r in rootMap ==> 1 <= rootMap[r] <= next) &&
    (forall r, s :: r in rootMap && s in rootMap && rootMap[r] == rootMap[s] ==> r == s)
  }

  /** Each number handed out so far sits on some visited pixel. */
  ghost predicate NumbersUsed(labels: seq<seq<int>>, next: int, y: int, x: int)
  {
    forall k :: 1 <= k <= next ==> OccursBefore(labels, k, (y, x))
  }

  /** Among visited pixels, a number `k >= 2` is preceded by a `k - 1`. */
  ghost predicate OrderSoFar(labels: seq<seq<int>>, y: int, x: int)
  {
    forall p :: InGrid(labels, p) && RasterBefore(p, (y, x)) && labels[p.0][p.1] >= 2 ==>
      OccursBefore(labels, labels[p.0][p.1] - 1, p)
  }

  ghost predicate SecondPassInv(prov: seq<seq<int>>, p0: seq<int>, labels: seq<seq<int>>, rootMap: map<int, int>, next: int, y: int, x: int)
  {
    LabelsInForest(prov, p0) &&
    Relabelled(prov, p0, labels, rootMap, y, x) && RootNumbering(rootMap, next) &&
    NumbersUsed(labels, next, y, x) && OrderSoFar(labels, y, x)
  }

  /** Numbers and their predecessors already on visited pixels stay there when
      the scan writes `v` at `(y, x)` and moves on. */
  lemma WitnessesKept(labels: seq<seq<int>>, next: int, y: int, x: int, v: int)
    requires InGrid(labels, (y, x))
    requires NumbersUsed(labels, next, y, x) && OrderSoFar(labels, y, x)
    ensures NumbersUsed(Put(labels, y, x, v), next, y, x + 1)
    ensures forall p :: InGrid(labels, p) && RasterBefore(p, (y, x)) && labels[p.0][p.1] >= 2 ==>
      OccursBefore(Put(labels, y, x, v), labels[p.0][p.1] - 1, p)
  {
    var labels' := Put(labels, y, x, v);
    var b := (y, x + 1);
    forall k | 1 <= k <= next
      ensures OccursBefore(labels', k, b)
    {
      OccursBeforeMono(labels, labels', k, (y, x), b);
    }
    forall p | InGrid(labels, p) && RasterBefore(p, (y, x)) && labels[p.0][p.1] >= 2
      ensures OccursBefore(labels', labels[p.0][p.1] - 1, p)
    {
      OccursBeforeMono(labels, labels', labels[p.0][p.1] - 1, p, p);
    }
  }

  /** Writing a number already handed out keeps every number witnessed, each
      after its predecessor. */
  lemma KnownNumberWitnesses(labels: seq<seq<int>>, next: int, y: int, x: int, k: int)
    requires InGrid(labels, (y, x)) && 1 <= k <= next
    requires NumbersUsed(labels, next, y, x) && OrderSoFar(labels, y, x)
    ensures NumbersUsed(Put(labels, y, x, k), next, y, x + 1) && OrderSoFar(Put(labels, y, x, k), y, x + 1)
  {
    var c := (y, x);
    var labels' := Put(labels, y, x, k);
    WitnessesKept(labels, next, y, x, k);
    forall p | InGrid(labels', p) && RasterBefore(p, (y, x + 1)) && labels'[p.0][p.1] >= 2
      ensures OccursBefore(labels', labels'[p.0][p.1] - 1, p)
    {
      if p == c {
        // `k` already sits on an earlier pixel, which has an earlier `k - 1`.
        assert OccursBefore(labels, k, c);
        var e :| InGrid(labels, e) && RasterBefore(e, c) && labels[e.0][e.1] == k;
        OccursBeforeMono(labels, labels', k - 1, e, c);
      } else {
        assert labels'[p.0][p.1] == labels[p.0][p.1];
      }
    }
  }

  /** Writing the next fresh number keeps every number witnessed, each after
      its predecessor. */
  lemma NewNumberWitnesses(labels: seq<seq<int>>, next: int, y: int, x: int)
    requires InGrid(labels, (y, x)) && next >= 0
    requires NumbersUsed(labels, next, y, x) && OrderSoFar(labels, y, x)
    ensures NumbersUsed(Put(labels, y, x, next + 1), next + 1, y, x + 1) && OrderSoFar(Put(labels, y, x, next + 1), y, x + 1)
  {
    var c := (y, x);
    var labels' := Put(labels, y, x, next + 1);
    WitnessesKept(labels, next, y, x, next + 1);
    assert labels'[y][x] == next + 1;
    assert OccursBefore(labels', next + 1, (y, x + 1));
    forall p | InGrid(labels', p) && RasterBefore(p, (y, x + 1)) && labels'[p.0][p.1] >= 2
      ensures OccursBefore(labels', labels'[p.0][p.1] - 1, p)
    {
      if p == c {
        assert OccursBefore(labels, next, c);
        OccursBeforeMono(labels, labels', next, c, c);
      } else {
        assert labels'[p.0][p.1] == labels[p.0][p.1];
      }
    }
  }

  /** A background pixel is skipped. */
  lemma StepZero(prov: seq<seq<int>>, p0: seq<int>, labels: seq<seq<int>>, rootMap: map<int, int>, next: int, y: int, x: int)
    requires SecondPassInv(prov, p0, labels, rootMap, next, y, x)
    requires InGrid(prov, (y, x)) && prov[y][x] == 0
    ensures SecondPassInv(prov, p0, labels, rootMap, next, y, x + 1)
  {
    var c, b := (y, x), (y, x + 1);
    assert labels[y][x] == 0;
    forall p | InGrid(prov, p)
      ensures RasterBefore(p, b) <==> RasterBefore(p, c) || p == c
    {
    }
    assert Relabelled(prov, p0, labels, rootMap, y, x + 1);
    forall k | 1 <= k <= next
      ensures OccursBefore(labels, k, b)
    {
      OccursBeforeMono(labels, labels, k, c, b);
    }
    assert OrderSoFar(labels, y, x + 1);
  }

  /** A pixel whose root already has a number takes that number. */
  lemma StepKnownRoot(prov: seq<seq<int>>, p0: seq<int>, labels: seq<seq<int>>, rootMap: map<int, int>, next: int, y: int, x: int)
    requires SecondPassInv(prov, p0, labels, rootMap, next, y, x)
    requires InGrid(prov, (y, x)) && prov[y][x] != 0 && Root(p0, prov[y][x]) in rootMap
    ensures SecondPassInv(prov, p0, Put(labels, y, x, rootMap[Root(p0, prov[y][x])]), rootMap, next, y, x + 1)
  {
    var k := rootMap[Root(p0, prov[y][x])];
    assert Relabelled(prov, p0, Put(labels, y, x, k), rootMap, y, x + 1);
    KnownNumberWitnesses(labels, next, y, x, k);
  }

  /** A pixel whose root has no number yet gets `next_label + 1`. */
  lemma StepNewRoot(prov: seq<seq<int>>, p0: seq<int>, labels: seq<seq<int>>, rootMap: map<int, int>, next: int, y: int, x: int)
    requires SecondPassInv(prov, p0, labels, rootMap, next, y, x)
    requires InGrid(prov, (y, x)) && prov[y][x] != 0 && Root(p0, prov[y][x]) !in rootMap
    ensures SecondPassInv(prov, p0, Put(labels, y, x, next + 1), rootMap[Root(p0, prov[y][x]) := next + 1], next + 1, y, x + 1)
  {
    var rootMap' := rootMap[Root(p0, prov[y][x]) := next + 1];
    assert Relabelled(prov, p0, Put(labels, y, x, next + 1), rootMap', y, x + 1);
    assert RootNumbering(rootMap', next + 1);
    NewNumberWitnesses(labels, next, y, x);
  }

  /** The body of the second pass for one pixel (count_rice.py:157-167). */
  method RelabelPixel(labels: seq<seq<int>>, ds: DisjointSet, rootMap: map<int, int>, next: int, y: int, x: int, ghost prov: seq<seq<int>>, ghost p0: seq<int>)
    returns (labels': seq<seq<int>>, rootMap': map<int, int>, next': int)
    requires SecondPassInv(prov, p0, labels, rootMap, next, y, x) && InGrid(prov, (y, x))
    requires ds.Valid() && SameRoots(p0, ds.parent)
    modifies ds
    ensures ds.Valid() && SameRoots(p0, ds.parent)
    ensures SecondPassInv(prov, p0, labels', rootMap', next', y, x + 1)
  {
    var lab := labels[y][x];
    assert lab == prov[y][x];
    if lab == 0 {
      StepZero(prov, p0, labels, rootMap, next, y, x);
      return labels, rootMap, next;
    }
    ghost var before := ds.parent;
    var root := ds.Find(lab);
    SameRootsTrans(p0, before, ds.parent);
    assert root == Root(p0, lab);
    if root !in rootMap {
      StepNewRoot(prov, p0, labels, rootMap, next, y, x);
      next' := next + 1;
      rootMap' := rootMap[root := next'];
      labels' := Put(labels, y, x, next');
    } else {
      StepKnownRoot(prov, p0, labels, rootMap, next, y, x);
      next', rootMap' := next, rootMap;
      labels' := Put(labels, y, x, rootMap[root]);
    }
  }

  lemma SecondRowDone(prov: seq<seq<int>>, p0: seq<int>, labels: seq<seq<int>>, rootMap: map<int, int>, next: int, y: int, w: int)
    requires SecondPassInv(prov, p0, labels, rootMap, next, y, w)
    requires |prov| > 0 ==> w == |prov[0]|
    ensures SecondPassInv(prov, p0, labels, rootMap, next, y + 1, 0)
  {
    assert forall p :: InGrid(prov, p) ==> (RasterBefore(p, (y, w)) <==> RasterBefore(p, (y + 1, 0)));
    var b := (y + 1, 0);
    forall k | 1 <= k <= next
      ensures OccursBefore(labels, k, b)
    {
      OccursBeforeMono(labels, labels, k, (y, w), b);
    }
  }

  /** Second pass (count_rice.py:152-167): each provisional label is replaced
      by the number of its root, roots being numbered 1, 2, ... in the order
      the scan first meets them. */
  method SecondPass(prov: seq<seq<int>>, w: int, ds: DisjointSet) returns (labels: seq<seq<int>>, count: int, ghost numbering: map<int, int>)
    requires w >= 0 && IsGrid(prov, |prov|, w)
    requires ds.Valid() && LabelsInForest(prov, ds.parent)
    modifies ds
    ensures ds.Valid() && SameRoots(old(ds.parent), ds.parent)
    ensures SecondPassInv(prov, old(ds.parent), labels, numbering, count, |prov|, 0)
  {
    ghost var p0 := ds.parent;
    var h := |prov|;
    var rootMap: map<int, int> := map[];
    var next := 0;
    labels := prov;
    for y := 0 to h
      invariant ds.Valid() && SameRoots(p0, ds.parent)
      invariant SecondPassInv(prov, p0, labels, rootMap, next, y, 0)
    {
      labels, rootMap, next := SecondPassRow(prov, w, labels, ds, rootMap, next, y, p0);
    }
    count, numbering := next, rootMap;
  }

  /** One row of the second pass. */
  method SecondPassRow(prov: seq<seq<int>>, w: int, labels: seq<seq<int>>, ds: DisjointSet, rootMap: map<int, int>, next: int, y: int, ghost p0: seq<int>)
    returns (labels': seq<seq<int>>, rootMap': map<int, int>, next': int)
    requires w >= 0 && IsGrid(prov, |prov|, w) && 0 <= y < |prov|
    requires SecondPassInv(prov, p0, labels, rootMap, next, y, 0)
    requires ds.Valid() && SameRoots(p0, ds.parent)
    modifies ds
    ensures ds.Valid() && SameRoots(p0, ds.parent)
    ensures SecondPassInv(prov, p0, labels', rootMap', next', y + 1, 0)
  {
    labels', rootMap', next' := labels, rootMap, next;
    for x := 0 to w
      invariant ds.Valid() && SameRoots(p0, ds.parent)
      invariant SecondPassInv(prov, p0, labels', rootMap', next', y, x)
    {
      labels', rootMap', next' := RelabelPixel(labels', ds, rootMap', next', y, x, prov, p0);
    }
    SecondRowDone(prov, p0, labels', rootMap', next', y, w);
  }

  // ---------------------------------------------------------------------------
  // connected_components

  /** The provisional labels left by the first pass index its forest. */
  lemma FirstPassLabelsInForest(mask: seq<seq<bool>>, prov: seq<seq<int>>, parent: seq<int>, rep: seq<Pixel>)
    requires FirstPassInv(mask, prov, parent, rep, |mask|, 0)
    ensures LabelsInForest(prov, parent)
  {
  }

  /** Every pixel of the grid has been visited once the scan reaches row `h`. */
  lemma AllVisited<T>(g: seq<seq<T>>, p: Pixel)
    requires InGrid(g, p)
    ensures RasterBefore(p, (|g|, 0))
  {
  }

  /** Label 0 exactly on background pixels. */
  lemma FinalBackground(mask: seq<seq<bool>>, prov: seq<seq<int>>, p0: seq<int>, rep: seq<Pixel>, labels: seq<seq<int>>, rootMap: map<int, int>, count: int)
    requires FirstPassInv(mask, prov, p0, rep, |mask|, 0)
    requires SecondPassInv(prov, p0, labels, rootMap, count, |prov|, 0)
    ensures SameShape(labels, mask)
    ensures forall p :: InGrid(mask, p) ==> (labels[p.0][p.1] == 0 <==> !mask[p.0][p.1])
  {
    forall p | InGrid(mask, p)
      ensures labels[p.0][p.1] == 0 <==> !mask[p.0][p.1]
    {
      AllVisited(mask, p);
    }
  }

  /** Final labels fill `0..count` and are met in increasing order. */
  lemma FinalDense(prov: seq<seq<int>>, p0: seq<int>, labels: seq<seq<int>>, rootMap: map<int, int>, count: int)
    requires SecondPassInv(prov, p0, labels, rootMap, count, |prov|, 0)
    ensures DenseLabels(labels, count) && FirstMetOrder(labels)
  {
    forall p | InGrid(labels, p)
      ensures 0 <= labels[p.0][p.1] <= count
      ensures labels[p.0][p.1] >= 2 ==> OccursBefore(labels, labels[p.0][p.1] - 1, p)
    {
      AllVisited(labels, p);
    }
    forall k | 1 <= k <= count
      ensures LabelOccurs(labels, k)
    {
      assert OccursBefore(labels, k, (|prov|, 0));
    }
  }

  /** The final label of a foreground pixel is the number of its provisional label's root. */
  lemma FinalLabelOf(mask: seq<seq<bool>>, prov: seq<seq<int>>, p0: seq<int>, rep: seq<Pixel>, labels: seq<seq<int>>, rootMap: map<int, int>, count: int, p: Pixel)
    requires FirstPassInv(mask, prov, p0, rep, |mask|, 0)
    requires SecondPassInv(prov, p0, labels, rootMap, count, |prov|, 0)
    requires Foreground(mask, p)
    ensures 1 <= prov[p.0][p.1] < |p0| && Root(p0, prov[p.0][p.1]) in rootMap
    ensures labels[p.0][p.1] == rootMap[Root(p0, prov[p.0][p.1])]
    ensures Connected(mask, p, rep[Root(p0, prov[p.0][p.1])])
  {
    AllVisited(mask, p);
    var l := prov[p.0][p.1];
    ConnectedTrans(mask, p, rep[l], rep[Root(p0, l)]);
  }

  /** 4-adjacent foreground pixels share a final label. */
  lemma FinalAdjacentAgree(mask: seq<seq<bool>>, prov: seq<seq<int>>, p0: seq<int>, rep: seq<Pixel>, labels: seq<seq<int>>, rootMap: map<int, int>, count: int)
    requires FirstPassInv(mask, prov, p0, rep, |mask|, 0)
    requires SecondPassInv(prov, p0, labels, rootMap, count, |prov|, 0)
    ensures AdjacentAgree(mask, labels)
  {
    forall p, q | Foreground(mask, p) && Foreground(mask, q) && Adjacent(p, q)
      ensures labels[p.0][p.1] == labels[q.0][q.1]
    {
      AllVisited(mask, p);
      AllVisited(mask, q);
      FinalLabelOf(mask, prov, p0, rep, labels, rootMap, count, p);
      FinalLabelOf(mask, prov, p0, rep, labels, rootMap, count, q);
    }
  }

  /** Two foreground pixels share a final label exactly when they are 4-connected. */
  lemma FinalSameLabelIffConnected(mask: seq<seq<bool>>, prov: seq<seq<int>>, p0: seq<int>, rep: seq<Pixel>, labels: seq<seq<int>>, rootMap: map<int, int>, count: int, p: Pixel, q: Pixel)
    requires FirstPassInv(mask, prov, p0, rep, |mask|, 0)
    requires SecondPassInv(prov, p0, labels, rootMap, count, |prov|, 0)
    requires Foreground(mask, p) && Foreground(mask, q)
    ensures labels[p.0][p.1] == labels[q.0][q.1] <==> Connected(mask, p, q)
  {
    FinalLabelOf(mask, prov, p0, rep, labels, rootMap, count, p);
    FinalLabelOf(mask, prov, p0, rep, labels, rootMap, count, q);
    if labels[p.0][p.1] == labels[q.0][q.1] {
      // Distinct roots get distinct numbers, so both pixels reach the same root's creating pixel.
      var r := Root(p0, prov[p.0][p.1]);
      assert Root(p0, prov[q.0][q.1]) == r;
      ConnectedSym(mask, q, rep[r]);
      ConnectedTrans(mask, p, rep[r], q);
    }
    if Connected(mask, p, q) {
      FinalAdjacentAgree(mask, prov, p0, rep, labels, rootMap, count);
      ConnectedSameLabel(mask, labels, p, q);
    }
  }

  /** A one-pixel foreground image has one component, labelled 1. */
  lemma SinglePixelLabel(labels: seq<seq<int>>, count: int)
    requires IsGrid(labels, 1, 1) && labels[0][0] != 0 && DenseLabels(labels, count)
    ensures count == 1 && labels[0][0] == 1
  {
    assert InGrid(labels, (0, 0));
    forall p | InGrid(labels, p)
      ensures p == (0, 0)
    {
    }
    assert LabelOccurs(labels, 1);
    assert labels[0][0] == 1;
    assert !LabelOccurs(labels, 2);
  }

  /** `connected_components` (count_rice.py:90-167) on the binary image `img`. */
  method ConnectedComponents(img: array2<int>) returns (labels: seq<seq<int>>, count: int)
    ensures IsGrid(labels, img.Length0, img.Length1)
    ensures forall y, x :: 0 <= y < img.Length0 && 0 <= x < img.Length1 ==>
      (labels[y][x] == 0 <==> img[y, x] == 0)
    ensures DenseLabels(labels, count) && FirstMetOrder(labels)
    ensures AdjacentAgree(MaskOf(img), labels)
    ensures forall p, q :: Foreground(MaskOf(img), p) && Foreground(MaskOf(img), q) ==>
      (labels[p.0][p.1] == labels[q.0][q.1] <==> Connected(MaskOf(img), p, q))
  {
    var h, w := img.Length0, img.Length1;
    var mask := MaskOf(img);
    var ds := new DisjointSet();
    var prov;
    ghost var rep;
    prov, rep := FirstPass(mask, w, ds);
    ghost var p0 := ds.parent;
    FirstPassLabelsInForest(mask, prov, p0, rep);
    ghost var rootMap;
    labels, count, rootMap := SecondPass(prov, w, ds);
    FinalBackground(mask, prov, p0, rep, labels, rootMap, count);
    FinalDense(prov, p0, labels, rootMap, count);
    FinalAdjacentAgree(mask, prov, p0, rep, labels, rootMap, count);
    forall y, x | 0 <= y < h && 0 <= x < w
      ensures labels[y][x] == 0 <==> img[y, x] == 0
    {
      assert InGrid(mask, (y, x));
    }
    forall p, q | Foreground(mask, p) && Foreground(mask, q)
      ensures labels[p.0][p.1] == labels[q.0][q.1] <==> Connected(mask, p, q)
    {
      FinalSameLabelIffConnected(mask, prov, p0, rep, labels, rootMap, count, p, q);
    }
  }
}
