/**
 * 4-connectivity on the boolean foreground mask that `connected_components`
 * builds from the binary image (count_rice.py:99). Grids are lists of
 * rows, indexed `g[y][x]`.
 */
module Connectivity {

  /** A pixel position, as (row, column). */
  type Pixel = (int, int)

  ghost predicate InGrid<T>(g: seq<seq<T>>, p: Pixel)
  {
    0 <= p.0 < |g| && 0 <= p.1 < |g[p.0]|
  }

  /** `h` rows of `w` entries each. */
  ghost predicate IsGrid<T>(g: seq<seq<T>>, h: int, w: int)
  {
    |g| == h && forall y :: 0 <= y < h ==> |g[y]| == w
  }

  /** An `h` by `w` grid of zeros, the nested list comprehension that
      allocates the filtered label map. */
  function Zeros(h: nat, w: nat): (r: seq<seq<int>>)
    ensures IsGrid(r, h, w)
    ensures forall p :: InGrid(r, p) ==> r[p.0][p.1] == 0
  {
    seq(h, _ => seq(w, _ => 0))
  }

  /** All rows as long as the first one. */
  ghost predicate Rectangular<T>(g: seq<seq<T>>)
  {
    forall y :: 0 <= y < |g| ==> |g[y]| == |g[0]|
  }

  /** Every row has the same length as the matching row of `b`. */
  ghost predicate SameShape<A, B>(a: seq<seq<A>>, b: seq<seq<B>>)
  {
    |a| == |b| && forall y :: 0 <= y < |a| ==> |a[y]| == |b[y]|
  }

  /** Grids of the same shape that agree at every pixel are equal. */
  lemma GridExt<T>(a: seq<seq<T>>, b: seq<seq<T>>)
    requires SameShape(a, b)
    requires forall p :: InGrid(b, p) ==> a[p.0][p.1] == b[p.0][p.1]
    ensures a == b
  {
    forall y | 0 <= y < |a|
      ensures a[y] == b[y]
    {
      forall x | 0 <= x < |a[y]|
        ensures a[y][x] == b[y][x]
      {
        assert InGrid(b, (y, x));
      }
    }
  }

  ghost predicate Foreground(mask: seq<seq<bool>>, p: Pixel)
  {
    InGrid(mask, p) && mask[p.0][p.1]
  }

  /** Horizontal or vertical neighbours, never diagonal ones. */
  ghost predicate Adjacent(p: Pixel, q: Pixel)
  {
    (p.0 == q.0 && (p.1 == q.1 + 1 || q.1 == p.1 + 1)) ||
    (p.1 == q.1 && (p.0 == q.0 + 1 || q.0 == p.0 + 1))
  }

  /** `path` walks from `p` to `q` through foreground pixels, one orthogonal step at a time. */
  ghost predicate IsPath(mask: seq<seq<bool>>, path: seq<Pixel>, p: Pixel, q: Pixel)
  {
    |path| >= 1 && path[0] == p && path[|path| - 1] == q &&
    (forall i :: 0 <= i < |path| ==> Foreground(mask, path[i])) &&
    (forall i, j :: 0 <= i && j == i + 1 && j < |path| ==> Adjacent(path[i], path[j]))
  }

  ghost predicate Connected(mask: seq<seq<bool>>, p: Pixel, q: Pixel)
  {
    exists path :: IsPath(mask, path, p, q)
  }

  lemma ConnectedRefl(mask: seq<seq<bool>>, p: Pixel)
    requires Foreground(mask, p)
    ensures Connected(mask, p, p)
  {
    assert IsPath(mask, [p], p, p);
  }

  lemma ConnectedStep(mask: seq<seq<bool>>, p: Pixel, q: Pixel)
    requires Foreground(mask, p) && Foreground(mask, q) && Adjacent(p, q)
    ensures Connected(mask, p, q)
  {
    assert IsPath(mask, [p, q], p, q);
  }

  lemma ConnectedTrans(mask: seq<seq<bool>>, p: Pixel, q: Pixel, s: Pixel)
    requires Connected(mask, p, q) && Connected(mask, q, s)
    ensures Connected(mask, p, s)
  {
    var a :| IsPath(mask, a, p, q);
    var b :| IsPath(mask, b, q, s);
    var c := a + b[1..];
    forall i, j | 0 <= i && j == i + 1 && j < |c|
      ensures Adjacent(c[i], c[j])
    {
      if j < |a| {
        assert c[i] == a[i] && c[j] == a[j];
      } else if i == |a| - 1 {
        assert c[i] == b[0] && c[j] == b[1];
      } else {
        assert c[i] == b[i - |a| + 1] && c[j] == b[j - |a| + 1];
      }
    }
    assert IsPath(mask, c, p, s);
  }

  lemma ConnectedSym(mask: seq<seq<bool>>, p: Pixel, q: Pixel)
    requires Connected(mask, p, q)
    ensures Connected(mask, q, p)
  {
    var a :| IsPath(mask, a, p, q);
    var n := |a|;
    var r := seq(n, k requires 0 <= k < n => a[n - 1 - k]);
    forall i, j | 0 <= i && j == i + 1 && j < n
      ensures Adjacent(r[i], r[j])
    {
      assert Adjacent(a[n - 1 - j], a[n - 1 - i]);
    }
    assert IsPath(mask, r, q, p);
  }

  /** A labelling in which every pair of 4-adjacent foreground pixels shares a label. */
  ghost predicate AdjacentAgree(mask: seq<seq<bool>>, labels: seq<seq<int>>)
  {
    SameShape(labels, mask) &&
    forall p, q :: Foreground(mask, p) && Foreground(mask, q) && Adjacent(p, q) ==>
      labels[p.0][p.1] == labels[q.0][q.1]
  }

  /** Such a labelling is constant along any path. */
  lemma {:induction false} AgreeAlongPath(mask: seq<seq<bool>>, labels: seq<seq<int>>, path: seq<Pixel>, p: Pixel, q: Pixel)
    requires AdjacentAgree(mask, labels) && IsPath(mask, path, p, q)
    ensures labels[p.0][p.1] == labels[q.0][q.1]
    decreases |path|
  {
    if |path| > 1 {
      var prev := path[|path| - 2];
      assert Adjacent(prev, q);
      var front := path[..|path| - 1];
      assert forall i :: 0 <= i < |front| ==> front[i] == path[i];
      assert IsPath(mask, front, p, prev);
      AgreeAlongPath(mask, labels, front, p, prev);
    }
  }

  /** ... so it gives every 4-connected pair the same label. */
  lemma ConnectedSameLabel(mask: seq<seq<bool>>, labels: seq<seq<int>>, p: Pixel, q: Pixel)
    requires AdjacentAgree(mask, labels) && Connected(mask, p, q)
    ensures labels[p.0][p.1] == labels[q.0][q.1]
  {
    var path :| IsPath(mask, path, p, q);
    AgreeAlongPath(mask, labels, path, p, q);
  }
}
