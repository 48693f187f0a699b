/**
 * The five neighbourhood filters of main.py. Each visits every pixel of an RGB
 * image, gathers the colours of its in-bounds 4-neighbours and writes a new
 * colour into a fresh canvas of the same size; they differ only in the rule
 * that turns the centre value and the neighbour values of one channel into the
 * new value. Images keep PIL's indexing `px[x, y]`: the first index is the
 * column (`0 <= x < width`), the second the row.
 */
module NeighborhoodFilters {
  import opened Builtins

  /** One pixel as PIL returns it for an "RGB" image. */
  datatype RGB = RGB(r: int, g: int, b: int)

  datatype Channel = Red | Green | Blue

  function Component(p: RGB, c: Channel): int
  {
    match c
    case Red => p.r
    case Green => p.g
    case Blue => p.b
  }

  /** A position (x, y): column first, then row. */
  type Coord = (int, int)

  /** `q` is one step left, right, up or down from `p`. */
  predicate Orthogonal(p: Coord, q: Coord)
  {
    (q.1 == p.1 && (q.0 == p.0 + 1 || q.0 == p.0 - 1)) ||
    (q.0 == p.0 && (q.1 == p.1 + 1 || q.1 == p.1 - 1))
  }

  /** `check_neighbor`: the four orthogonal neighbours of (x, y), each listed once. */
  function CheckNeighbor(x: int, y: int): (ns: seq<Coord>)
    ensures |ns| == 4
    ensures forall q :: q in ns <==> Orthogonal((x, y), q)
    ensures forall i, j :: 0 <= i < j < |ns| ==> ns[i] != ns[j]
  {
    [(x + 1, y), (x - 1, y), (x, y + 1), (x, y - 1)]
  }

  /** `q = (x, y)` lies in a `w` by `h` image, column index first (the
      counterpart of `Connectivity.InGrid`, which takes the row first). */
  predicate InBounds(w: int, h: int, q: Coord)
  {
    0 <= q.0 < w && 0 <= q.1 < h
  }

  /** The positions of `ns` inside a `w` by `h` image, in their listed order. */
  function InBoundsOf(w: int, h: int, ns: seq<Coord>): (r: seq<Coord>)
    ensures |r| <= |ns|
    ensures forall q :: q in r <==> q in ns && InBounds(w, h, q)
    ensures forall i :: 0 <= i < |r| ==> InBounds(w, h, r[i])
  {
    if |ns| == 0 then []
    else
      var front, last := ns[..|ns| - 1], ns[|ns| - 1];
      assert ns == front + [last];
      if InBounds(w, h, last) then InBoundsOf(w, h, front) + [last] else InBoundsOf(w, h, front)
  }

  /** An image as the list of its columns, so that `g[x][y]` is PIL's `px[x, y]`. */
  type Image = seq<seq<RGB>>

  /** The number of rows (0 for an image without columns). */
  function Height(g: Image): int
  {
    if |g| == 0 then 0 else |g[0]|
  }

  /** Every column has the same height. (The grids of count_rice.py are lists
      of rows; main.py's images are indexed columns first, hence this
      column-wise counterpart of `Connectivity.Rectangular`.) */
  predicate Rectangular(g: Image)
  {
    forall x :: 0 <= x < |g| ==> |g[x]| == Height(g)
  }

  /** `q = (x, y)` is a position of `g`. */
  predicate Inside(g: Image, q: Coord)
  {
    InBounds(|g|, Height(g), q)
  }

  /** The colour at an in-bounds position. */
  function At(g: Image, q: Coord): RGB
    requires Rectangular(g) && Inside(g, q)
  {
    g[q.0][q.1]
  }

  /** The contents of a PIL pixel array, column by column. */
  ghost function Pixels(img: array2<RGB>): (g: Image)
    reads img
    ensures |g| == img.Length0 && Rectangular(g)
    ensures img.Length0 > 0 ==> Height(g) == img.Length1
    ensures forall x, y :: 0 <= x < img.Length0 && 0 <= y < img.Length1 ==> g[x][y] == img[x, y]
  {
    seq(img.Length0, x requires 0 <= x < img.Length0 reads img =>
      seq(img.Length1, y requires 0 <= y < img.Length1 reads img => img[x, y]))
  }

  /** The colours at the positions `ps`, all of which lie inside `g`. */
  function PixelsAt(g: Image, ps: seq<Coord>): (s: seq<RGB>)
    requires Rectangular(g)
    requires forall i :: 0 <= i < |ps| ==> Inside(g, ps[i])
    ensures |s| == |ps|
    ensures forall i :: 0 <= i < |ps| ==> s[i] == At(g, ps[i])
  {
    seq(|ps|, i requires 0 <= i < |ps| =>
      var q := ps[i];
      assert Inside(g, q);
      At(g, q))
  }

  /** The colours of the in-bounds neighbours of (x, y), in `check_neighbor`'s order. */
  function Samples(g: Image, x: int, y: int): seq<RGB>
    requires Rectangular(g)
  {
    PixelsAt(g, InBoundsOf(|g|, Height(g), CheckNeighbor(x, y)))
  }

  /** One channel of a list of colours. */
  function Values(s: seq<RGB>, c: Channel): (vs: seq<int>)
    ensures |vs| == |s|
    ensures forall i :: 0 <= i < |s| ==> vs[i] == Component(s[i], c)
  {
    seq(|s|, i requires 0 <= i < |s| => Component(s[i], c))
  }

  /** Only in-bounds orthogonal neighbours are sampled, each exactly once, and
      every one of them is. */
  lemma SamplesAreNeighbours(g: Image, x: int, y: int)
    requires Rectangular(g)
    ensures var ps := InBoundsOf(|g|, Height(g), CheckNeighbor(x, y));
      |Samples(g, x, y)| == |ps| &&
      (forall q :: q in ps <==> Orthogonal((x, y), q) && Inside(g, q)) &&
      (forall i, j :: 0 <= i < j < |ps| ==> ps[i] != ps[j]) &&
      (forall i :: 0 <= i < |ps| ==> Samples(g, x, y)[i] == At(g, ps[i]))
  {
    DistinctKept(|g|, Height(g), CheckNeighbor(x, y));
  }

  lemma {:induction false} DistinctKept(w: int, h: int, ns: seq<Coord>)
    requires forall i, j :: 0 <= i < j < |ns| ==> ns[i] != ns[j]
    ensures var r := InBoundsOf(w, h, ns); forall i, j :: 0 <= i < j < |r| ==> r[i] != r[j]
  {
    if |ns| > 0 {
      var front, last := ns[..|ns| - 1], ns[|ns| - 1];
      DistinctKept(w, h, front);
      assert last !in front;
      assert last !in InBoundsOf(w, h, front);
    }
  }

  /** A pixel has no in-bounds neighbour exactly when the image is a single pixel. */
  lemma NoNeighboursIffSinglePixel(g: Image, x: int, y: int)
    requires Rectangular(g) && Inside(g, (x, y))
    ensures |Samples(g, x, y)| == 0 <==> |g| == 1 && Height(g) == 1
  {
    var w, h := |g|, Height(g);
    var ps := InBoundsOf(w, h, CheckNeighbor(x, y));
    if w > 1 {
      var q := if x + 1 < w then (x + 1, y) else (x - 1, y);
      assert q in ps;
    } else if h > 1 {
      var q := if y + 1 < h then (x, y + 1) else (x, y - 1);
      assert q in ps;
    } else {
      NoneInBounds(w, h, CheckNeighbor(x, y));
    }
  }

  lemma {:induction false} NoneInBounds(w: int, h: int, ns: seq<Coord>)
    requires forall i :: 0 <= i < |ns| ==> !InBounds(w, h, ns[i])
    ensures InBoundsOf(w, h, ns) == []
  {
    if |ns| > 0 {
      NoneInBounds(w, h, ns[..|ns| - 1]);
    }
  }

  lemma PixelsAtAppend(g: Image, ps: seq<Coord>, q: Coord)
    requires Rectangular(g)
    requires forall i :: 0 <= i < |ps| ==> Inside(g, ps[i])
    requires Inside(g, q)
    ensures PixelsAt(g, ps + [q]) == PixelsAt(g, ps) + [At(g, q)]
  {
  }

  lemma ValuesAppend(s: seq<RGB>, p: RGB, c: Channel)
    ensures Values(s + [p], c) == Values(s, c) + [Component(p, c)]
  {
  }

  /** The loop of main.py:35-40: the three channel lists of the in-bounds neighbours. */
  method CollectNeighbours(img: array2<RGB>, x: int, y: int) returns (rVal: seq<int>, gVal: seq<int>, bVal: seq<int>)
    requires InBounds(img.Length0, img.Length1, (x, y))
    ensures rVal == Values(Samples(Pixels(img), x, y), Red)
    ensures gVal == Values(Samples(Pixels(img), x, y), Green)
    ensures bVal == Values(Samples(Pixels(img), x, y), Blue)
  {
    ghost var g := Pixels(img);
    var neighbors := CheckNeighbor(x, y);
    rVal, gVal, bVal := [], [], [];
    ghost var taken: seq<RGB> := [];
    for i := 0 to |neighbors|
      invariant taken == PixelsAt(g, InBoundsOf(|g|, Height(g), neighbors[..i]))
      invariant rVal == Values(taken, Red) && gVal == Values(taken, Green) && bVal == Values(taken, Blue)
    {
      var q := neighbors[i];
      assert neighbors[..i + 1] == neighbors[..i] + [q];
      if 0 <= q.0 < img.Length0 && 0 <= q.1 < img.Length1 {
        var p := img[q.0, q.1];
        PixelsAtAppend(g, InBoundsOf(|g|, Height(g), neighbors[..i]), q);
        ValuesAppend(taken, p, Red);
        ValuesAppend(taken, p, Green);
        ValuesAppend(taken, p, Blue);
        rVal, gVal, bVal := rVal + [p.r], gVal + [p.g], bVal + [p.b];
        taken := taken + [p];
      }
    }
    assert neighbors[..|neighbors|] == neighbors;
  }

  /** The per-channel rule that distinguishes the five filters. */
  datatype Rule =
    | Clamp     // filter_batas: clamp into [min, max] of the neighbours
    | ClampMin  // filter_batas_min: raise to the neighbours' minimum
    | ClampMax  // filter_batas_max: lower to the neighbours' maximum
    | Mean      // filter_mean: floor of the neighbours' mean
    | Median    // filter_median: element len // 2 of the sorted neighbours

  /** The new value of one channel, from its centre value `v` and the values
      `vals` of the in-bounds neighbours. */
  function NewValue(rule: Rule, vals: seq<int>, v: int): (r: int)
    requires |vals| > 0
    // every rule but the mean keeps the centre value or picks a neighbour's value
    ensures rule != Mean ==> r == v || r in vals
  {
    match rule
    case Clamp => if v < Min(vals) then Min(vals) else if v > Max(vals) then Max(vals) else v
    case ClampMin => if v < Min(vals) then Min(vals) else v
    case ClampMax => if v > Max(vals) then Max(vals) else v
    case Mean => Sum(vals) / |vals|
    case Median => MedianIsValue(vals); Sorted(vals)[|vals| / 2]
  }

  /** The colour a filter writes at (x, y): the original colour when no
      neighbour is in bounds, otherwise the rule applied channel by channel. */
  function FilterPixel(g: Image, x: int, y: int, rule: Rule): (r: RGB)
    requires Rectangular(g) && Inside(g, (x, y))
    ensures |Samples(g, x, y)| == 0 ==> r == g[x][y]
    ensures rule != Mean ==> forall c ::
      Component(r, c) == Component(g[x][y], c) || Component(r, c) in Values(Samples(g, x, y), c)
  {
    var s := Samples(g, x, y);
    var p := g[x][y];
    if |s| == 0 then p
    else
      var q := RGB(NewValue(rule, Values(s, Red), p.r),
                   NewValue(rule, Values(s, Green), p.g),
                   NewValue(rule, Values(s, Blue), p.b));
      ChannelWise(rule, s, p, q);
      q
  }

  /** The colour built from the three channel results has, in every channel,
      the rule applied to that channel. */
  lemma ChannelWise(rule: Rule, s: seq<RGB>, p: RGB, q: RGB)
    requires |s| > 0
    requires q == RGB(NewValue(rule, Values(s, Red), p.r),
                      NewValue(rule, Values(s, Green), p.g),
                      NewValue(rule, Values(s, Blue), p.b))
    ensures forall c :: Component(q, c) == NewValue(rule, Values(s, c), Component(p, c))
  {
    forall c ensures Component(q, c) == NewValue(rule, Values(s, c), Component(p, c)) {
      match c
      case Red =>
      case Green =>
      case Blue =>
    }
  }

  /** The body of the inner loop of every filter, for the pixel (x, y). */
  method FilterAt(img: array2<RGB>, x: int, y: int, rule: Rule, ghost g: Image, ghost want: Image) returns (p: RGB)
    requires InBounds(img.Length0, img.Length1, (x, y)) && g == Pixels(img)
    requires IsFiltered(g, rule, want)
    ensures p == want[x][y]
  {
    assert want[x][y] == FilterPixel(g, x, y, rule);
    var rVal, gVal, bVal := CollectNeighbours(img, x, y);
    if |rVal| == 0 {
      p := img[x, y];
      return;
    }
    var orig := img[x, y];
    p := RGB(NewValue(rule, rVal, orig.r), NewValue(rule, gVal, orig.g), NewValue(rule, bVal, orig.b));
  }

  /** `want` holds the filtered colour of every pixel of `g`. The trigger keeps
      the filtered colour from being unfolded where only `want` is needed. */
  ghost predicate IsFiltered(g: Image, rule: Rule, want: Image)
  {
    Rectangular(g) &&
    |want| == |g| && (forall x :: 0 <= x < |g| ==> |want[x]| == Height(g)) &&
    forall x, y {:trigger FilterPixel(g, x, y, rule)} :: 0 <= x < |g| && 0 <= y < Height(g) ==>
      want[x][y] == FilterPixel(g, x, y, rule)
  }

  /** The filtered image exists. */
  lemma FilteredImage(g: Image, rule: Rule) returns (want: Image)
    requires Rectangular(g)
    ensures IsFiltered(g, rule, want)
  {
    want := seq(|g|, x requires 0 <= x < |g| =>
      seq(Height(g), y requires 0 <= y < Height(g) => FilterPixel(g, x, y, rule)));
  }

  /** The shared loop of main.py's filters: a fresh canvas of the image's size
      holding the filtered colour of every pixel. */
  method ApplyFilter(img: array2<RGB>, rule: Rule) returns (canvas: array2<RGB>)
    ensures fresh(canvas)
    ensures canvas.Length0 == img.Length0 && canvas.Length1 == img.Length1
    ensures forall x, y :: 0 <= x < img.Length0 && 0 <= y < img.Length1 ==>
      canvas[x, y] == FilterPixel(Pixels(img), x, y, rule)
  {
    ghost var g := Pixels(img);
    ghost var want := FilteredImage(g, rule);
    canvas := new RGB[img.Length0, img.Length1]((_, _) => RGB(0, 0, 0));
    for x := 0 to img.Length0
      invariant forall i, j :: 0 <= i < x && 0 <= j < img.Length1 ==> canvas[i, j] == want[i][j]
    {
      FilterColumn(img, canvas, x, rule, g, want);
    }
    assert Pixels(img) == g;
  }

  /** The inner loop over the rows of column `x`: fills
      that column of the canvas and leaves the other columns alone. */
  method FilterColumn(img: array2<RGB>, canvas: array2<RGB>, x: int, rule: Rule, ghost g: Image, ghost want: Image)
    requires canvas != img && 0 <= x < img.Length0
    requires canvas.Length0 == img.Length0 && canvas.Length1 == img.Length1
    requires g == Pixels(img) && IsFiltered(g, rule, want)
    modifies canvas
    ensures forall j :: 0 <= j < img.Length1 ==> canvas[x, j] == want[x][j]
    ensures forall i, j :: 0 <= i < img.Length0 && i != x && 0 <= j < img.Length1 ==> canvas[i, j] == old(canvas[i, j])
  {
    for y := 0 to img.Length1
      invariant forall j :: 0 <= j < y ==> canvas[x, j] == want[x][j]
      invariant forall i, j :: 0 <= i < img.Length0 && i != x && 0 <= j < img.Length1 ==> canvas[i, j] == old(canvas[i, j])
    {
      var p := FilterAt(img, x, y, rule, g, want);
      canvas[x, y] := p;
    }
  }

  /** `filter_batas`. */
  method FilterBatas(img: array2<RGB>) returns (canvas: array2<RGB>)
    ensures fresh(canvas)
    ensures canvas.Length0 == img.Length0 && canvas.Length1 == img.Length1
    ensures forall x, y :: 0 <= x < img.Length0 && 0 <= y < img.Length1 ==>
      canvas[x, y] == FilterPixel(Pixels(img), x, y, Clamp)
  {
    canvas := ApplyFilter(img, Clamp);
  }

  /** `filter_batas_min`. */
  method FilterBatasMin(img: array2<RGB>) returns (canvas: array2<RGB>)
    ensures fresh(canvas)
    ensures canvas.Length0 == img.Length0 && canvas.Length1 == img.Length1
    ensures forall x, y :: 0 <= x < img.Length0 && 0 <= y < img.Length1 ==>
      canvas[x, y] == FilterPixel(Pixels(img), x, y, ClampMin)
  {
    canvas := ApplyFilter(img, ClampMin);
  }

  /** `filter_batas_max`. */
  method FilterBatasMax(img: array2<RGB>) returns (canvas: array2<RGB>)
    ensures fresh(canvas)
    ensures canvas.Length0 == img.Length0 && canvas.Length1 == img.Length1
    ensures forall x, y :: 0 <= x < img.Length0 && 0 <= y < img.Length1 ==>
      canvas[x, y] == FilterPixel(Pixels(img), x, y, ClampMax)
  {
    canvas := ApplyFilter(img, ClampMax);
  }

  /** `filter_mean`. */
  method FilterMean(img: array2<RGB>) returns (canvas: array2<RGB>)
    ensures fresh(canvas)
    ensures canvas.Length0 == img.Length0 && canvas.Length1 == img.Length1
    ensures forall x, y :: 0 <= x < img.Length0 && 0 <= y < img.Length1 ==>
      canvas[x, y] == FilterPixel(Pixels(img), x, y, Mean)
  {
    canvas := ApplyFilter(img, Mean);
  }

  /** `filter_median`. */
  method FilterMedian(img: array2<RGB>) returns (canvas: array2<RGB>)
    ensures fresh(canvas)
    ensures canvas.Length0 == img.Length0 && canvas.Length1 == img.Length1
    ensures forall x, y :: 0 <= x < img.Length0 && 0 <= y < img.Length1 ==>
      canvas[x, y] == FilterPixel(Pixels(img), x, y, Median)
  {
    canvas := ApplyFilter(img, Median);
  }

  /** A one-pixel image is copied unchanged by every filter. */
  lemma SinglePixelCopied(g: Image, rule: Rule)
    requires |g| == 1 && |g[0]| == 1
    ensures FilterPixel(g, 0, 0, rule) == g[0][0]
  {
    NoNeighboursIffSinglePixel(g, 0, 0);
  }

  // ---------------------------------------------------------------------
  // The per-channel rules

  /** `filter_batas` clamps into [min, max] of the neighbours and leaves a value
      already in that range alone. */
  lemma ClampIntoRange(vals: seq<int>, v: int)
    requires |vals| > 0
    ensures var r := NewValue(Clamp, vals, v);
      Min(vals) <= r <= Max(vals) &&
      (r == v <==> Min(vals) <= v <= Max(vals)) &&
      (forall u :: Min(vals) <= u <= Max(vals) ==> Dist(r, v) <= Dist(u, v))
  {
    assert Min(vals) <= vals[0] <= Max(vals);
  }

  function Dist(a: int, b: int): int
  {
    if a < b then b - a else a - b
  }

  /** `filter_batas_min` raises a value to the neighbours' minimum and never
      lowers it. */
  lemma RaiseToMin(vals: seq<int>, v: int)
    requires |vals| > 0
    ensures var r := NewValue(ClampMin, vals, v);
      v <= r && Min(vals) <= r && (r == v || r == Min(vals)) &&
      (r == v <==> Min(vals) <= v)
  {
  }

  /** `filter_batas_max` lowers a value to the neighbours' maximum and never
      raises it. */
  lemma LowerToMax(vals: seq<int>, v: int)
    requires |vals| > 0
    ensures var r := NewValue(ClampMax, vals, v);
      r <= v && r <= Max(vals) && (r == v || r == Max(vals)) &&
      (r == v <==> v <= Max(vals))
  {
  }

  /** Clamping into [min, max] is raising to the minimum, then lowering to the maximum. */
  lemma ClampIsMinThenMax(vals: seq<int>, v: int)
    requires |vals| > 0
    ensures NewValue(Clamp, vals, v) == NewValue(ClampMax, vals, NewValue(ClampMin, vals, v))
  {
    assert Min(vals) <= vals[0] <= Max(vals);
  }

  /** `filter_mean` takes the floor of the mean: `r` is the largest integer with
      `|vals| * r <= sum(vals)`, and it lies between the neighbours' minimum and maximum. */
  lemma MeanIsFloorMean(vals: seq<int>, v: int)
    requires |vals| > 0
    ensures var r := NewValue(Mean, vals, v);
      |vals| * r <= Sum(vals) < |vals| * (r + 1) &&
      Min(vals) <= r <= Max(vals)
  {
    SumBounds(vals, Min(vals), Max(vals));
    FloorDiv(Sum(vals), |vals|);
    DivBetween(Sum(vals), |vals|, Min(vals), Max(vals));
  }

  /** Floor division by a positive divisor. */
  lemma FloorDiv(s: int, n: int)
    requires n > 0
    ensures n * (s / n) <= s < n * (s / n + 1)
  {
    var r := s / n;
    assert s == n * r + s % n;
    assert n * (r + 1) == n * r + n;
  }

  lemma DivBetween(s: int, n: int, lo: int, hi: int)
    requires n > 0 && n * lo <= s <= n * hi
    ensures lo <= s / n <= hi
  {
    var r := s / n;
    FloorDiv(s, n);
    if r < lo {
      MulMono(n, r + 1, lo);
    }
    if r > hi {
      MulMono(n, hi, r);
    }
  }

  lemma MulMono(n: int, a: int, b: int)
    requires n >= 0 && a <= b
    ensures n * a <= n * b
  {
    assert n * b - n * a == n * (b - a);
  }

  /** The number of entries of `s` below `t`. */
  function CountBelow(s: seq<int>, t: int): nat
  {
    if |s| == 0 then 0 else (if s[0] < t then 1 else 0) + CountBelow(s[1..], t)
  }

  /** The number of entries of `s` above `t`. */
  function CountAbove(s: seq<int>, t: int): nat
  {
    if |s| == 0 then 0 else (if s[0] > t then 1 else 0) + CountAbove(s[1..], t)
  }

  lemma {:induction false} InsertCounts(x: int, s: seq<int>, t: int)
    requires IsSorted(s)
    ensures CountBelow(Insert(x, s), t) == CountBelow(s, t) + (if x < t then 1 else 0)
    ensures CountAbove(Insert(x, s), t) == CountAbove(s, t) + (if x > t then 1 else 0)
  {
    if |s| == 0 {
    } else if x <= s[0] {
      assert ([x] + s)[1..] == s;
    } else {
      InsertCounts(x, s[1..], t);
      assert ([s[0]] + Insert(x, s[1..]))[1..] == Insert(x, s[1..]);
    }
  }

  /** Sorting keeps how many entries lie below and above any value. */
  lemma {:induction false} SortedCounts(s: seq<int>, t: int)
    ensures CountBelow(Sorted(s), t) == CountBelow(s, t)
    ensures CountAbove(Sorted(s), t) == CountAbove(s, t)
  {
    if |s| > 0 {
      SortedCounts(s[1..], t);
      InsertCounts(s[0], Sorted(s[1..]), t);
    }
  }

  lemma {:induction false} BelowAtMost(q: seq<int>, t: int, k: nat)
    requires forall i :: k <= i < |q| ==> t <= q[i]
    ensures CountBelow(q, t) <= k
  {
    if |q| > 0 {
      BelowAtMost(q[1..], t, if k > 0 then k - 1 else 0);
    }
  }

  lemma {:induction false} AboveAtMost(q: seq<int>, t: int, k: nat)
    requires k <= |q|
    requires forall i :: 0 <= i < k ==> q[i] <= t
    ensures CountAbove(q, t) <= |q| - k
  {
    if |q| > 0 {
      AboveAtMost(q[1..], t, if k > 0 then k - 1 else 0);
    }
  }

  /** `filter_median` picks one of the neighbour values, between their minimum
      and maximum, with at most `len // 2` values below it and at most
      `len - len // 2 - 1` above it. */
  lemma MedianSplitsValues(vals: seq<int>, v: int)
    requires |vals| > 0
    ensures var r := NewValue(Median, vals, v);
      r in vals && Min(vals) <= r <= Max(vals) &&
      CountBelow(vals, r) <= |vals| / 2 &&
      CountAbove(vals, r) <= |vals| - |vals| / 2 - 1
  {
    MedianIsValue(vals);
    MedianCounts(vals);
  }

  /** The middle entry of the sorted list is one of the values. */
  lemma MedianIsValue(vals: seq<int>)
    requires |vals| > 0
    ensures var r := Sorted(vals)[|vals| / 2];
      r in vals && Min(vals) <= r <= Max(vals)
  {
    var q := Sorted(vals);
    var r := q[|vals| / 2];
    assert r in multiset(q);
    assert r in multiset(vals);
    var i :| 0 <= i < |vals| && vals[i] == r;
    assert Min(vals) <= vals[i] <= Max(vals);
  }

  /** At most `len // 2` values lie below the middle entry of the sorted list
      and at most `len - len // 2 - 1` above it. */
  lemma MedianCounts(vals: seq<int>)
    requires |vals| > 0
    ensures var r := Sorted(vals)[|vals| / 2];
      CountBelow(vals, r) <= |vals| / 2 &&
      CountAbove(vals, r) <= |vals| - |vals| / 2 - 1
  {
    var q, k := Sorted(vals), |vals| / 2;
    var r := q[k];
    SortedCounts(vals, r);
    SortedAround(q, k);
    BelowAtMost(q, r, k);
    AboveAtMost(q, r, k + 1);
  }

  /** In a sorted list, entries from index `k` on are at least `q[k]` and
      entries up to index `k` are at most `q[k]`. */
  lemma SortedAround(q: seq<int>, k: int)
    requires IsSorted(q) && 0 <= k < |q|
    ensures forall i :: k <= i < |q| ==> q[k] <= q[i]
    ensures forall i :: 0 <= i < k + 1 ==> q[i] <= q[k]
  {
  }

  /** Every rule lands between the smaller of the centre value and the
      neighbours' minimum and the larger of the centre value and their maximum. */
  lemma NewValueBetween(rule: Rule, vals: seq<int>, v: int)
    requires |vals| > 0
    ensures var r := NewValue(rule, vals, v);
      (if v < Min(vals) then v else Min(vals)) <= r <= (if v > Max(vals) then v else Max(vals))
  {
    match rule
    case Clamp => ClampIntoRange(vals, v);
    case ClampMin => RaiseToMin(vals, v);
    case ClampMax => LowerToMax(vals, v);
    case Mean => MeanIsFloorMean(vals, v);
    case Median => MedianSplitsValues(vals, v);
  }

  /** An image whose channels all lie in 0..255 filters to one whose channels do too. */
  lemma FilterKeepsChannelRange(g: Image, x: int, y: int, rule: Rule)
    requires Rectangular(g) && Inside(g, (x, y))
    requires forall i, j, c :: 0 <= i < |g| && 0 <= j < |g[i]| ==> 0 <= Component(g[i][j], c) < 256
    ensures forall c :: 0 <= Component(FilterPixel(g, x, y, rule), c) < 256
  {
    if |Samples(g, x, y)| > 0 {
      forall c ensures 0 <= Component(FilterPixel(g, x, y, rule), c) < 256 {
        ChannelInRange(g, x, y, rule, c);
      }
    }
  }

  /** One channel of a filtered pixel whose neighbourhood is not empty. */
  lemma ChannelInRange(g: Image, x: int, y: int, rule: Rule, c: Channel)
    requires Rectangular(g) && Inside(g, (x, y)) && |Samples(g, x, y)| > 0
    requires forall i, j, c :: 0 <= i < |g| && 0 <= j < |g[i]| ==> 0 <= Component(g[i][j], c) < 256
    ensures 0 <= Component(FilterPixel(g, x, y, rule), c) < 256
  {
    var s := Samples(g, x, y);
    SamplesAreNeighbours(g, x, y);
    var vals := Values(s, c);
    var v := Component(g[x][y], c);
    NewValueBetween(rule, vals, v);
    assert Component(FilterPixel(g, x, y, rule), c) == NewValue(rule, vals, v) by {
      match c
      case Red =>
      case Green =>
      case Blue =>
    }
    assert forall i :: 0 <= i < |vals| ==> 0 <= vals[i] < 256;
    assert Min(vals) in vals && Max(vals) in vals;
  }
}
