/**
 * What count_rice.py computes to display the labelled grains: the colour
 * palette of `labels_to_color_image` and the per-label bounding boxes that
 * `count_rice_grains` draws on the overlay.
 */
module Rendering {
  import opened Connectivity
  import opened Labeling

  // ---------------------------------------------------------------------------
  // Palette

  datatype Color = Color(r: int, g: int, b: int)

  /** `color_for_label`: black for the background, otherwise a fixed multiple of
      the label in each channel, modulo 256. */
  function ColorForLabel(l: int): (c: Color)
    ensures l == 0 ==> c == Color(0, 0, 0)
    ensures 0 <= c.r < 256 && 0 <= c.g < 256 && 0 <= c.b < 256
  {
    if l == 0 then Color(0, 0, 0)
    else Color((l * 97) % 256, (l * 57) % 256, (l * 37) % 256)
  }

  /** 97 has an inverse modulo 256 (97 * 161 == 61 * 256 + 1), so 256 divides
      `97 * d` only when it divides `d`. */
  lemma OddFactorCancels(d: int)
    requires (d * 97) % 256 == 0
    ensures d % 256 == 0
  {
    var q := (d * 97) / 256;
    assert d * 97 == 256 * q;
    calc {
      d;
      d * (97 * 161) - d * (61 * 256);
      (d * 97) * 161 - 256 * (d * 61);
      (256 * q) * 161 - 256 * (d * 61);
      256 * (q * 161 - d * 61);
    }
  }

  /** Two numbers leave the same remainder modulo 256 exactly when their
      difference is a multiple of 256. */
  lemma SameResidue(u: int, v: int)
    ensures u % 256 == v % 256 <==> (u - v) % 256 == 0
  {
    var qu, ru := u / 256, u % 256;
    var qv, rv := v / 256, v % 256;
    assert u - v == 256 * (qu - qv) + (ru - rv);
    if (u - v) % 256 == 0 {
      var k := (u - v) / 256;
      assert ru - rv == 256 * (k - qu + qv);
    }
  }

  /** A multiple of 256 times anything is a multiple of 256. */
  lemma ScaledMultiple(d: int, c: int)
    requires d % 256 == 0
    ensures (d * c) % 256 == 0
  {
    var k := d / 256;
    assert d * c == 256 * (k * c);
  }

  /** A label is drawn black exactly when it is a multiple of 256: labels 256,
      512, ... are indistinguishable from the background. */
  lemma BlackIffMultipleOf256(l: int)
    ensures ColorForLabel(l) == Color(0, 0, 0) <==> l % 256 == 0
  {
    if ColorForLabel(l) == Color(0, 0, 0) && l != 0 {
      OddFactorCancels(l);
    }
    if l % 256 == 0 {
      ScaledMultiple(l, 97);
      ScaledMultiple(l, 57);
      ScaledMultiple(l, 37);
    }
  }

  /** For non-zero labels the palette repeats every 256 labels and nowhere
      else: the labels `1..255` all get different colours (already their red
      channels differ). */
  lemma PalettePeriod(a: int, b: int)
    requires a != 0 && b != 0
    ensures ColorForLabel(a) == ColorForLabel(b) <==> a % 256 == b % 256
  {
    var d := a - b;
    assert a * 97 - b * 97 == d * 97 && a * 57 - b * 57 == d * 57 && a * 37 - b * 37 == d * 37;
    SameResidue(a, b);
    SameResidue(a * 97, b * 97);
    SameResidue(a * 57, b * 57);
    SameResidue(a * 37, b * 37);
    if (d * 97) % 256 == 0 {
      OddFactorCancels(d);
    }
    if d % 256 == 0 {
      ScaledMultiple(d, 97);
      ScaledMultiple(d, 57);
      ScaledMultiple(d, 37);
    }
  }

  // ---------------------------------------------------------------------------
  // Bounding boxes

  /** `[x_min, y_min, x_max, y_max]`. */
  datatype Box = Box(x1: int, y1: int, x2: int, y2: int)

  ghost predicate Inside(b: Box, p: Pixel)
  {
    b.y1 <= p.0 <= b.y2 && b.x1 <= p.1 <= b.x2
  }

  /** Some pixel scanned before `bound` has label `lab` and sits in column `x`. */
  ghost predicate InColumn(labels: seq<seq<int>>, lab: int, x: int, bound: Pixel)
  {
    exists p :: InGrid(labels, p) && RasterBefore(p, bound) && labels[p.0][p.1] == lab && p.1 == x
  }

  /** Some pixel scanned before `bound` has label `lab` and sits in row `y`. */
  ghost predicate InRow(labels: seq<seq<int>>, lab: int, y: int, bound: Pixel)
  {
    exists p :: InGrid(labels, p) && RasterBefore(p, bound) && labels[p.0][p.1] == lab && p.0 == y
  }

  /** Each box is attained on all four sides by pixels scanned before `bound`. */
  ghost predicate BoxesTight(labels: seq<seq<int>>, boxes: map<int, Box>, bound: Pixel)
  {
    forall lab :: lab in boxes ==>
      InColumn(labels, lab, boxes[lab].x1, bound) && InColumn(labels, lab, boxes[lab].x2, bound) &&
      InRow(labels, lab, boxes[lab].y1, bound) && InRow(labels, lab, boxes[lab].y2, bound)
  }

  /** The boxes after the scan reached `bound`: one per non-zero label met so
      far, holding every such pixel, each side attained. */
  ghost predicate BoxesSoFar(labels: seq<seq<int>>, boxes: map<int, Box>, bound: Pixel)
  {
    (forall lab :: lab in boxes <==> lab != 0 && OccursBefore(labels, lab, bound)) &&
    (forall p :: InGrid(labels, p) && RasterBefore(p, bound) && labels[p.0][p.1] != 0 ==>
      labels[p.0][p.1] in boxes && Inside(boxes[labels[p.0][p.1]], p)) &&
    BoxesTight(labels, boxes, bound)
  }

  /** Facts established before `bound` still hold for a later `bound'`. */
  lemma WitnessLater(labels: seq<seq<int>>, lab: int, v: int, bound: Pixel, bound': Pixel)
    requires RasterBefore(bound, bound')
    ensures InColumn(labels, lab, v, bound) ==> InColumn(labels, lab, v, bound')
    ensures InRow(labels, lab, v, bound) ==> InRow(labels, lab, v, bound')
    ensures OccursBefore(labels, lab, bound) ==> OccursBefore(labels, lab, bound')
  {
  }

  /** Every edge of `inner` lies on or within the matching edge of `outer`. */
  ghost predicate Within(inner: Box, outer: Box)
  {
    outer.x1 <= inner.x1 && outer.y1 <= inner.y1 && inner.x2 <= outer.x2 && inner.y2 <= outer.y2
  }

  /** The box of `lab` widened to take in the pixel `(y, x)`, as the four
      comparisons of count_rice.py:296-303 do: the least box around both the
      old box and the pixel. */
  function Widen(b: Box, y: int, x: int): (r: Box)
    ensures Within(b, r) && Inside(r, (y, x))
    ensures forall c :: Within(b, c) && Inside(c, (y, x)) ==> Within(r, c)
  {
    var b := if x < b.x1 then b.(x1 := x) else b;
    var b := if y < b.y1 then b.(y1 := y) else b;
    var b := if x > b.x2 then b.(x2 := x) else b;
    if y > b.y2 then b.(y2 := y) else b
  }

  /** The box map after the scan has taken in pixel `(y, x)`. */
  ghost function BoxesAfter(labels: seq<seq<int>>, boxes: map<int, Box>, y: int, x: int): map<int, Box>
    requires InGrid(labels, (y, x))
  {
    var lab := labels[y][x];
    if lab == 0 then boxes
    else if lab !in boxes then boxes[lab := Box(x, y, x, y)]
    else boxes[lab := Widen(boxes[lab], y, x)]
  }

  lemma BoxStepKeys(labels: seq<seq<int>>, boxes: map<int, Box>, y: int, x: int)
    requires InGrid(labels, (y, x)) && BoxesSoFar(labels, boxes, (y, x))
    ensures forall lab :: lab in BoxesAfter(labels, boxes, y, x) <==> lab != 0 && OccursBefore(labels, lab, (y, x + 1))
  {
    var c, next := (y, x), (y, x + 1);
    forall l
      ensures l in BoxesAfter(labels, boxes, y, x) <==> l != 0 && OccursBefore(labels, l, next)
    {
      WitnessLater(labels, l, 0, c, next);
      if OccursBefore(labels, l, next) && l != labels[y][x] {
        var p :| InGrid(labels, p) && RasterBefore(p, next) && labels[p.0][p.1] == l;
        assert RasterBefore(p, c);
      }
      if l == labels[y][x] {
        assert InGrid(labels, c) && RasterBefore(c, next);
      }
    }
  }

  lemma BoxStepInside(labels: seq<seq<int>>, boxes: map<int, Box>, y: int, x: int)
    requires InGrid(labels, (y, x)) && BoxesSoFar(labels, boxes, (y, x))
    ensures var boxes' := BoxesAfter(labels, boxes, y, x);
      forall p :: InGrid(labels, p) && RasterBefore(p, (y, x + 1)) && labels[p.0][p.1] != 0 ==>
        labels[p.0][p.1] in boxes' && Inside(boxes'[labels[p.0][p.1]], p)
  {
  }

  lemma BoxStepTight(labels: seq<seq<int>>, boxes: map<int, Box>, y: int, x: int)
    requires InGrid(labels, (y, x)) && BoxesSoFar(labels, boxes, (y, x))
    ensures BoxesTight(labels, BoxesAfter(labels, boxes, y, x), (y, x + 1))
  {
    var c, next := (y, x), (y, x + 1);
    var lab := labels[y][x];
    var boxes' := BoxesAfter(labels, boxes, y, x);
    forall l | l in boxes'
      ensures InColumn(labels, l, boxes'[l].x1, next) && InColumn(labels, l, boxes'[l].x2, next)
      ensures InRow(labels, l, boxes'[l].y1, next) && InRow(labels, l, boxes'[l].y2, next)
    {
      if l == lab && lab != 0 {
        assert InGrid(labels, c) && RasterBefore(c, next) && labels[c.0][c.1] == lab;
        assert InColumn(labels, lab, x, next) && InRow(labels, lab, y, next);
        if l in boxes {
          SidesLater(labels, l, boxes[l], c, next);
          WidenSides(boxes[l], y, x);
        }
      } else if l in boxes {
        SidesLater(labels, l, boxes[l], c, next);
      }
    }
  }

  /** Each side of a widened box is the old side or passes through the new pixel. */
  lemma WidenSides(b: Box, y: int, x: int)
    ensures var r := Widen(b, y, x);
      (r.x1 == b.x1 || r.x1 == x) && (r.x2 == b.x2 || r.x2 == x) &&
      (r.y1 == b.y1 || r.y1 == y) && (r.y2 == b.y2 || r.y2 == y)
  {
  }

  /** The four sides of `b` attained before `bound` are still attained before `bound'`. */
  lemma SidesLater(labels: seq<seq<int>>, lab: int, b: Box, bound: Pixel, bound': Pixel)
    requires RasterBefore(bound, bound')
    requires InColumn(labels, lab, b.x1, bound) && InColumn(labels, lab, b.x2, bound)
    requires InRow(labels, lab, b.y1, bound) && InRow(labels, lab, b.y2, bound)
    ensures InColumn(labels, lab, b.x1, bound') && InColumn(labels, lab, b.x2, bound')
    ensures InRow(labels, lab, b.y1, bound') && InRow(labels, lab, b.y2, bound')
  {
    WitnessLater(labels, lab, b.x1, bound, bound');
    WitnessLater(labels, lab, b.x2, bound, bound');
    WitnessLater(labels, lab, b.y1, bound, bound');
    WitnessLater(labels, lab, b.y2, bound, bound');
  }

  /** Taking in pixel `(y, x)` keeps the box invariant. */
  lemma BoxStep(labels: seq<seq<int>>, boxes: map<int, Box>, y: int, x: int)
    requires InGrid(labels, (y, x)) && BoxesSoFar(labels, boxes, (y, x))
    ensures BoxesSoFar(labels, BoxesAfter(labels, boxes, y, x), (y, x + 1))
  {
    BoxStepKeys(labels, boxes, y, x);
    BoxStepInside(labels, boxes, y, x);
    BoxStepTight(labels, boxes, y, x);
  }

  /** The bounding-box scan of count_rice.py:284-304: for every non-zero label
      the smallest box holding all its pixels. */
  method ComponentBoxes(labels: seq<seq<int>>) returns (boxes: map<int, Box>)
    requires Rectangular(labels)
    ensures forall lab :: lab in boxes <==> lab != 0 && LabelOccurs(labels, lab)
    ensures forall p :: InGrid(labels, p) && labels[p.0][p.1] != 0 ==>
      labels[p.0][p.1] in boxes && Inside(boxes[labels[p.0][p.1]], p)
    ensures BoxesTight(labels, boxes, (|labels|, 0))
  {
    var h := |labels|;
    var w := if h > 0 then |labels[0]| else 0;
    boxes := map[];
    for y := 0 to h
      invariant BoxesSoFar(labels, boxes, (y, 0))
    {
      boxes := ScanRow(labels, boxes, y, w);
    }
    AllScanned(labels, boxes);
  }

  /** One row of the bounding-box scan: a new label gets the one-pixel box,
      a known one has its box widened. */
  method ScanRow(labels: seq<seq<int>>, boxes: map<int, Box>, y: int, w: int) returns (boxes': map<int, Box>)
    requires Rectangular(labels) && 0 <= y < |labels| && w == |labels[0]|
    requires BoxesSoFar(labels, boxes, (y, 0))
    ensures BoxesSoFar(labels, boxes', (y + 1, 0))
  {
    boxes' := boxes;
    for x := 0 to w
      invariant BoxesSoFar(labels, boxes', (y, x))
    {
      BoxStep(labels, boxes', y, x);
      boxes' := TakeIn(labels, boxes', y, x);
    }
    RowEnd(labels, boxes', y, w);
  }

  /** The loop body for one pixel (count_rice.py:290-304): background is
      skipped, a new label gets the one-pixel box, a known one is widened. */
  method TakeIn(labels: seq<seq<int>>, boxes: map<int, Box>, y: int, x: int) returns (boxes': map<int, Box>)
    requires InGrid(labels, (y, x))
    ensures boxes' == BoxesAfter(labels, boxes, y, x)
  {
    var lab := labels[y][x];
    if lab == 0 {
      return boxes;
    }
    if lab !in boxes {
      boxes' := boxes[lab := Box(x, y, x, y)];
    } else {
      boxes' := boxes[lab := Widen(boxes[lab], y, x)];
    }
  }

  /** The box of a label is the least box holding all of its pixels. */
  lemma BoxIsLeast(labels: seq<seq<int>>, boxes: map<int, Box>, lab: int, b: Box)
    requires lab in boxes && BoxesTight(labels, boxes, (|labels|, 0))
    requires forall p :: InGrid(labels, p) && labels[p.0][p.1] == lab ==> Inside(b, p)
    ensures b.x1 <= boxes[lab].x1 && b.y1 <= boxes[lab].y1
    ensures boxes[lab].x2 <= b.x2 && boxes[lab].y2 <= b.y2
  {
    var bx := boxes[lab];
    assert InColumn(labels, lab, bx.x1, (|labels|, 0));
    assert InColumn(labels, lab, bx.x2, (|labels|, 0));
    assert InRow(labels, lab, bx.y1, (|labels|, 0));
    assert InRow(labels, lab, bx.y2, (|labels|, 0));
  }

  /** A label that covers exactly the rectangle `r` gets `r` back as its box. */
  lemma RectangleBox(labels: seq<seq<int>>, boxes: map<int, Box>, lab: int, r: Box)
    requires lab in boxes && BoxesTight(labels, boxes, (|labels|, 0))
    requires forall p :: InGrid(labels, p) && labels[p.0][p.1] != 0 ==>
      labels[p.0][p.1] in boxes && Inside(boxes[labels[p.0][p.1]], p)
    requires lab != 0 && r.x1 <= r.x2 && r.y1 <= r.y2
    requires InGrid(labels, (r.y1, r.x1)) && InGrid(labels, (r.y2, r.x2))
    requires forall p :: InGrid(labels, p) ==> (labels[p.0][p.1] == lab <==> Inside(r, p))
    ensures boxes[lab] == r
  {
    BoxIsLeast(labels, boxes, lab, r);
    assert Inside(r, (r.y1, r.x1)) && Inside(r, (r.y2, r.x2));
  }

  lemma AllScanned(labels: seq<seq<int>>, boxes: map<int, Box>)
    requires BoxesSoFar(labels, boxes, (|labels|, 0))
    ensures forall lab :: lab in boxes <==> lab != 0 && LabelOccurs(labels, lab)
    ensures forall p :: InGrid(labels, p) && labels[p.0][p.1] != 0 ==>
      labels[p.0][p.1] in boxes && Inside(boxes[labels[p.0][p.1]], p)
  {
    forall lab
      ensures OccursBefore(labels, lab, (|labels|, 0)) <==> LabelOccurs(labels, lab)
    {
      if LabelOccurs(labels, lab) {
        var p :| InGrid(labels, p) && labels[p.0][p.1] == lab;
        assert RasterBefore(p, (|labels|, 0));
      }
    }
  }

  lemma RowEnd(labels: seq<seq<int>>, boxes: map<int, Box>, y: int, w: int)
    requires Rectangular(labels) && (|labels| > 0 ==> w == |labels[0]|)
    requires BoxesSoFar(labels, boxes, (y, w))
    ensures BoxesSoFar(labels, boxes, (y + 1, 0))
  {
    var b, b' := (y, w), (y + 1, 0);
    assert forall p :: InGrid(labels, p) ==> (RasterBefore(p, b) <==> RasterBefore(p, b'));
    forall l | l in boxes
      ensures InColumn(labels, l, boxes[l].x1, b') && InColumn(labels, l, boxes[l].x2, b')
      ensures InRow(labels, l, boxes[l].y1, b') && InRow(labels, l, boxes[l].y2, b')
    {
      WitnessLater(labels, l, boxes[l].x1, b, b');
      WitnessLater(labels, l, boxes[l].x2, b, b');
      WitnessLater(labels, l, boxes[l].y1, b, b');
      WitnessLater(labels, l, boxes[l].y2, b, b');
    }
    forall l
      ensures OccursBefore(labels, l, b) <==> OccursBefore(labels, l, b')
    {
      WitnessLater(labels, l, 0, b, b');
      if OccursBefore(labels, l, b') {
        var p :| InGrid(labels, p) && RasterBefore(p, b') && labels[p.0][p.1] == l;
        assert RasterBefore(p, b);
      }
    }
  }
}
