/** Axis-aligned boxes `(x1, y1, x2, y2)`: pixel boxes with integer corners
    (what OpenCV reports) and normalised boxes with real corners (pixel
    coordinates divided by the image size). A box is well formed when its
    first corner is not to the right of or below its second corner. */
module Boxes {
  import opened Common

  // ---------------------------------------------------------------------------
  // Pixel boxes
  // ---------------------------------------------------------------------------

  datatype PixelBox = PixelBox(x1: int, y1: int, x2: int, y2: int)

  /** An image shape `(height, width)`, as numpy's `img.shape[:2]`. */
  datatype Shape = Shape(h: int, w: int)

  predicate PixelWellFormed(b: PixelBox) { b.x1 <= b.x2 && b.y1 <= b.y2 }

  function PixelArea(b: PixelBox): int { (b.x2 - b.x1) * (b.y2 - b.y1) }

  /** The smallest box enclosing both boxes (the coordinate-wise min/max). */
  function PixelUnion(a: PixelBox, b: PixelBox): (r: PixelBox)
    ensures r.x1 <= a.x1 && r.x1 <= b.x1 && r.y1 <= a.y1 && r.y1 <= b.y1
    ensures r.x2 >= a.x2 && r.x2 >= b.x2 && r.y2 >= a.y2 && r.y2 >= b.y2
    ensures (r.x1 == a.x1 || r.x1 == b.x1) && (r.y1 == a.y1 || r.y1 == b.y1)
    ensures (r.x2 == a.x2 || r.x2 == b.x2) && (r.y2 == a.y2 || r.y2 == b.y2)
  {
    PixelBox(MinInt(a.x1, b.x1), MinInt(a.y1, b.y1), MaxInt(a.x2, b.x2), MaxInt(a.y2, b.y2))
  }

  /** `outer` encloses `inner` (all four comparisons inclusive). */
  predicate PixelEncloses(outer: PixelBox, inner: PixelBox)
  {
    inner.x1 >= outer.x1 && inner.y1 >= outer.y1 && inner.x2 <= outer.x2 && inner.y2 <= outer.y2
  }

  /** The smallest box enclosing every box of a non-empty list. */
  function PixelHull(bs: seq<PixelBox>): (r: PixelBox)
    requires |bs| > 0
    ensures forall i :: 0 <= i < |bs| ==> PixelEncloses(r, bs[i])
  {
    if |bs| == 1 then bs[0]
    else
      var h := PixelHull(bs[..|bs| - 1]);
      assert forall i :: 0 <= i < |bs| - 1 ==> bs[..|bs| - 1][i] == bs[i];
      PixelUnion(h, bs[|bs| - 1])
  }

  /** Each side of the hull is the corresponding side of one of the boxes, so
      the hull is the smallest enclosing box. */
  lemma {:induction false} PixelHullTight(bs: seq<PixelBox>)
    requires |bs| > 0
    ensures exists i :: 0 <= i < |bs| && PixelHull(bs).x1 == bs[i].x1
    ensures exists i :: 0 <= i < |bs| && PixelHull(bs).y1 == bs[i].y1
    ensures exists i :: 0 <= i < |bs| && PixelHull(bs).x2 == bs[i].x2
    ensures exists i :: 0 <= i < |bs| && PixelHull(bs).y2 == bs[i].y2
  {
    if |bs| > 1 {
      var n := |bs| - 1;
      PixelHullTight(bs[..n]);
      var h, r := PixelHull(bs[..n]), PixelHull(bs);
      var a :| 0 <= a < n && h.x1 == bs[..n][a].x1;
      var b :| 0 <= b < n && h.y1 == bs[..n][b].y1;
      var c :| 0 <= c < n && h.x2 == bs[..n][c].x2;
      var d :| 0 <= d < n && h.y2 == bs[..n][d].y2;
      assert r.x1 == bs[n].x1 || r.x1 == bs[a].x1;
      assert r.y1 == bs[n].y1 || r.y1 == bs[b].y1;
      assert r.x2 == bs[n].x2 || r.x2 == bs[c].x2;
      assert r.y2 == bs[n].y2 || r.y2 == bs[d].y2;
    } else {
      assert bs[0] == bs[|bs| - 1];
    }
  }

  lemma PixelHullAppend(bs: seq<PixelBox>, b: PixelBox)
    requires |bs| > 0
    ensures PixelHull(bs + [b]) == PixelUnion(PixelHull(bs), b)
  {
    assert (bs + [b])[..|bs + [b]| - 1] == bs;
  }

  /** Gap between the projections of two boxes on the x axis; 0 when they
      overlap or touch. */
  function GapX(a: PixelBox, b: PixelBox): (r: int)
    ensures r >= 0
    ensures r == 0 <==> (a.x1 <= b.x2 && b.x1 <= a.x2)
  {
    MaxInt(0, MaxInt(a.x1 - b.x2, b.x1 - a.x2))
  }

  /** Gap between the projections of two boxes on the y axis. */
  function GapY(a: PixelBox, b: PixelBox): (r: int)
    ensures r >= 0
    ensures r == 0 <==> (a.y1 <= b.y2 && b.y1 <= a.y2)
  {
    MaxInt(0, MaxInt(a.y1 - b.y2, b.y1 - a.y2))
  }

  // ---------------------------------------------------------------------------
  // Real boxes
  // ---------------------------------------------------------------------------

  datatype Box = Box(x1: real, y1: real, x2: real, y2: real)

  predicate WellFormed(b: Box) { b.x1 <= b.x2 && b.y1 <= b.y2 }

  function Area(b: Box): real { (b.x2 - b.x1) * (b.y2 - b.y1) }

  function InterWidth(a: Box, b: Box): real { MinReal(a.x2, b.x2) - MaxReal(a.x1, b.x1) }

  function InterHeight(a: Box, b: Box): real { MinReal(a.y2, b.y2) - MaxReal(a.y1, b.y1) }

  /** The boxes share a region of positive area: the negation of the guard
      `ix2 <= ix1 or iy2 <= iy1` every overlap metric starts with. */
  predicate Intersect(a: Box, b: Box)
  {
    InterWidth(a, b) > 0.0 && InterHeight(a, b) > 0.0
  }

  /** Area of the intersection, 0 when the boxes do not intersect. */
  function InterArea(a: Box, b: Box): (r: real)
    ensures r >= 0.0
    ensures r > 0.0 <==> Intersect(a, b)
  {
    if Intersect(a, b) then InterWidth(a, b) * InterHeight(a, b) else 0.0
  }

  lemma InterAreaSymmetric(a: Box, b: Box)
    ensures InterArea(a, b) == InterArea(b, a)
  {
    assert InterWidth(a, b) == InterWidth(b, a);
    assert InterHeight(a, b) == InterHeight(b, a);
  }

  lemma MulMonotone(a: real, b: real, c: real, d: real)
    requires 0.0 <= a <= c && 0.0 <= b <= d
    ensures a * b <= c * d
  {
    assert a * b <= c * b;
    assert c * b <= c * d;
  }

  /** The intersection is never larger than either box. */
  lemma InterAreaAtMostArea(a: Box, b: Box)
    requires WellFormed(a)
    ensures InterArea(a, b) <= Area(a)
  {
    if Intersect(a, b) {
      MulMonotone(InterWidth(a, b), InterHeight(a, b), a.x2 - a.x1, a.y2 - a.y1);
    } else {
      MulMonotone(0.0, 0.0, a.x2 - a.x1, a.y2 - a.y1);
    }
  }

  /** The intersection of a box with a box enclosing it is the box itself. */
  lemma InterAreaOfEnclosed(a: Box, outer: Box)
    requires WellFormed(a) && Area(a) > 0.0
    requires outer.x1 <= a.x1 && outer.y1 <= a.y1 && a.x2 <= outer.x2 && a.y2 <= outer.y2
    ensures InterArea(a, outer) == Area(a)
  {
    assert InterWidth(a, outer) == a.x2 - a.x1;
    assert InterHeight(a, outer) == a.y2 - a.y1;
  }

  /** The smallest box enclosing a non-empty list of boxes (`merge_bboxes`). */
  function Hull(bs: seq<Box>): (r: Box)
    requires |bs| > 0
    ensures forall i :: 0 <= i < |bs| ==>
      r.x1 <= bs[i].x1 && r.y1 <= bs[i].y1 && r.x2 >= bs[i].x2 && r.y2 >= bs[i].y2
  {
    if |bs| == 1 then bs[0]
    else
      var h := Hull(bs[..|bs| - 1]);
      var b := bs[|bs| - 1];
      assert forall i :: 0 <= i < |bs| - 1 ==> bs[..|bs| - 1][i] == bs[i];
      Box(MinReal(h.x1, b.x1), MinReal(h.y1, b.y1), MaxReal(h.x2, b.x2), MaxReal(h.y2, b.y2))
  }

  /** Each side of the hull is the corresponding side of one of the boxes. */
  lemma {:induction false} HullTight(bs: seq<Box>)
    requires |bs| > 0
    ensures exists i :: 0 <= i < |bs| && Hull(bs).x1 == bs[i].x1
    ensures exists i :: 0 <= i < |bs| && Hull(bs).y1 == bs[i].y1
    ensures exists i :: 0 <= i < |bs| && Hull(bs).x2 == bs[i].x2
    ensures exists i :: 0 <= i < |bs| && Hull(bs).y2 == bs[i].y2
  {
    if |bs| > 1 {
      var n := |bs| - 1;
      HullTight(bs[..n]);
      var h, r := Hull(bs[..n]), Hull(bs);
      var a :| 0 <= a < n && h.x1 == bs[..n][a].x1;
      var b :| 0 <= b < n && h.y1 == bs[..n][b].y1;
      var c :| 0 <= c < n && h.x2 == bs[..n][c].x2;
      var d :| 0 <= d < n && h.y2 == bs[..n][d].y2;
      assert r.x1 == bs[n].x1 || r.x1 == bs[a].x1;
      assert r.y1 == bs[n].y1 || r.y1 == bs[b].y1;
      assert r.x2 == bs[n].x2 || r.x2 == bs[c].x2;
      assert r.y2 == bs[n].y2 || r.y2 == bs[d].y2;
    } else {
      assert bs[0] == bs[|bs| - 1];
    }
  }

  lemma HullWellFormed(bs: seq<Box>)
    requires |bs| > 0
    requires forall i :: 0 <= i < |bs| ==> WellFormed(bs[i])
    ensures WellFormed(Hull(bs))
  {
    var r := Hull(bs);
    assert r.x1 <= bs[0].x1 <= bs[0].x2 <= r.x2;
    assert r.y1 <= bs[0].y1 <= bs[0].y2 <= r.y2;
  }
}
