/** Perspective normalisation of a page image: the document outline is the
    largest contour covering at least a fifth of the image, its corners are
    put in a fixed order, and the page is warped to it. Edge detection,
    contour extraction, polygon approximation and the warp are OpenCV's and
    are inputs or left abstract. */
module Normalization {
  import opened Common

  datatype Point = Point(x: real, y: real)

  // ---------------------------------------------------------------------------
  // order_points
  // ---------------------------------------------------------------------------

  /** Index of the first minimum (`np.argmin`). */
  function ArgMin(v: seq<real>): (r: nat)
    requires |v| > 0
    ensures r < |v|
    ensures forall j :: 0 <= j < |v| ==> v[r] <= v[j]
    ensures forall j :: 0 <= j < r ==> v[j] > v[r]
  {
    if |v| == 1 then 0
    else
      var k := ArgMin(v[..|v| - 1]);
      assert forall j :: 0 <= j < |v| - 1 ==> v[..|v| - 1][j] == v[j];
      if v[|v| - 1] < v[k] then |v| - 1 else k
  }

  /** Index of the first maximum (`np.argmax`). */
  function ArgMax(v: seq<real>): (r: nat)
    requires |v| > 0
    ensures r < |v|
    ensures forall j :: 0 <= j < |v| ==> v[r] >= v[j]
    ensures forall j :: 0 <= j < r ==> v[j] < v[r]
  {
    if |v| == 1 then 0
    else
      var k := ArgMax(v[..|v| - 1]);
      assert forall j :: 0 <= j < |v| - 1 ==> v[..|v| - 1][j] == v[j];
      if v[|v| - 1] > v[k] then |v| - 1 else k
  }

  function Sums(pts: seq<Point>): (r: seq<real>)
    ensures |r| == |pts| && forall i :: 0 <= i < |pts| ==> r[i] == pts[i].x + pts[i].y
  {
    seq(|pts|, i requires 0 <= i < |pts| => pts[i].x + pts[i].y)
  }

  /** `np.diff(pts, axis=1)`: y − x of every point. */
  function Diffs(pts: seq<Point>): (r: seq<real>)
    ensures |r| == |pts| && forall i :: 0 <= i < |pts| ==> r[i] == pts[i].y - pts[i].x
  {
    seq(|pts|, i requires 0 <= i < |pts| => pts[i].y - pts[i].x)
  }

  /** `order_points`: top-left (smallest x + y), top-right (smallest y − x),
      bottom-right (largest x + y), bottom-left (largest y − x); ties go to
      the first point. The input must hold exactly four points. */
  function OrderPoints(pts: seq<Point>): (r: seq<Point>)
    requires |pts| == 4
    ensures |r| == 4
    ensures forall k :: 0 <= k < 4 ==> r[k] in pts
    ensures forall j :: 0 <= j < 4 ==> r[0].x + r[0].y <= pts[j].x + pts[j].y <= r[2].x + r[2].y
    ensures forall j :: 0 <= j < 4 ==> r[1].y - r[1].x <= pts[j].y - pts[j].x <= r[3].y - r[3].x
  {
    [pts[ArgMin(Sums(pts))], pts[ArgMin(Diffs(pts))], pts[ArgMax(Sums(pts))], pts[ArgMax(Diffs(pts))]]
  }

  /** Ties go to the earliest point: every point before the chosen
      top-left corner has a strictly larger coordinate sum. */
  lemma OrderPointsFirstWins(pts: seq<Point>)
    requires |pts| == 4
    ensures exists i :: 0 <= i < 4 && OrderPoints(pts)[0] == pts[i] &&
                        (forall j :: 0 <= j < i ==> pts[j].x + pts[j].y > pts[i].x + pts[i].y)
  {
    var i := ArgMin(Sums(pts));
    assert OrderPoints(pts)[0] == pts[i];
  }

  /** For an axis-aligned rectangle listed in any order the corners come out
      as top-left, top-right, bottom-right, bottom-left. */
  lemma OrderPointsOfRectangle(x1: real, y1: real, x2: real, y2: real, pts: seq<Point>)
    requires x1 < x2 && y1 < y2
    requires |pts| == 4 && multiset(pts) == multiset{Point(x1, y1), Point(x2, y1), Point(x2, y2), Point(x1, y2)}
    ensures OrderPoints(pts) == [Point(x1, y1), Point(x2, y1), Point(x2, y2), Point(x1, y2)]
  {
    var r := OrderPoints(pts);
    var a := IndexOf(pts, Point(x1, y1));
    var b := IndexOf(pts, Point(x2, y1));
    var c := IndexOf(pts, Point(x2, y2));
    var d := IndexOf(pts, Point(x1, y2));
    RectangleCorner(x1, y1, x2, y2, pts, r[0]);
    RectangleCorner(x1, y1, x2, y2, pts, r[1]);
    RectangleCorner(x1, y1, x2, y2, pts, r[2]);
    RectangleCorner(x1, y1, x2, y2, pts, r[3]);
    assert r[0].x + r[0].y <= pts[a].x + pts[a].y;
    assert r[1].y - r[1].x <= pts[b].y - pts[b].x;
    assert r[2].x + r[2].y >= pts[c].x + pts[c].y;
    assert r[3].y - r[3].x >= pts[d].y - pts[d].x;
  }

  /** A point of the rectangle is one of its corners, and each corner is the
      only one with its extreme coordinate sum or difference. */
  lemma RectangleCorner(x1: real, y1: real, x2: real, y2: real, pts: seq<Point>, p: Point)
    requires x1 < x2 && y1 < y2
    requires multiset(pts) == multiset{Point(x1, y1), Point(x2, y1), Point(x2, y2), Point(x1, y2)}
    requires p in pts
    ensures p == Point(x1, y1) || p == Point(x2, y1) || p == Point(x2, y2) || p == Point(x1, y2)
    ensures p.x + p.y <= x1 + y1 ==> p == Point(x1, y1)
    ensures p.y - p.x <= y1 - x2 ==> p == Point(x2, y1)
    ensures p.x + p.y >= x2 + y2 ==> p == Point(x2, y2)
    ensures p.y - p.x >= y2 - x1 ==> p == Point(x1, y2)
  {
    assert p in multiset(pts);
  }

  function IndexOf(pts: seq<Point>, p: Point): (i: nat)
    requires p in multiset(pts)
    ensures i < |pts| && pts[i] == p
  {
    if pts[0] == p then 0
    else
      assert pts == [pts[0]] + pts[1..];
      1 + IndexOf(pts[1..], p)
  }

  /** A degenerate quad (all four points equal) gives four equal corners. */
  lemma OrderPointsDegenerate(p: Point)
    ensures OrderPoints([p, p, p, p]) == [p, p, p, p]
  {
  }

  // ---------------------------------------------------------------------------
  // find_document_quad
  // ---------------------------------------------------------------------------

  /** A contour with what OpenCV reports about it: its area, the 2 %
      polygon approximation of its outline and the corners of its minimal
      rotated rectangle. */
  datatype Contour = Contour(area: real, approx: seq<Point>, box: seq<Point>)

  /** Inserts `c` after every contour of at least its area: the insertion
      step of a stable descending sort. */
  function InsertByArea(c: Contour, sorted: seq<Contour>): (r: seq<Contour>)
    ensures multiset(r) == multiset(sorted) + multiset{c}
    ensures |r| == |sorted| + 1
    decreases |sorted|
  {
    if |sorted| == 0 then [c]
    else if sorted[0].area >= c.area then
      assert sorted == [sorted[0]] + sorted[1..];
      [sorted[0]] + InsertByArea(c, sorted[1..])
    else [c] + sorted
  }

  predicate DescendingByArea(s: seq<Contour>)
  {
    forall i, j :: 0 <= i < j < |s| ==> s[i].area >= s[j].area
  }

  lemma {:induction false} InsertKeepsDescending(c: Contour, sorted: seq<Contour>)
    requires DescendingByArea(sorted)
    ensures DescendingByArea(InsertByArea(c, sorted))
    decreases |sorted|
  {
    if |sorted| > 0 && sorted[0].area >= c.area {
      InsertKeepsDescending(c, sorted[1..]);
      var r := InsertByArea(c, sorted);
      var rest := InsertByArea(c, sorted[1..]);
      assert r == [sorted[0]] + rest;
      forall k | 0 <= k < |rest| ensures sorted[0].area >= rest[k].area {
        assert rest[k] in multiset(sorted[1..]) + multiset{c};
        if rest[k] in multiset(sorted[1..]) {
          var m :| 0 <= m < |sorted[1..]| && sorted[1..][m] == rest[k];
          assert sorted[m + 1] == rest[k];
        }
      }
    }
  }

  /** `sorted(contours, key=contourArea, reverse=True)`, stable. */
  function SortByAreaDesc(cs: seq<Contour>): (r: seq<Contour>)
    ensures multiset(r) == multiset(cs) && |r| == |cs|
  {
    if |cs| == 0 then []
    else
      assert cs == cs[..|cs| - 1] + [cs[|cs| - 1]];
      InsertByArea(cs[|cs| - 1], SortByAreaDesc(cs[..|cs| - 1]))
  }

  lemma {:induction false} SortByAreaDescSorted(cs: seq<Contour>)
    ensures DescendingByArea(SortByAreaDesc(cs))
  {
    if |cs| > 0 {
      SortByAreaDescSorted(cs[..|cs| - 1]);
      InsertKeepsDescending(cs[|cs| - 1], SortByAreaDesc(cs[..|cs| - 1]));
    }
  }

  /** The contour qualifies as the document outline: at least a fifth of the
      image area (`area < img_area * 0.2` skips it). */
  predicate LargeEnough(c: Contour, imageArea: int)
  {
    c.area >= (imageArea as real) * 0.2
  }

  /** The corners returned for a qualifying contour: its approximation when
      that has four vertices, otherwise its minimal rectangle. */
  function QuadOf(c: Contour): seq<Point>
  {
    if |c.approx| == 4 then c.approx else c.box
  }

  /** The loop over the ten largest contours from position `i` on. */
  function FirstQualifying(sorted: seq<Contour>, imageArea: int, i: nat): (r: Option<nat>)
    requires i <= |sorted|
    ensures r.Some? ==> i <= r.value < MinInt(10, |sorted|) && LargeEnough(sorted[r.value], imageArea)
    ensures r.Some? ==> forall k :: i <= k < r.value ==> !LargeEnough(sorted[k], imageArea)
    ensures r.None? ==> forall k :: i <= k < MinInt(10, |sorted|) ==> !LargeEnough(sorted[k], imageArea)
    decreases |sorted| - i
  {
    if i >= MinInt(10, |sorted|) then None
    else if LargeEnough(sorted[i], imageArea) then Some(i)
    else FirstQualifying(sorted, imageArea, i + 1)
  }

  /** `find_document_quad`: the corners of the first of the ten largest
      contours that covers at least a fifth of the image, or none. The image
      area is height × width. */
  function FindDocumentQuad(contours: seq<Contour>, height: int, width: int): (r: Option<seq<Point>>)
    ensures r.None? <==> FirstQualifying(SortByAreaDesc(contours), height * width, 0).None?
    ensures r.Some? ==> exists k :: 0 <= k < |contours| && LargeEnough(contours[k], height * width) && r.value == QuadOf(contours[k])
  {
    var sorted := SortByAreaDesc(contours);
    match FirstQualifying(sorted, height * width, 0)
    case None => None
    case Some(i) =>
      assert sorted[i] in multiset(contours);
      Some(QuadOf(sorted[i]))
  }

  /** Since the contours are visited largest first and the test is a lower
      bound on the area, only the largest contour matters: a quad is found
      iff the largest contour covers a fifth of the image, and it is that
      contour's quad. */
  lemma OnlyLargestMatters(contours: seq<Contour>, height: int, width: int)
    requires |contours| > 0
    ensures var sorted := SortByAreaDesc(contours);
      FindDocumentQuad(contours, height, width) ==
        (if LargeEnough(sorted[0], height * width) then Some(QuadOf(sorted[0])) else None)
  {
    var sorted := SortByAreaDesc(contours);
    SortByAreaDescSorted(contours);
    LargestDecides(sorted, height * width);
  }

  /** On a list sorted largest first, the first qualifying contour is the
      first one or none. */
  lemma LargestDecides(sorted: seq<Contour>, area: int)
    requires |sorted| > 0 && DescendingByArea(sorted)
    ensures FirstQualifying(sorted, area, 0) == (if LargeEnough(sorted[0], area) then Some(0) else None)
  {
    if !LargeEnough(sorted[0], area) {
      forall k | 0 <= k < |sorted| ensures !LargeEnough(sorted[k], area) {
        assert sorted[0].area >= sorted[k].area;
      }
    }
  }

  lemma NoContoursNoQuad(height: int, width: int)
    ensures FindDocumentQuad([], height, width).None?
  {
  }

  // ---------------------------------------------------------------------------
  // normalize_document
  // ---------------------------------------------------------------------------

  /** The page after normalisation: unchanged, or warped onto the ordered
      corners of the document outline. */
  datatype Normalized = Unchanged | Warped(corners: seq<Point>)

  /** `normalize_document`: warps to the document quad when one is found and
      otherwise returns the image as it is; it has no error outcome. Quads of
      a length other than four are not produced by the polygon and
      rectangle steps: a minimal rectangle always has four corners. */
  function NormalizeDocument(contours: seq<Contour>, height: int, width: int): (r: Normalized)
    requires forall k :: 0 <= k < |contours| ==> |contours[k].box| == 4
    ensures r.Unchanged? <==> FindDocumentQuad(contours, height, width).None?
    ensures r.Warped? ==> r.corners == OrderPoints(FindDocumentQuad(contours, height, width).value)
  {
    match FindDocumentQuad(contours, height, width)
    case None => Unchanged
    case Some(q) => Warped(OrderPoints(q))
  }
}
