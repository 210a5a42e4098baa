/** The layout-building helpers: turning the detected groups of a reference
    image into a side template (field name to normalised box), and clamping
    a pixel box to an image before cropping it. Python's `round(v, 2)` on
    floats is an abstract rounding function `rnd` here; `NearestHundredth`
    states what is assumed of it where a lemma needs it. */
module LayoutService {
  import opened Common
  import opened Boxes
  import Segmenter
  import SemanticAssignment

  type NormBox = SemanticAssignment.NormBox

  // ---------------------------------------------------------------------------
  // crop_region
  // ---------------------------------------------------------------------------

  /** `crop_region`: x1 is clamped to [0, w-1], x2 to [0, w] (likewise y);
      an empty window gives none. The window is returned instead of the
      pixels. */
  function CropRegion(shape: Shape, b: PixelBox): (r: Option<PixelBox>)
    ensures r.Some? ==> 0 <= r.value.x1 < r.value.x2 <= MaxInt(shape.w, 0) && 0 <= r.value.y1 < r.value.y2 <= MaxInt(shape.h, 0)
    ensures r.Some? ==> (b.x1 < shape.w ==> r.value.x1 >= b.x1) && (b.x2 >= 0 ==> r.value.x2 <= b.x2)
    ensures r.Some? ==> (b.y1 < shape.h ==> r.value.y1 >= b.y1) && (b.y2 >= 0 ==> r.value.y2 <= b.y2)
  {
    var x1 := MaxInt(0, MinInt(b.x1, shape.w - 1));
    var x2 := MaxInt(0, MinInt(b.x2, shape.w));
    var y1 := MaxInt(0, MinInt(b.y1, shape.h - 1));
    var y2 := MaxInt(0, MinInt(b.y2, shape.h));
    if x2 <= x1 || y2 <= y1 then None else Some(PixelBox(x1, y1, x2, y2))
  }

  /** A non-empty box inside the image is cropped as it is. */
  lemma CropInsideImage(shape: Shape, b: PixelBox)
    requires 0 <= b.x1 < b.x2 <= shape.w && 0 <= b.y1 < b.y2 <= shape.h
    ensures CropRegion(shape, b) == Some(b)
  {
  }

  /** A box with no positive extent on one axis gives no crop, as long as it
      does not start beyond the image on that axis. */
  lemma CropOfEmptyBox(shape: Shape, b: PixelBox)
    requires b.x2 <= b.x1 < shape.w || b.y2 <= b.y1 < shape.h
    ensures CropRegion(shape, b).None?
  {
  }

  /** Because x1 is clamped to w-1 but x2 to w, a box lying wholly to the
      right of the image still yields the one-pixel column at its right
      edge. */
  lemma CropBeyondRightEdge(shape: Shape, b: PixelBox)
    requires shape.w > 0 && 0 <= b.y1 < b.y2 <= shape.h
    requires shape.w <= b.x1 < b.x2
    ensures CropRegion(shape, b) == Some(PixelBox(shape.w - 1, b.y1, shape.w, b.y2))
  {
  }

  // ---------------------------------------------------------------------------
  // inflate_bbox and round_bbox
  // ---------------------------------------------------------------------------

  function Clamp01(x: real): (r: real)
    ensures 0.0 <= r <= 1.0
    ensures 0.0 <= x <= 1.0 ==> r == x
  {
    MaxReal(0.0, MinReal(1.0, x))
  }

  /** `inflate_bbox`: every side moves outwards by `margin` and is clamped
      to [0, 1]; width and height are recomputed from the clamped corners. */
  function InflateBbox(b: NormBox, margin: real): (r: NormBox)
    ensures 0.0 <= r.x1 <= 1.0 && 0.0 <= r.y1 <= 1.0 && 0.0 <= r.x2 <= 1.0 && 0.0 <= r.y2 <= 1.0
    ensures r.width == r.x2 - r.x1 && r.height == r.y2 - r.y1
    ensures margin >= 0.0 && b.x1 <= b.x2 ==> r.x1 <= r.x2
    ensures margin >= 0.0 && b.y1 <= b.y2 ==> r.y1 <= r.y2
  {
    var x1 := Clamp01(b.x1 - margin);
    var y1 := Clamp01(b.y1 - margin);
    var x2 := Clamp01(b.x2 + margin);
    var y2 := Clamp01(b.y2 + margin);
    SemanticAssignment.NormBox(x1, y1, x2, y2, x2 - x1, y2 - y1)
  }

  /** With no margin, a box inside the unit square keeps its corners. */
  lemma InflateWithoutMargin(b: NormBox)
    requires 0.0 <= b.x1 <= 1.0 && 0.0 <= b.y1 <= 1.0 && 0.0 <= b.x2 <= 1.0 && 0.0 <= b.y2 <= 1.0
    ensures var r := InflateBbox(b, 0.0);
      r.x1 == b.x1 && r.y1 == b.y1 && r.x2 == b.x2 && r.y2 == b.y2
  {
  }

  /** With a non-negative margin the inflated box encloses a box inside the
      unit square. */
  lemma InflateEncloses(b: NormBox, margin: real)
    requires margin >= 0.0
    requires 0.0 <= b.x1 && 0.0 <= b.y1 && b.x2 <= 1.0 && b.y2 <= 1.0
    ensures var r := InflateBbox(b, margin);
      r.x1 <= b.x1 && r.y1 <= b.y1 && b.x2 <= r.x2 && b.y2 <= r.y2
  {
  }

  /** `round_bbox`: every key, including width and height, is rounded on its
      own; no key is added or dropped. */
  function RoundBbox(b: NormBox, rnd: real -> real): (r: NormBox)
    ensures NearestHundredth(rnd) ==>
      Near(r.x1, b.x1) && Near(r.y1, b.y1) && Near(r.x2, b.x2) && Near(r.y2, b.y2) && Near(r.width, b.width) && Near(r.height, b.height)
  {
    SemanticAssignment.NormBox(rnd(b.x1), rnd(b.y1), rnd(b.x2), rnd(b.y2), rnd(b.width), rnd(b.height))
  }

  /** `v` has at most two decimals. */
  predicate IsHundredth(v: real)
  {
    (v * 100.0).Floor as real == v * 100.0
  }

  /** `v` is within half a hundredth of `x`. */
  predicate Near(v: real, x: real)
  {
    -0.005 <= v - x <= 0.005
  }

  /** What is assumed of Python's `round(x, 2)`: the result has two
      decimals and is within half a hundredth of its argument. */
  ghost predicate NearestHundredth(rnd: real -> real)
  {
    forall x :: IsHundredth(rnd(x)) && Near(rnd(x), x)
  }

  /** Rounding a value that already has two decimals leaves it alone. */
  lemma RoundKeepsHundredth(rnd: real -> real, v: real)
    requires NearestHundredth(rnd) && IsHundredth(v)
    ensures rnd(v) == v
  {
    var a, b := (rnd(v) * 100.0).Floor, (v * 100.0).Floor;
    assert Near(rnd(v), v);
    assert (a - b) as real == (rnd(v) - v) * 100.0;
  }

  /** Rounding twice is rounding once. */
  lemma RoundBboxIdempotent(rnd: real -> real, b: NormBox)
    requires NearestHundredth(rnd)
    ensures RoundBbox(RoundBbox(b, rnd), rnd) == RoundBbox(b, rnd)
  {
    RoundKeepsHundredth(rnd, rnd(b.x1));
    RoundKeepsHundredth(rnd, rnd(b.y1));
    RoundKeepsHundredth(rnd, rnd(b.x2));
    RoundKeepsHundredth(rnd, rnd(b.y2));
    RoundKeepsHundredth(rnd, rnd(b.width));
    RoundKeepsHundredth(rnd, rnd(b.height));
  }

  /** The only hundredth within half a hundredth of `x` when `x` lies
      strictly between `k/100 - 0.005` and `k/100 + 0.005`. */
  lemma RoundsTo(rnd: real -> real, x: real, k: int)
    requires NearestHundredth(rnd)
    requires (k as real) / 100.0 - 0.005 < x < (k as real) / 100.0 + 0.005
    ensures rnd(x) == (k as real) / 100.0
  {
    var a := (rnd(x) * 100.0).Floor;
    assert Near(rnd(x), x) && IsHundredth(rnd(x));
    assert (a - k) as real == (rnd(x) - (k as real) / 100.0) * 100.0;
  }

  /** The rounded width need not be the difference of the rounded corners:
      for x1 = 0.004 and x2 = 0.016 the width 0.012 rounds to 0.01 while the
      corners round to 0.0 and 0.02. */
  lemma RoundedWidthMayDiffer(rnd: real -> real)
    requires NearestHundredth(rnd)
    ensures var r := RoundBbox(SemanticAssignment.NormBox(0.004, 0.0, 0.016, 0.0, 0.012, 0.0), rnd);
      r.width == 0.01 && r.x2 - r.x1 == 0.02
  {
    RoundsTo(rnd, 0.004, 0);
    RoundsTo(rnd, 0.016, 2);
    RoundsTo(rnd, 0.012, 1);
  }

  // ---------------------------------------------------------------------------
  // build_side_template
  // ---------------------------------------------------------------------------

  /** A field's group ids in the layout file: one id or a list of ids. */
  datatype GroupIds = OneId(id: int) | IdList(ids: seq<int>)

  function IdsOf(g: GroupIds): (r: seq<int>)
    ensures g.OneId? ==> r == [g.id]
  {
    match g
    case OneId(id) => [id]
    case IdList(ids) => ids
  }

  /** The box of the group with the given id in `groups_by_id`; as the
      dictionary is built in list order, a later group with the same id
      replaces an earlier one. */
  function GroupBox(groups: seq<Segmenter.RegionGroup>, id: int): (r: Option<PixelBox>)
    ensures r.None? <==> forall i :: 0 <= i < |groups| ==> groups[i].groupId != id
    ensures r.Some? ==>
      (exists i :: 0 <= i < |groups| && groups[i].groupId == id && r.value == groups[i].bbox &&
         (forall j :: i < j < |groups| ==> groups[j].groupId != id))
  {
    if |groups| == 0 then None
    else
      var n := |groups| - 1;
      if groups[n].groupId == id then Some(groups[n].bbox)
      else
        var r := GroupBox(groups[..n], id);
        assert forall i :: 0 <= i < n ==> groups[..n][i] == groups[i];
        r
  }

  /** The boxes of the listed ids that name a known group, in list order;
      unknown ids are skipped. */
  function KnownBoxes(groups: seq<Segmenter.RegionGroup>, ids: seq<int>): (r: seq<PixelBox>)
    ensures |r| <= |ids|
    ensures |r| == 0 <==> forall k :: 0 <= k < |ids| ==> GroupBox(groups, ids[k]).None?
  {
    if |ids| == 0 then []
    else
      var rest := KnownBoxes(groups, ids[1..]);
      assert forall k :: 1 <= k < |ids| ==> ids[1..][k - 1] == ids[k];
      match GroupBox(groups, ids[0])
      case Some(b) => [b] + rest
      case None => rest
  }

  /** The known boxes are exactly the boxes of the listed ids that name a
      group. */
  lemma {:induction false} KnownBoxesMembers(groups: seq<Segmenter.RegionGroup>, ids: seq<int>, b: PixelBox)
    ensures b in KnownBoxes(groups, ids) <==> exists k :: 0 <= k < |ids| && GroupBox(groups, ids[k]) == Some(b)
  {
    if |ids| > 0 {
      KnownBoxesMembers(groups, ids[1..], b);
      assert forall k :: 1 <= k < |ids| ==> ids[1..][k - 1] == ids[k];
      if exists k :: 0 <= k < |ids| && GroupBox(groups, ids[k]) == Some(b) {
        var k :| 0 <= k < |ids| && GroupBox(groups, ids[k]) == Some(b);
        if k > 0 {
          assert ids[1..][k - 1] == ids[k];
        }
      }
    }
  }

  /** One template box: merge in pixels, normalise, inflate, round. */
  function FieldBox(boxes: seq<PixelBox>, shape: Shape, margin: real, rnd: real -> real): NormBox
    requires |boxes| > 0 && shape.h != 0 && shape.w != 0
  {
    RoundBbox(InflateBbox(SemanticAssignment.NormalizeBbox(PixelHull(boxes), shape), margin), rnd)
  }

  /** The field has at least one known group. */
  predicate Kept(groups: seq<Segmenter.RegionGroup>, entry: (string, GroupIds))
  {
    |KnownBoxes(groups, IdsOf(entry.1))| > 0
  }

  /** `build_side_template`: one entry per layout field with a known group,
      in layout order; fields whose ids are all unknown are omitted. */
  function BuildSideTemplate(groups: seq<Segmenter.RegionGroup>, shape: Shape, layout: seq<(string, GroupIds)>,
                             margin: real, rnd: real -> real): (r: seq<(string, NormBox)>)
    requires shape.h != 0 && shape.w != 0
    ensures var kept := KeptFields(groups, layout);
      |r| == |kept| && forall k :: 0 <= k < |r| ==> r[k] == Entry(groups, shape, kept[k], margin, rnd)
  {
    if |layout| == 0 then []
    else
      var n := |layout| - 1;
      var rest := BuildSideTemplate(groups, shape, layout[..n], margin, rnd);
      if Kept(groups, layout[n]) then rest + [Entry(groups, shape, layout[n], margin, rnd)]
      else rest
  }

  /** The layout fields with at least one known group, in layout order. */
  function KeptFields(groups: seq<Segmenter.RegionGroup>, layout: seq<(string, GroupIds)>): (r: seq<(string, GroupIds)>)
    ensures forall x :: x in r <==> x in layout && Kept(groups, x)
  {
    if |layout| == 0 then []
    else
      var n := |layout| - 1;
      assert layout == layout[..n] + [layout[n]];
      KeptFields(groups, layout[..n]) + (if Kept(groups, layout[n]) then [layout[n]] else [])
  }

  /** The template entry built for one layout field. */
  function Entry(groups: seq<Segmenter.RegionGroup>, shape: Shape, field: (string, GroupIds),
                 margin: real, rnd: real -> real): (string, NormBox)
    requires shape.h != 0 && shape.w != 0 && Kept(groups, field)
  {
    (field.0, FieldBox(KnownBoxes(groups, IdsOf(field.1)), shape, margin, rnd))
  }

  /** A field whose ids are all unknown adds nothing to the template. */
  lemma UnknownFieldOmitted(groups: seq<Segmenter.RegionGroup>, shape: Shape, layout: seq<(string, GroupIds)>,
                            field: (string, GroupIds), margin: real, rnd: real -> real)
    requires shape.h != 0 && shape.w != 0
    requires forall k :: 0 <= k < |IdsOf(field.1)| ==> GroupBox(groups, IdsOf(field.1)[k]).None?
    ensures BuildSideTemplate(groups, shape, layout + [field], margin, rnd) == BuildSideTemplate(groups, shape, layout, margin, rnd)
  {
    assert (layout + [field])[..|layout|] == layout;
  }

  /** A single id is treated as a one-element list. */
  lemma SingleIdIsList(groups: seq<Segmenter.RegionGroup>, shape: Shape, field: string, id: int, margin: real, rnd: real -> real)
    requires shape.h != 0 && shape.w != 0
    ensures BuildSideTemplate(groups, shape, [(field, OneId(id))], margin, rnd)
         == BuildSideTemplate(groups, shape, [(field, IdList([id]))], margin, rnd)
  {
  }

  /** Before rounding, a template box encloses the normalised box of every
      group it was built from, for groups inside an image of positive size
      and a non-negative margin. */
  lemma {:induction false} TemplateCoversGroups(boxes: seq<PixelBox>, shape: Shape, margin: real, k: nat)
    requires |boxes| > 0 && shape.h > 0 && shape.w > 0 && margin >= 0.0 && k < |boxes|
    requires forall i :: 0 <= i < |boxes| ==> 0 <= boxes[i].x1 && 0 <= boxes[i].y1 && boxes[i].x2 <= shape.w && boxes[i].y2 <= shape.h
    ensures var inflated := InflateBbox(SemanticAssignment.NormalizeBbox(PixelHull(boxes), shape), margin);
            var own := SemanticAssignment.NormalizeBbox(boxes[k], shape);
      inflated.x1 <= own.x1 && inflated.y1 <= own.y1 && own.x2 <= inflated.x2 && own.y2 <= inflated.y2
  {
    var hull := PixelHull(boxes);
    PixelHullTight(boxes);
    var a :| 0 <= a < |boxes| && hull.x1 == boxes[a].x1;
    var b :| 0 <= b < |boxes| && hull.y1 == boxes[b].y1;
    var c :| 0 <= c < |boxes| && hull.x2 == boxes[c].x2;
    var d :| 0 <= d < |boxes| && hull.y2 == boxes[d].y2;
    var n := SemanticAssignment.NormalizeBbox(hull, shape);
    var own := SemanticAssignment.NormalizeBbox(boxes[k], shape);
    ScaledBounds(hull.x1, hull.x2, shape.w);
    ScaledBounds(hull.y1, hull.y2, shape.h);
    InflateEncloses(n, margin);
    ScaledMonotone(hull.x1, boxes[k].x1, shape.w);
    ScaledMonotone(hull.y1, boxes[k].y1, shape.h);
    ScaledMonotone(boxes[k].x2, hull.x2, shape.w);
    ScaledMonotone(boxes[k].y2, hull.y2, shape.h);
  }

  lemma ScaledBounds(lo: int, hi: int, size: int)
    requires size > 0 && 0 <= lo && hi <= size
    ensures 0.0 <= lo as real / size as real && hi as real / size as real <= 1.0
  {
  }

  lemma ScaledMonotone(a: int, b: int, size: int)
    requires size > 0 && a <= b
    ensures a as real / size as real <= b as real / size as real
  {
  }
}
