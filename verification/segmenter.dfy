/** The structural segmenter of the document-validation service: connected
    components are filtered, grouped into blocks, merged with contour blocks,
    classified into text or photo regions, and the regions are grouped into
    text blocks and photo groups. Pixel data, OpenCV outputs, region density
    and texture are inputs. */
module Segmenter {
  import opened Common
  import opened Boxes
  import Grouping

  // ---------------------------------------------------------------------------
  // Component filtering
  // ---------------------------------------------------------------------------

  /** One connected component: its box, pixel area and box size. */
  datatype Component = Component(bbox: PixelBox, area: int, width: int, height: int)

  const MinComponentArea := 40
  const MinComponentSide := 5
  const MaxComponentShare: real := 0.95

  /** The component is large enough in area and on both sides, and does not
      cover more than 95% of the image. */
  predicate KeepComponent(c: Component, shape: Shape)
  {
    && c.area >= MinComponentArea
    && c.width >= MinComponentSide && c.height >= MinComponentSide
    && (c.area as real) <= ((shape.w * shape.h) as real) * MaxComponentShare
  }

  /** `filter_components`: drops small, thin and image-sized components. */
  function FilterComponents(cs: seq<Component>, shape: Shape): (r: seq<Component>)
    ensures |r| <= |cs|
    ensures forall i :: 0 <= i < |r| ==> KeepComponent(r[i], shape)
    ensures forall c :: c in r <==> c in cs && KeepComponent(c, shape)
  {
    if |cs| == 0 then []
    else
      var rest := FilterComponents(cs[..|cs| - 1], shape);
      var c := cs[|cs| - 1];
      assert forall d :: d in cs <==> d in cs[..|cs| - 1] || d == c;
      if c.area < MinComponentArea then rest
      else if c.width < MinComponentSide || c.height < MinComponentSide then rest
      else if (c.area as real) > ((shape.w * shape.h) as real) * MaxComponentShare then rest
      else rest + [c]
  }

  // ---------------------------------------------------------------------------
  // Blocks
  // ---------------------------------------------------------------------------

  /** A block: its box and the components grouped into it (empty for a block
      that comes from a contour). */
  datatype Block = Block(bbox: PixelBox, components: seq<Component>)

  const BlockJoinDistance := 10

  function ComponentBoxes(cs: seq<Component>): (r: seq<PixelBox>)
    ensures |r| == |cs|
    ensures forall i :: 0 <= i < |cs| ==> r[i] == cs[i].bbox
  {
    if |cs| == 0 then [] else ComponentBoxes(cs[..|cs| - 1]) + [cs[|cs| - 1].bbox]
  }

  /** A component joins a block when its gap to the block's box is below the
      distance on both axes. */
  predicate NearBlock(members: seq<Component>, c: Component, maxDistance: int)
  {
    && |members| > 0
    && var b := PixelHull(ComponentBoxes(members));
    && GapX(c.bbox, b) < maxDistance
    && GapY(c.bbox, b) < maxDistance
  }

  function Members(blocks: seq<Block>): (r: seq<seq<Component>>)
    ensures |r| == |blocks|
    ensures forall i :: 0 <= i < |blocks| ==> r[i] == blocks[i].components
  {
    seq(|blocks|, i requires 0 <= i < |blocks| => blocks[i].components)
  }

  /** `group_components`: components in order, each joining the first block
      within `maxDistance` on both axes, else opening a new block. Every
      component is in exactly one block, no block is empty, and each block's
      box is the smallest box enclosing its components. */
  function GroupComponents(cs: seq<Component>, maxDistance: int): (r: seq<Block>)
    ensures |r| <= |cs|
    ensures multiset(Grouping.Flatten(Members(r))) == multiset(cs)
    ensures forall i :: 0 <= i < |r| ==>
      |r[i].components| > 0 && r[i].bbox == PixelHull(ComponentBoxes(r[i].components))
  {
    var near := (g: seq<Component>, c: Component) => NearBlock(g, c, maxDistance);
    Grouping.GroupAllPartitions(cs, near);
    BlocksOf(Grouping.GroupAll(cs, near))
  }

  /** One block per member list, boxed by the hull of its components. */
  function BlocksOf(gs: seq<seq<Component>>): (r: seq<Block>)
    requires forall i :: 0 <= i < |gs| ==> |gs[i]| > 0
    ensures Members(r) == gs
    ensures forall i :: 0 <= i < |r| ==> r[i].bbox == PixelHull(ComponentBoxes(r[i].components))
  {
    var r := seq(|gs|, i requires 0 <= i < |gs| => Block(PixelHull(ComponentBoxes(gs[i])), gs[i]));
    assert Members(r) == gs;
    r
  }

  /** The block box of the source grows exactly as the hull: adding a
      component to a block turns its box into the union of the old box and
      the component's box. */
  lemma JoinGrowsBlockBox(members: seq<Component>, c: Component)
    requires |members| > 0
    ensures PixelHull(ComponentBoxes(members + [c]))
         == PixelUnion(PixelHull(ComponentBoxes(members)), c.bbox)
  {
    assert ComponentBoxes(members + [c]) == ComponentBoxes(members) + [c.bbox];
    PixelHullAppend(ComponentBoxes(members), c.bbox);
  }

  const MinContourArea: real := 600.0

  /** `contour_blocks`: the boxes of the contours whose area is at least 600. */
  function ContourBlocks(contours: seq<(PixelBox, real)>): (r: seq<PixelBox>)
    ensures |r| <= |contours|
    ensures forall b :: b in r ==> exists i :: 0 <= i < |contours| && contours[i].0 == b && contours[i].1 >= MinContourArea
    ensures forall i :: 0 <= i < |contours| && contours[i].1 >= MinContourArea ==> contours[i].0 in r
  {
    if |contours| == 0 then []
    else
      var rest := ContourBlocks(contours[..|contours| - 1]);
      var last := contours[|contours| - 1];
      assert forall i :: 0 <= i < |contours| - 1 ==> contours[..|contours| - 1][i] == contours[i];
      if last.1 < MinContourArea then rest else rest + [last.0]
  }

  predicate EnclosedByAny(blocks: seq<Block>, b: PixelBox)
  {
    exists k :: 0 <= k < |blocks| && PixelEncloses(blocks[k].bbox, b)
  }

  /** `merge_blocks`: the component blocks are kept in order; each contour box
      is then appended as an empty block unless a block already in the list
      (including one appended before it) encloses it. */
  function MergeBlocks(cc: seq<Block>, contour: seq<PixelBox>): (r: seq<Block>)
    ensures |cc| <= |r| <= |cc| + |contour|
    ensures r[..|cc|] == cc
    ensures forall i :: |cc| <= i < |r| ==> r[i].components == [] && r[i].bbox in contour
    ensures forall i, k :: |cc| <= i < |r| && 0 <= k < i ==> !PixelEncloses(r[k].bbox, r[i].bbox)
    ensures forall j :: 0 <= j < |contour| ==> EnclosedByAny(r, contour[j])
  {
    if |contour| == 0 then cc
    else
      var m := MergeBlocks(cc, contour[..|contour| - 1]);
      var cb := contour[|contour| - 1];
      assert forall j :: 0 <= j < |contour| - 1 ==> contour[..|contour| - 1][j] == contour[j];
      if EnclosedByAny(m, cb) then m
      else
        var r := m + [Block(cb, [])];
        assert PixelEncloses(r[|m|].bbox, cb);
        assert forall j :: 0 <= j < |contour| - 1 ==> EnclosedByAny(r, contour[j]) by {
          forall j | 0 <= j < |contour| - 1
            ensures EnclosedByAny(r, contour[j])
          {
            var k :| 0 <= k < |m| && PixelEncloses(m[k].bbox, contour[j]);
            assert r[k] == m[k];
          }
        }
        r
  }

  // ---------------------------------------------------------------------------
  // Region classification
  // ---------------------------------------------------------------------------

  const PhotoMinAreaShare: real := 0.01
  const PhotoMinDensity: real := 0.6
  const PhotoMinTexture: real := 150.0

  /** `is_candidate_photo_region`: larger than 1% of the image and denser
      than 0.6, both strictly. */
  predicate IsCandidatePhotoRegion(bbox: PixelBox, density: real, shape: Shape)
  {
    (PixelArea(bbox) as real) > ((shape.h * shape.w) as real) * PhotoMinAreaShare
    && density > PhotoMinDensity
  }

  /** Both photo-candidate thresholds are strict: a region at exactly 1% of
      the image, or at exactly density 0.6, is not a candidate. */
  lemma CandidateThresholdsStrict(bbox: PixelBox, density: real, shape: Shape)
    ensures density == PhotoMinDensity ==> !IsCandidatePhotoRegion(bbox, density, shape)
    ensures (PixelArea(bbox) as real) == ((shape.h * shape.w) as real) * PhotoMinAreaShare
            ==> !IsCandidatePhotoRegion(bbox, density, shape)
    ensures (PixelArea(bbox) as real) > ((shape.h * shape.w) as real) * PhotoMinAreaShare && density > PhotoMinDensity
            ==> IsCandidatePhotoRegion(bbox, density, shape)
  {
  }

  datatype RegionKind = Text | Photo
  datatype Position = Upper | Center | Lower
  datatype Region = Region(regionId: nat, bbox: PixelBox, density: real, kind: RegionKind, position: Position)

  /** Vertical position label of a region whose top edge is at `y1` in an
      image of height `h`. */
  function PositionOf(y1: int, h: int): (p: Position)
    ensures p == Upper <==> (y1 as real) < (h as real) * 0.33
    ensures p == Center <==> (h as real) * 0.33 <= (y1 as real) < (h as real) * 0.66
    ensures p == Lower <==> !((y1 as real) < (h as real) * 0.33) && !((y1 as real) < (h as real) * 0.66)
  {
    if (y1 as real) < (h as real) * 0.33 then Upper
    else if (y1 as real) < (h as real) * 0.66 then Center
    else Lower
  }

  /** The block's region of interest `binary[y1:y2, x1:x2]` has no pixel
      (OpenCV reports non-negative coordinates, so numpy's slice is clipped at
      the image border only). */
  predicate RoiEmpty(b: PixelBox, shape: Shape)
  {
    MinInt(b.y2, shape.h) <= b.y1 || MinInt(b.x2, shape.w) <= b.x1
  }

  /** The region built from the block at index `i`. `density` and `texture`
      stand for `np.mean(roi > 0)` and the Laplacian variance of the block. A
      region is a photo iff it is a photo candidate and its texture exceeds
      150; its position comes from its top edge. */
  function RegionOf(i: nat, b: PixelBox, shape: Shape, density: PixelBox -> real, texture: PixelBox -> real): (r: Region)
    ensures r.regionId == i + 1 && r.bbox == b && r.density == density(b)
    ensures r.kind == Photo <==> IsCandidatePhotoRegion(b, density(b), shape) && texture(b) > PhotoMinTexture
    ensures r.position == PositionOf(b.y1, shape.h)
  {
    var kind := if IsCandidatePhotoRegion(b, density(b), shape) && texture(b) > PhotoMinTexture then Photo else Text;
    Region(i + 1, b, density(b), kind, PositionOf(b.y1, shape.h))
  }

  /** `rg` is the region of a block of `blocks` whose region of interest is
      not empty. */
  predicate RegionOfBlock(rg: Region, blocks: seq<Block>, shape: Shape, density: PixelBox -> real, texture: PixelBox -> real)
  {
    && 1 <= rg.regionId <= |blocks|
    && !RoiEmpty(blocks[rg.regionId - 1].bbox, shape)
    && rg == RegionOf(rg.regionId - 1, blocks[rg.regionId - 1].bbox, shape, density, texture)
  }

  predicate HasRegion(r: seq<Region>, id: nat)
  {
    exists k :: 0 <= k < |r| && r[k].regionId == id
  }

  /** The region loop of `segment_image`: one region per block with a
      non-empty region of interest, in block order, numbered by the block's
      position (so numbers skip the empty blocks). */
  function SegmentRegions(blocks: seq<Block>, shape: Shape, density: PixelBox -> real, texture: PixelBox -> real): (r: seq<Region>)
    ensures |r| <= |blocks|
    ensures forall k :: 0 <= k < |r| ==> RegionOfBlock(r[k], blocks, shape, density, texture)
    ensures forall k :: 0 <= k < |r| ==> r[k].regionId <= |blocks|
  {
    if |blocks| == 0 then []
    else
      var n := |blocks| - 1;
      var rest := SegmentRegions(blocks[..n], shape, density, texture);
      assert forall k :: 0 <= k < |rest| ==> RegionOfBlock(rest[k], blocks, shape, density, texture) by {
        forall k | 0 <= k < |rest|
          ensures RegionOfBlock(rest[k], blocks, shape, density, texture)
        {
          assert RegionOfBlock(rest[k], blocks[..n], shape, density, texture);
          assert blocks[..n][rest[k].regionId - 1] == blocks[rest[k].regionId - 1];
        }
      }
      if RoiEmpty(blocks[n].bbox, shape) then rest
      else rest + [RegionOf(n, blocks[n].bbox, shape, density, texture)]
  }

  predicate IncreasingIds(r: seq<Region>)
  {
    forall k, l :: 0 <= k < l < |r| ==> r[k].regionId < r[l].regionId
  }

  /** Regions come out in block order: their numbers strictly increase. */
  lemma {:induction false} SegmentRegionsOrdered(blocks: seq<Block>, shape: Shape, density: PixelBox -> real, texture: PixelBox -> real)
    ensures IncreasingIds(SegmentRegions(blocks, shape, density, texture))
  {
    if |blocks| > 0 {
      var n := |blocks| - 1;
      SegmentRegionsOrdered(blocks[..n], shape, density, texture);
      var rest := SegmentRegions(blocks[..n], shape, density, texture);
      assert forall k :: 0 <= k < |rest| ==> rest[k].regionId <= n;
      if !RoiEmpty(blocks[n].bbox, shape) {
        var r := rest + [RegionOf(n, blocks[n].bbox, shape, density, texture)];
        assert SegmentRegions(blocks, shape, density, texture) == r;
        assert r[|rest|].regionId == n + 1;
        assert forall k :: 0 <= k < |rest| ==> r[k] == rest[k];
      } else {
        assert SegmentRegions(blocks, shape, density, texture) == rest;
      }
    }
  }

  /** No block with a non-empty region of interest is skipped. */
  lemma {:induction false} SegmentRegionsComplete(blocks: seq<Block>, shape: Shape, density: PixelBox -> real, texture: PixelBox -> real)
    ensures forall i :: 0 <= i < |blocks| && !RoiEmpty(blocks[i].bbox, shape) ==>
      HasRegion(SegmentRegions(blocks, shape, density, texture), i + 1)
  {
    if |blocks| > 0 {
      var n := |blocks| - 1;
      var rest := SegmentRegions(blocks[..n], shape, density, texture);
      var r := SegmentRegions(blocks, shape, density, texture);
      SegmentRegionsComplete(blocks[..n], shape, density, texture);
      forall i | 0 <= i < |blocks| && !RoiEmpty(blocks[i].bbox, shape)
        ensures HasRegion(r, i + 1)
      {
        if i < n {
          assert blocks[..n][i] == blocks[i];
          var k :| 0 <= k < |rest| && rest[k].regionId == i + 1;
          assert r[k] == rest[k];
        } else {
          assert r[|rest|].regionId == n + 1;
        }
      }
    }
  }

  // ---------------------------------------------------------------------------
  // Distances and overlaps
  // ---------------------------------------------------------------------------

  /** `bbox_distance`: the sum of the gaps on both axes. */
  function BboxDistance(a: PixelBox, b: PixelBox): (r: int)
    ensures r >= 0
    ensures r == 0 <==> a.x1 <= b.x2 && b.x1 <= a.x2 && a.y1 <= b.y2 && b.y1 <= a.y2
  {
    MaxInt(0, MaxInt(a.x1 - b.x2, b.x1 - a.x2)) + MaxInt(0, MaxInt(a.y1 - b.y2, b.y1 - a.y2))
  }

  lemma BboxDistanceSymmetric(a: PixelBox, b: PixelBox)
    ensures BboxDistance(a, b) == BboxDistance(b, a)
    ensures BboxDistance(a, b) == GapX(a, b) + GapY(a, b)
  {
  }

  /** Shared shape of the two overlap ratios: the overlap of the spans
      `[a1, a2]` and `[b1, b2]` over the shorter span, 0 when the shorter span
      is not positive. */
  function SpanOverlapRatio(a1: int, a2: int, b1: int, b2: int): (r: real)
    ensures 0.0 <= r <= 1.0
    ensures MinInt(a2 - a1, b2 - b1) <= 0 ==> r == 0.0
    ensures MinInt(a2, b2) <= MaxInt(a1, b1) ==> r == 0.0
  {
    var overlap := MaxInt(0, MinInt(a2, b2) - MaxInt(a1, b1));
    var shorter := MinInt(a2 - a1, b2 - b1);
    if shorter > 0 then
      DivAtMostOne(overlap as real, shorter as real);
      (overlap as real) / (shorter as real)
    else 0.0
  }

  /** `vertical_overlap_ratio`. */
  function VerticalOverlapRatio(a: PixelBox, b: PixelBox): (r: real)
    ensures 0.0 <= r <= 1.0
    ensures MinInt(a.y2 - a.y1, b.y2 - b.y1) <= 0 ==> r == 0.0
  {
    SpanOverlapRatio(a.y1, a.y2, b.y1, b.y2)
  }

  /** `horizontal_overlap_ratio`. */
  function HorizontalOverlapRatio(a: PixelBox, b: PixelBox): (r: real)
    ensures 0.0 <= r <= 1.0
    ensures MinInt(a.x2 - a.x1, b.x2 - b.x1) <= 0 ==> r == 0.0
  {
    SpanOverlapRatio(a.x1, a.x2, b.x1, b.x2)
  }

  lemma OverlapRatiosSymmetric(a: PixelBox, b: PixelBox)
    ensures VerticalOverlapRatio(a, b) == VerticalOverlapRatio(b, a)
    ensures HorizontalOverlapRatio(a, b) == HorizontalOverlapRatio(b, a)
  {
  }

  /** A box overlaps itself fully along each axis on which it has extent. */
  lemma OverlapRatioWithItself(a: PixelBox)
    requires a.y2 > a.y1 && a.x2 > a.x1
    ensures VerticalOverlapRatio(a, a) == 1.0
    ensures HorizontalOverlapRatio(a, a) == 1.0
  {
  }

  // ---------------------------------------------------------------------------
  // Region grouping
  // ---------------------------------------------------------------------------

  datatype GroupKind = TextBlock | PhotoGroup
  datatype RegionGroup = RegionGroup(groupId: nat, kind: GroupKind, regions: seq<Region>, bbox: PixelBox)

  const RegionJoinDistance := 15
  const MinVerticalOverlap: real := 0.2
  const MinHorizontalOverlap: real := 0.4

  function RegionBoxes(rs: seq<Region>): (r: seq<PixelBox>)
    ensures |r| == |rs|
    ensures forall i :: 0 <= i < |rs| ==> r[i] == rs[i].bbox
  {
    if |rs| == 0 then [] else RegionBoxes(rs[..|rs| - 1]) + [rs[|rs| - 1].bbox]
  }

  /** The region is closer than `maxDistance` to the group box and overlaps
      it by more than 20% vertically or more than 40% horizontally. */
  predicate CloseAndAligned(members: seq<Region>, region: Region, maxDistance: int)
    requires |members| > 0
  {
    var b := PixelHull(RegionBoxes(members));
    && BboxDistance(region.bbox, b) < maxDistance
    && (VerticalOverlapRatio(region.bbox, b) > MinVerticalOverlap
        || HorizontalOverlapRatio(region.bbox, b) > MinHorizontalOverlap)
  }

  /** A text region joins a text-block group it is close to and aligned with.
      Photo regions never join, and photo groups (those opened by a photo)
      never accept. */
  predicate JoinsGroup(members: seq<Region>, region: Region, maxDistance: int)
  {
    && region.kind == Text
    && |members| > 0 && members[0].kind == Text
    && CloseAndAligned(members, region, maxDistance)
  }

  predicate WellTyped(g: seq<Region>)
  {
    |g| > 0
    && (g[0].kind == Photo ==> |g| == 1)
    && (g[0].kind == Text ==> forall k :: 0 <= k < |g| ==> g[k].kind == Text)
  }

  /** The acceptance rule of `group_regions` as a function value. */
  function JoinRule(maxDistance: int): (seq<Region>, Region) -> bool
  {
    (g: seq<Region>, x: Region) => JoinsGroup(g, x, maxDistance)
  }

  lemma {:induction false} GroupedRegionsWellTyped(regions: seq<Region>, maxDistance: int)
    ensures forall g :: g in Grouping.GroupAll(regions, JoinRule(maxDistance)) ==> WellTyped(g)
  {
    var joins := JoinRule(maxDistance);
    var inv := (g: seq<Region>) => WellTyped(g);
    forall g, x | inv(g) && joins(g, x)
      ensures inv(g + [x])
    {
      assert JoinsGroup(g, x, maxDistance);
      assert (g + [x])[0] == g[0];
    }
    Grouping.GroupAllInvariant(regions, joins, inv);
  }

  function RegionMembers(groups: seq<RegionGroup>): (r: seq<seq<Region>>)
    ensures |r| == |groups|
    ensures forall i :: 0 <= i < |groups| ==> r[i] == groups[i].regions
  {
    seq(|groups|, i requires 0 <= i < |groups| => groups[i].regions)
  }

  /** The record of the group at index `i` with members `g`: numbered `i + 1`,
      typed by the region that opened it, boxed by the hull of its regions. */
  function MakeRegionGroup(i: nat, g: seq<Region>): (r: RegionGroup)
    requires WellTyped(g)
    ensures r.groupId == i + 1 && r.regions == g
    ensures |r.regions| > 0 && r.bbox == PixelHull(RegionBoxes(r.regions))
    ensures r.kind == PhotoGroup ==> |r.regions| == 1 && r.regions[0].kind == Photo
    ensures r.kind == TextBlock ==> forall k :: 0 <= k < |r.regions| ==> r.regions[k].kind == Text
  {
    RegionGroup(i + 1, if g[0].kind == Photo then PhotoGroup else TextBlock, g, PixelHull(RegionBoxes(g)))
  }

  predicate GoodGroup(i: nat, r: RegionGroup)
  {
    && r.groupId == i + 1
    && |r.regions| > 0 && r.bbox == PixelHull(RegionBoxes(r.regions))
    && (r.kind == PhotoGroup ==> |r.regions| == 1 && r.regions[0].kind == Photo)
    && (r.kind == TextBlock ==> forall k :: 0 <= k < |r.regions| ==> r.regions[k].kind == Text)
  }

  /** The group records built from the member lists, in order. */
  function ToRegionGroups(gs: seq<seq<Region>>): (r: seq<RegionGroup>)
    requires forall i :: 0 <= i < |gs| ==> WellTyped(gs[i])
    ensures RegionMembers(r) == gs
    ensures forall i :: 0 <= i < |r| ==> GoodGroup(i, r[i])
  {
    if |gs| == 0 then []
    else
      var n := |gs| - 1;
      var rest := ToRegionGroups(gs[..n]);
      var r := rest + [MakeRegionGroup(n, gs[n])];
      assert RegionMembers(r) == RegionMembers(rest) + [gs[n]];
      assert gs[..n] + [gs[n]] == gs;
      r
  }

  /** `group_regions`: groups are numbered 1..n in creation order; every
      region is in exactly one group; a photo group holds exactly one photo
      region; a text block holds only text regions; each group's box is the
      smallest box enclosing its regions. */
  function GroupRegions(regions: seq<Region>, maxDistance: int): (r: seq<RegionGroup>)
    ensures |r| <= |regions|
    ensures multiset(Grouping.Flatten(RegionMembers(r))) == multiset(regions)
    ensures forall i :: 0 <= i < |r| ==> r[i].groupId == i + 1
    ensures forall i :: 0 <= i < |r| ==>
      |r[i].regions| > 0 && r[i].bbox == PixelHull(RegionBoxes(r[i].regions))
    ensures forall i :: 0 <= i < |r| && r[i].kind == PhotoGroup ==>
      |r[i].regions| == 1 && r[i].regions[0].kind == Photo
    ensures forall i :: 0 <= i < |r| && r[i].kind == TextBlock ==>
      forall k :: 0 <= k < |r[i].regions| ==> r[i].regions[k].kind == Text
  {
    var gs := Grouping.GroupAll(regions, JoinRule(maxDistance));
    GroupedRegionsIndexed(regions, maxDistance);
    var r := ToRegionGroups(gs);
    GoodGroupsUnfold(r);
    r
  }

  lemma GroupedRegionsIndexed(regions: seq<Region>, maxDistance: int)
    ensures var gs := Grouping.GroupAll(regions, JoinRule(maxDistance));
      && |gs| <= |regions|
      && multiset(Grouping.Flatten(gs)) == multiset(regions)
      && forall i :: 0 <= i < |gs| ==> WellTyped(gs[i])
  {
    var gs := Grouping.GroupAll(regions, JoinRule(maxDistance));
    Grouping.GroupAllPartitions(regions, JoinRule(maxDistance));
    GroupedRegionsWellTyped(regions, maxDistance);
    assert forall i :: 0 <= i < |gs| ==> gs[i] in gs;
  }

  lemma GoodGroupsUnfold(r: seq<RegionGroup>)
    requires forall i :: 0 <= i < |r| ==> GoodGroup(i, r[i])
    ensures forall i :: 0 <= i < |r| ==> r[i].groupId == i + 1
    ensures forall i :: 0 <= i < |r| ==>
      |r[i].regions| > 0 && r[i].bbox == PixelHull(RegionBoxes(r[i].regions))
    ensures forall i :: 0 <= i < |r| && r[i].kind == PhotoGroup ==>
      |r[i].regions| == 1 && r[i].regions[0].kind == Photo
    ensures forall i :: 0 <= i < |r| && r[i].kind == TextBlock ==>
      forall k :: 0 <= k < |r[i].regions| ==> r[i].regions[k].kind == Text
  {
  }

  /** Grouping never lets a photo region join: each photo region of the input
      is alone in its group. */
  lemma PhotoRegionsStayAlone(regions: seq<Region>, maxDistance: int, p: Region)
    requires p in regions && p.kind == Photo
    ensures exists i :: (0 <= i < |GroupRegions(regions, maxDistance)| &&
      GroupRegions(regions, maxDistance)[i].regions == [p])
  {
    var r := GroupRegions(regions, maxDistance);
    var gs := RegionMembers(r);
    assert p in multiset(regions);
    assert p in multiset(Grouping.Flatten(gs));
    var i := FlattenMember(gs, p);
    assert gs[i] == r[i].regions;
    var k :| 0 <= k < |r[i].regions| && r[i].regions[k] == p;
    assert r[i].regions[k].kind == Photo;
    assert r[i].kind == PhotoGroup;
    assert |r[i].regions| == 1;
    assert r[i].regions == [p];
  }

  lemma {:induction false} FlattenMember<T>(gs: seq<seq<T>>, x: T) returns (i: nat)
    requires x in multiset(Grouping.Flatten(gs))
    ensures i < |gs| && x in gs[i]
  {
    var n := |gs| - 1;
    assert Grouping.Flatten(gs) == Grouping.Flatten(gs[..n]) + gs[n];
    if x in gs[n] {
      i := n;
    } else {
      i := FlattenMember(gs[..n], x);
    }
  }

  // ---------------------------------------------------------------------------
  // The whole segmentation of one image
  // ---------------------------------------------------------------------------

  predicate IsBlockBox(blocks: seq<Block>, b: PixelBox)
  {
    exists i :: 0 <= i < |blocks| && blocks[i].bbox == b
  }

  /** `segment_image` after OpenCV: filter the components, group them into
      blocks, merge the blocks with the contour blocks, and build the regions.
      Every region's box is the box of a component block or a contour box,
      and its region of interest is not empty. */
  function SegmentImage(components: seq<Component>, contours: seq<(PixelBox, real)>, shape: Shape,
                        density: PixelBox -> real, texture: PixelBox -> real): (r: seq<Region>)
    ensures forall k :: 0 <= k < |r| ==> !RoiEmpty(r[k].bbox, shape)
    ensures forall k :: 0 <= k < |r| ==>
      IsBlockBox(GroupComponents(FilterComponents(components, shape), BlockJoinDistance), r[k].bbox)
      || r[k].bbox in ContourBlocks(contours)
  {
    var cc := GroupComponents(FilterComponents(components, shape), BlockJoinDistance);
    var blocks := MergeBlocks(cc, ContourBlocks(contours));
    var r := SegmentRegions(blocks, shape, density, texture);
    SegmentImageBoxes(cc, ContourBlocks(contours), r, shape, density, texture);
    r
  }

  lemma SegmentImageBoxes(cc: seq<Block>, contour: seq<PixelBox>, r: seq<Region>, shape: Shape,
                          density: PixelBox -> real, texture: PixelBox -> real)
    requires r == SegmentRegions(MergeBlocks(cc, contour), shape, density, texture)
    ensures forall k :: 0 <= k < |r| ==> !RoiEmpty(r[k].bbox, shape)
    ensures forall k :: 0 <= k < |r| ==> IsBlockBox(cc, r[k].bbox) || r[k].bbox in contour
  {
    var blocks := MergeBlocks(cc, contour);
    forall k | 0 <= k < |r|
      ensures !RoiEmpty(r[k].bbox, shape)
      ensures IsBlockBox(cc, r[k].bbox) || r[k].bbox in contour
    {
      assert RegionOfBlock(r[k], blocks, shape, density, texture);
      var i := r[k].regionId - 1;
      assert r[k].bbox == blocks[i].bbox;
      if i < |cc| {
        assert blocks[..|cc|][i] == cc[i];
      }
    }
  }
}
