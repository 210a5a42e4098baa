/** Structural validation of a document against its layout: detected groups
    are normalised to the image size, assigned to the template fields they
    overlap, merged per field, scored against the field box (IoU, coverage,
    spill), and the field scores are combined into a page score and a
    document score. Layout files are an input (a map from document id to
    layout). */
module SemanticAssignment {
  import opened Common
  import opened Boxes
  import Segmenter

  // ---------------------------------------------------------------------------
  // Normalisation
  // ---------------------------------------------------------------------------

  /** The dictionary `normalize_bbox` returns. */
  datatype NormBox = NormBox(x1: real, y1: real, x2: real, y2: real, width: real, height: real)

  function Corners(n: NormBox): Box { Box(n.x1, n.y1, n.x2, n.y2) }

  function ToReal(b: PixelBox): Box { Box(b.x1 as real, b.y1 as real, b.x2 as real, b.y2 as real) }

  /** `normalize_bbox`: x coordinates divided by the width, y coordinates by
      the height, with the shape given as (height, width). A zero dimension
      would raise ZeroDivisionError and is excluded. */
  function NormalizeBbox(b: PixelBox, shape: Shape): (r: NormBox)
    requires shape.h != 0 && shape.w != 0
    ensures r.x1 * (shape.w as real) == b.x1 as real && r.x2 * (shape.w as real) == b.x2 as real
    ensures r.y1 * (shape.h as real) == b.y1 as real && r.y2 * (shape.h as real) == b.y2 as real
    ensures r.width == r.x2 - r.x1 && r.height == r.y2 - r.y1
  {
    var w, h := shape.w as real, shape.h as real;
    NormBox(b.x1 as real / w, b.y1 as real / h, b.x2 as real / w, b.y2 as real / h,
            (b.x2 - b.x1) as real / w, (b.y2 - b.y1) as real / h)
  }

  /** Scales a normalised box back to pixels. */
  function Denormalize(n: Box, shape: Shape): Box
  {
    Box(n.x1 * shape.w as real, n.y1 * shape.h as real, n.x2 * shape.w as real, n.y2 * shape.h as real)
  }

  /** Normalising and scaling back by the same shape gives the pixel box
      back exactly (over the reals). */
  lemma NormalizeRoundTrip(b: PixelBox, shape: Shape)
    requires shape.h != 0 && shape.w != 0
    ensures Denormalize(Corners(NormalizeBbox(b, shape)), shape) == ToReal(b)
  {
  }

  /** A well-formed pixel box in an image of positive size normalises to a
      well-formed box. */
  lemma NormalizeKeepsWellFormed(b: PixelBox, shape: Shape)
    requires shape.h > 0 && shape.w > 0 && PixelWellFormed(b)
    ensures WellFormed(Corners(NormalizeBbox(b, shape)))
  {
    var n := NormalizeBbox(b, shape);
    assert n.width * (shape.w as real) == (b.x2 - b.x1) as real;
    assert n.height * (shape.h as real) == (b.y2 - b.y1) as real;
  }

  /** A detected group with its normalised box (`normalize_groups`). */
  datatype NormalizedGroup = NormalizedGroup(group: Segmenter.RegionGroup, normBox: Box)

  function NormalizeGroups(groups: seq<Segmenter.RegionGroup>, shape: Shape): (r: seq<NormalizedGroup>)
    requires shape.h != 0 && shape.w != 0
    ensures |r| == |groups|
    ensures forall i :: 0 <= i < |r| ==>
      r[i].group == groups[i] && r[i].normBox == Corners(NormalizeBbox(groups[i].bbox, shape))
  {
    seq(|groups|, i requires 0 <= i < |groups| => NormalizedGroup(groups[i], Corners(NormalizeBbox(groups[i].bbox, shape))))
  }

  // ---------------------------------------------------------------------------
  // Overlap metrics
  // ---------------------------------------------------------------------------

  lemma OneMinusRatio(a: real, i: real)
    requires a != 0.0
    ensures (a - i) / a == 1.0 - i / a
  {
    var q, p := (a - i) / a, i / a;
    assert q * a == a - i;
    assert p * a == i;
    assert (1.0 - p) * a == a - i;
    var d := q - (1.0 - p);
    assert d * a == 0.0;
    assert d == d * a / a;
  }

  /** The ratio of an intersection to a well-formed box's area is in [0, 1]. */
  lemma InterRatioBounds(a: Box, b: Box)
    requires Area(a) > 0.0
    ensures WellFormed(a) ==> 0.0 <= InterArea(a, b) / Area(a) <= 1.0
  {
    if WellFormed(a) {
      InterAreaAtMostArea(a, b);
      DivAtMostOne(InterArea(a, b), Area(a));
    }
  }

  /** `overlap_ratio`: intersection area over the input box's area; 0 without
      a positive-area intersection or for a non-positive input area. */
  function OverlapRatio(input: Box, layout: Box): (r: real)
    ensures !Intersect(input, layout) ==> r == 0.0
    ensures Area(input) <= 0.0 ==> r == 0.0
    ensures WellFormed(input) ==> 0.0 <= r <= 1.0
  {
    if !Intersect(input, layout) then 0.0
    else
      var inter := InterArea(input, layout);
      var inputArea := Area(input);
      if inputArea > 0.0 then
        InterRatioBounds(input, layout);
        inter / inputArea
      else 0.0
  }

  /** A positive-area input box inside the layout box overlaps it fully. */
  lemma OverlapOfEnclosed(input: Box, layout: Box)
    requires WellFormed(input) && Area(input) > 0.0
    requires layout.x1 <= input.x1 && layout.y1 <= input.y1 && input.x2 <= layout.x2 && input.y2 <= layout.y2
    ensures OverlapRatio(input, layout) == 1.0
  {
    InterAreaOfEnclosed(input, layout);
  }

  /** `iou`: intersection over union; 0 without a positive-area intersection
      or for a non-positive union. */
  function Iou(a: Box, b: Box): (r: real)
    ensures !Intersect(a, b) ==> r == 0.0
    ensures WellFormed(a) && WellFormed(b) ==> 0.0 <= r <= 1.0
  {
    if !Intersect(a, b) then 0.0
    else
      var inter := InterArea(a, b);
      var union := Area(a) + Area(b) - inter;
      if union > 0.0 then
        IouRatioBounds(a, b);
        inter / union
      else 0.0
  }

  lemma IouRatioBounds(a: Box, b: Box)
    requires Area(a) + Area(b) - InterArea(a, b) > 0.0
    ensures WellFormed(a) && WellFormed(b) ==>
      0.0 <= InterArea(a, b) / (Area(a) + Area(b) - InterArea(a, b)) <= 1.0
  {
    if WellFormed(a) && WellFormed(b) {
      InterAreaAtMostArea(b, a);
      InterAreaSymmetric(a, b);
      InterAreaAtMostArea(a, b);
      DivAtMostOne(InterArea(a, b), Area(a) + Area(b) - InterArea(a, b));
    }
  }

  lemma IouSymmetric(a: Box, b: Box)
    ensures Iou(a, b) == Iou(b, a)
  {
    InterAreaSymmetric(a, b);
    assert Intersect(a, b) == Intersect(b, a);
  }

  /** A box of positive area has IoU 1 with itself. */
  lemma IouWithItself(a: Box)
    requires WellFormed(a) && Area(a) > 0.0
    ensures Iou(a, a) == 1.0
  {
    InterAreaOfEnclosed(a, a);
  }

  /** `coverage`: intersection area over the layout box's area. It is the
      overlap ratio with the roles of the two boxes swapped. */
  function Coverage(input: Box, layout: Box): (r: real)
    ensures r == OverlapRatio(layout, input)
    ensures WellFormed(layout) ==> 0.0 <= r <= 1.0
    ensures !Intersect(input, layout) ==> r == 0.0
  {
    InterAreaSymmetric(input, layout);
    assert Intersect(input, layout) == Intersect(layout, input);
    if !Intersect(input, layout) then 0.0
    else
      var inter := InterArea(input, layout);
      var layoutArea := Area(layout);
      if layoutArea > 0.0 then inter / layoutArea else 0.0
  }

  /** `spill_penalty`: the share of the input box outside the layout box;
      0 for a zero-area input. For a positive-area input it is one minus the
      overlap ratio. */
  function SpillPenalty(input: Box, layout: Box): (r: real)
    ensures Area(input) == 0.0 ==> r == 0.0
    ensures Area(input) > 0.0 ==> r == 1.0 - OverlapRatio(input, layout)
    ensures WellFormed(input) ==> 0.0 <= r <= 1.0
  {
    var inter := if Intersect(input, layout) then InterWidth(input, layout) * InterHeight(input, layout) else 0.0;
    var inputArea := Area(input);
    if inputArea == 0.0 then 0.0
    else
      SpillBounds(input, layout);
      (inputArea - inter) / inputArea
  }

  lemma SpillBounds(input: Box, layout: Box)
    requires Area(input) != 0.0
    ensures Area(input) > 0.0 ==>
      (Area(input) - InterArea(input, layout)) / Area(input) == 1.0 - OverlapRatio(input, layout)
    ensures WellFormed(input) ==> 0.0 <= (Area(input) - InterArea(input, layout)) / Area(input) <= 1.0
  {
    var a, inter := Area(input), InterArea(input, layout);
    if WellFormed(input) {
      MulMonotone(0.0, 0.0, input.x2 - input.x1, input.y2 - input.y1);
      InterAreaAtMostArea(input, layout);
      DivAtMostOne(a - inter, a);
    }
    if a > 0.0 {
      assert OverlapRatio(input, layout) == inter / a;
      OneMinusRatio(a, inter);
    }
  }

  // ---------------------------------------------------------------------------
  // Field assignment and scores
  // ---------------------------------------------------------------------------

  /** One entry of a side template: the field name and its normalised box. */
  datatype Field = Field(name: string, box: Box)

  /** The groups assigned to one field, in group order. */
  datatype Assignment = Assignment(field: string, matched: seq<NormalizedGroup>)

  function Matching(gs: seq<NormalizedGroup>, fieldBox: Box, threshold: real): (r: seq<NormalizedGroup>)
    ensures |r| <= |gs|
    ensures forall g :: g in r <==> g in gs && OverlapRatio(g.normBox, fieldBox) >= threshold
  {
    if |gs| == 0 then []
    else
      var rest := Matching(gs[..|gs| - 1], fieldBox, threshold);
      var g := gs[|gs| - 1];
      assert forall h :: h in gs <==> h in gs[..|gs| - 1] || h == g;
      if OverlapRatio(g.normBox, fieldBox) >= threshold then rest + [g] else rest
  }

  /** `assign_groups_to_layout`: one entry per template field, in template
      order, listing the groups whose normalised box overlaps the field box by
      at least the threshold. */
  function AssignGroupsToLayout(groups: seq<Segmenter.RegionGroup>, shape: Shape, template: seq<Field>, threshold: real): (r: seq<Assignment>)
    requires shape.h != 0 && shape.w != 0
    ensures |r| == |template|
    ensures forall i :: 0 <= i < |r| ==> r[i].field == template[i].name
    ensures forall i, g :: 0 <= i < |r| ==>
      (g in r[i].matched <==> g in NormalizeGroups(groups, shape) && OverlapRatio(g.normBox, template[i].box) >= threshold)
  {
    var normalized := NormalizeGroups(groups, shape);
    seq(|template|, i requires 0 <= i < |template| => Assignment(template[i].name, Matching(normalized, template[i].box, threshold)))
  }

  function NormBoxes(gs: seq<NormalizedGroup>): (r: seq<Box>)
    ensures |r| == |gs|
    ensures forall i :: 0 <= i < |gs| ==> r[i] == gs[i].normBox
  {
    seq(|gs|, i requires 0 <= i < |gs| => gs[i].normBox)
  }

  /** `merge_assigned_groups`: absent iff nothing was assigned, otherwise the
      smallest box enclosing every assigned group's normalised box. */
  function MergeAssignedGroups(matched: seq<NormalizedGroup>): (r: Option<Box>)
    ensures r.None? <==> |matched| == 0
    ensures r.Some? ==> forall i :: 0 <= i < |matched| ==>
      r.value.x1 <= matched[i].normBox.x1 && r.value.y1 <= matched[i].normBox.y1 &&
      r.value.x2 >= matched[i].normBox.x2 && r.value.y2 >= matched[i].normBox.y2
  {
    if |matched| == 0 then None else Some(Hull(NormBoxes(matched)))
  }

  /** The metrics of one field. */
  datatype FieldScore = FieldScore(iou: real, coverage: real, spill: real, present: bool)

  /** `calculate_field_scores`: all metrics 0 and not present when nothing was
      assigned; otherwise the three metrics of the merged box against the
      field box. */
  function CalculateFieldScores(merged: Option<Box>, layout: Box): (r: FieldScore)
    ensures merged.None? ==> r == FieldScore(0.0, 0.0, 0.0, false)
    ensures merged.Some? ==> r.present
    ensures merged.Some? && WellFormed(merged.value) && WellFormed(layout) ==> InRange(r)
  {
    match merged
    case None => FieldScore(0.0, 0.0, 0.0, false)
    case Some(b) => FieldScore(Iou(b, layout), Coverage(b, layout), SpillPenalty(b, layout), true)
  }

  predicate InRange(f: FieldScore)
  {
    0.0 <= f.iou <= 1.0 && 0.0 <= f.coverage <= 1.0 && 0.0 <= f.spill <= 1.0
  }

  // ---------------------------------------------------------------------------
  // Page score
  // ---------------------------------------------------------------------------

  datatype PageValidation = PageValidation(
    finalScore: real, coverageRatio: real, averageIou: real, averageCoverage: real,
    averageSpill: real, totalFields: nat, detectedFields: nat, passes: bool)

  const PassThreshold: real := 0.55

  function Detected(fs: seq<FieldScore>): (r: seq<FieldScore>)
    ensures |r| <= |fs|
    ensures forall i :: 0 <= i < |r| ==> r[i].present && r[i] in fs
    ensures (forall i :: 0 <= i < |fs| ==> !fs[i].present) ==> r == []
  {
    if |fs| == 0 then []
    else
      var rest := Detected(fs[..|fs| - 1]);
      if fs[|fs| - 1].present then rest + [fs[|fs| - 1]] else rest
  }

  function Ious(fs: seq<FieldScore>): seq<real> { seq(|fs|, i requires 0 <= i < |fs| => fs[i].iou) }
  function Coverages(fs: seq<FieldScore>): seq<real> { seq(|fs|, i requires 0 <= i < |fs| => fs[i].coverage) }
  function Spills(fs: seq<FieldScore>): seq<real> { seq(|fs|, i requires 0 <= i < |fs| => fs[i].spill) }

  /** `calculate_final_score`: with no fields everything is 0 and the page
      fails. Otherwise the averages are taken over the detected fields only,
      the coverage ratio is detected over total fields, and
      final = 0.4·ratio + 0.3·iou + 0.2·coverage − 0.1·spill, which passes at
      0.55 or more. */
  function CalculateFinalScore(fields: seq<FieldScore>): (r: PageValidation)
    ensures |fields| == 0 ==> r.finalScore == 0.0 && !r.passes
    ensures r.totalFields == |fields| && r.detectedFields <= r.totalFields
    ensures r.passes <==> r.finalScore >= PassThreshold
    ensures r.finalScore == 0.4 * r.coverageRatio + 0.3 * r.averageIou + 0.2 * r.averageCoverage - 0.1 * r.averageSpill
    ensures |fields| > 0 ==> r.coverageRatio == (r.detectedFields as real) / (|fields| as real)
  {
    if |fields| == 0 then PageValidation(0.0, 0.0, 0.0, 0.0, 0.0, 0, 0, false)
    else
      var detected := Detected(fields);
      var ratio := (|detected| as real) / (|fields| as real);
      var avgIou := Mean(Ious(detected));
      var avgCov := Mean(Coverages(detected));
      var avgSpill := Mean(Spills(detected));
      var score := 0.4 * ratio + 0.3 * avgIou + 0.2 * avgCov - 0.1 * avgSpill;
      PageValidation(score, ratio, avgIou, avgCov, avgSpill, |fields|, |detected|, score >= PassThreshold)
  }

  /** With every metric of every field in [0, 1], the page score lies in
      [−0.1, 0.9]. */
  lemma PageScoreBounds(fields: seq<FieldScore>)
    requires forall i :: 0 <= i < |fields| ==> InRange(fields[i])
    ensures -0.1 <= CalculateFinalScore(fields).finalScore <= 0.9
  {
    if |fields| > 0 {
      var detected := Detected(fields);
      assert forall i :: 0 <= i < |detected| ==> InRange(detected[i]);
      MeanBounds(Ious(detected), 0.0, 1.0);
      MeanBounds(Coverages(detected), 0.0, 1.0);
      MeanBounds(Spills(detected), 0.0, 1.0);
      DivAtMostOne(|detected| as real, |fields| as real);
    }
  }

  /** A page where no field received a group scores exactly 0 and fails. */
  lemma NothingDetectedScoresZero(fields: seq<FieldScore>)
    requires forall i :: 0 <= i < |fields| ==> fields[i] == FieldScore(0.0, 0.0, 0.0, false)
    ensures CalculateFinalScore(fields).finalScore == 0.0
    ensures !CalculateFinalScore(fields).passes
  {
    if |fields| > 0 {
      assert Detected(fields) == [];
    }
  }

  // ---------------------------------------------------------------------------
  // Pages and documents
  // ---------------------------------------------------------------------------

  /** `_process_page`'s result: merged box and metrics per field, in template
      order, plus the page validation. */
  datatype PageResult = PageResult(
    page: nat, side: string, validation: PageValidation,
    merged: seq<(string, Option<Box>)>, fieldScores: seq<FieldScore>,
    assignments: seq<Assignment>, shape: Shape)

  function MergedOf(assignments: seq<Assignment>): (r: seq<(string, Option<Box>)>)
    ensures |r| == |assignments|
    ensures forall i :: 0 <= i < |r| ==> r[i] == (assignments[i].field, MergeAssignedGroups(assignments[i].matched))
  {
    seq(|assignments|, i requires 0 <= i < |assignments| =>
      (assignments[i].field, MergeAssignedGroups(assignments[i].matched)))
  }

  function ScoresOf(merged: seq<(string, Option<Box>)>, template: seq<Field>): (r: seq<FieldScore>)
    requires |merged| == |template|
    ensures |r| == |template|
    ensures forall i :: 0 <= i < |r| ==> r[i] == CalculateFieldScores(merged[i].1, template[i].box)
  {
    seq(|template|, i requires 0 <= i < |template| => CalculateFieldScores(merged[i].1, template[i].box))
  }

  /** `_process_page`: assign, merge, score every field and score the page. */
  function ProcessPage(pageIdx: nat, side: string, groups: seq<Segmenter.RegionGroup>, shape: Shape,
                       template: seq<Field>, threshold: real): (r: PageResult)
    requires shape.h != 0 && shape.w != 0
    ensures r.page == pageIdx && r.side == side && r.shape == shape
    ensures |r.merged| == |template| == |r.fieldScores|
    ensures forall i :: 0 <= i < |template| ==> r.merged[i].0 == template[i].name
    ensures forall i :: 0 <= i < |template| ==>
      (r.merged[i].1.None? <==> forall g :: g in NormalizeGroups(groups, shape) ==> OverlapRatio(g.normBox, template[i].box) < threshold)
    ensures r.validation == CalculateFinalScore(r.fieldScores)
  {
    var assignments := AssignGroupsToLayout(groups, shape, template, threshold);
    var merged := MergedOf(assignments);
    var scores := ScoresOf(merged, template);
    PageResult(pageIdx, side, CalculateFinalScore(scores), merged, scores, assignments, shape)
  }

  /** A page without any detected group scores 0. */
  lemma EmptyPageScoresZero(pageIdx: nat, side: string, shape: Shape, template: seq<Field>, threshold: real)
    requires shape.h != 0 && shape.w != 0
    ensures ProcessPage(pageIdx, side, [], shape, template, threshold).validation.finalScore == 0.0
  {
    var r := ProcessPage(pageIdx, side, [], shape, template, threshold);
    forall i | 0 <= i < |template|
      ensures r.fieldScores[i] == FieldScore(0.0, 0.0, 0.0, false)
    {
      assert r.merged[i].1.None?;
    }
    NothingDetectedScoresZero(r.fieldScores);
  }

  /** With well-formed field boxes and well-formed group boxes in an image of
      positive size, every field metric lies in [0, 1], so the page score
      lies in [−0.1, 0.9]. */
  lemma ProcessPageBounds(pageIdx: nat, side: string, groups: seq<Segmenter.RegionGroup>, shape: Shape,
                          template: seq<Field>, threshold: real)
    requires shape.h > 0 && shape.w > 0
    requires forall i :: 0 <= i < |groups| ==> PixelWellFormed(groups[i].bbox)
    requires forall i :: 0 <= i < |template| ==> WellFormed(template[i].box)
    ensures -0.1 <= ProcessPage(pageIdx, side, groups, shape, template, threshold).validation.finalScore <= 0.9
  {
    var r := ProcessPage(pageIdx, side, groups, shape, template, threshold);
    var assignments := AssignGroupsToLayout(groups, shape, template, threshold);
    forall i | 0 <= i < |template|
      ensures InRange(r.fieldScores[i])
    {
      var m := assignments[i].matched;
      if |m| > 0 {
        forall k | 0 <= k < |m|
          ensures WellFormed(NormBoxes(m)[k])
        {
          assert m[k] in NormalizeGroups(groups, shape);
          var j :| 0 <= j < |groups| && NormalizeGroups(groups, shape)[j] == m[k];
          NormalizeKeepsWellFormed(groups[j].bbox, shape);
        }
        HullWellFormed(NormBoxes(m));
      }
    }
    PageScoreBounds(r.fieldScores);
  }

  /** One page description of a layout: its side name, if given, and fields. */
  datatype SideTemplate = SideTemplate(side: Option<string>, fields: seq<Field>)

  datatype Layout = Layout(documentTypeId: string, templates: seq<SideTemplate>)

  datatype StructureError =
    | LayoutNotFound(documentId: string)
    | NotEnoughPages(expected: nat, received: nat)
    | NoTemplates   // `layout_templates[-1]` on an empty list raises IndexError

  datatype CombinedResult = CombinedResult(
    documentTypeId: string, pages: seq<PageResult>,
    extracted: seq<(string, Option<Box>)>, finalScore: real, pageScores: seq<real>)

  function PageSide(templates: seq<SideTemplate>, pageIdx: nat): string
  {
    if pageIdx < |templates| then templates[pageIdx].side.GetOr("page_" + NatToString(pageIdx))
    else "page_" + NatToString(pageIdx)
  }

  /** The template used for page `pageIdx`: its own, or the last one for
      pages beyond the template count. */
  function TemplateFor(templates: seq<SideTemplate>, pageIdx: nat): (r: SideTemplate)
    requires |templates| > 0
    ensures pageIdx < |templates| ==> r == templates[pageIdx]
    ensures pageIdx >= |templates| ==> r == templates[|templates| - 1]
  {
    if pageIdx < |templates| then templates[pageIdx] else templates[|templates| - 1]
  }

  function ProcessPages(templates: seq<SideTemplate>, allGroups: seq<seq<Segmenter.RegionGroup>>, shapes: seq<Shape>,
                        n: nat, threshold: real): (r: seq<PageResult>)
    requires |templates| > 0
    requires n <= |allGroups| && n <= |shapes|
    requires forall i :: 0 <= i < n ==> shapes[i].h != 0 && shapes[i].w != 0
    ensures |r| == n
    ensures forall i :: 0 <= i < n ==>
      r[i] == ProcessPage(i, PageSide(templates, i), allGroups[i], shapes[i], TemplateFor(templates, i).fields, threshold)
  {
    if n == 0 then []
    else
      var prev := ProcessPages(templates, allGroups, shapes, n - 1, threshold);
      var last := ProcessPage(n - 1, PageSide(templates, n - 1), allGroups[n - 1], shapes[n - 1], TemplateFor(templates, n - 1).fields, threshold);
      SnocIndex(prev, last);
      prev + [last]
  }

  lemma SnocIndex<T>(s: seq<T>, x: T)
    ensures var r := s + [x];
      |r| == |s| + 1 && r[|s|] == x && forall i :: 0 <= i < |s| ==> r[i] == s[i]
  {
  }

  /** The key of a field in the extracted data: `page{i}_{field}` when the
      document has more than one page, the bare field name otherwise. */
  function FieldKey(pageCount: nat, page: nat, field: string): string
  {
    if pageCount > 1 then "page" + NatToString(page) + "_" + field else field
  }

  function ExtractedOf(pages: seq<PageResult>, pageCount: nat): seq<(string, Option<Box>)>
  {
    if |pages| == 0 then []
    else
      var p := pages[|pages| - 1];
      ExtractedOf(pages[..|pages| - 1], pageCount)
        + seq(|p.merged|, k requires 0 <= k < |p.merged| => (FieldKey(pageCount, p.page, p.merged[k].0), p.merged[k].1))
  }

  function PageScores(pages: seq<PageResult>): (r: seq<real>)
    ensures |r| == |pages|
    ensures forall i :: 0 <= i < |pages| ==> r[i] == pages[i].validation.finalScore
  {
    seq(|pages|, i requires 0 <= i < |pages| => pages[i].validation.finalScore)
  }

  /** `_combine_pages_results`: the extracted data of all pages and the mean
      of the page scores (0 with no pages). */
  function CombinePagesResults(pages: seq<PageResult>, layout: Layout): (r: CombinedResult)
    ensures r.pages == pages && r.documentTypeId == layout.documentTypeId
    ensures r.pageScores == PageScores(pages)
    ensures r.finalScore == Mean(r.pageScores)
    ensures |pages| == 0 ==> r.finalScore == 0.0
  {
    CombinedResult(layout.documentTypeId, pages, ExtractedOf(pages, |pages|), Mean(PageScores(pages)), PageScores(pages))
  }

  /** `process_document` without the layout loading: an unknown layout id
      and fewer page group lists than templates raise; pages are the pairs of
      group list and shape (the shorter list decides); pages beyond the
      templates reuse the last template under the side name `page_{i}`. */
  function ProcessDocument(layouts: map<string, Layout>, documentId: string,
                           allGroups: seq<seq<Segmenter.RegionGroup>>, shapes: seq<Shape>,
                           threshold: real): (r: Result<CombinedResult, StructureError>)
    requires forall i :: 0 <= i < |shapes| ==> shapes[i].h != 0 && shapes[i].w != 0
    ensures documentId !in layouts ==> r == Err(LayoutNotFound(documentId))
    ensures documentId in layouts && |allGroups| < |layouts[documentId].templates| ==>
      r == Err(NotEnoughPages(|layouts[documentId].templates|, |allGroups|))
    ensures r.Ok? ==> documentId in layouts && |allGroups| >= |layouts[documentId].templates|
    ensures r.Ok? ==> |r.value.pages| == MinInt(|allGroups|, |shapes|)
    ensures r.Ok? ==> forall i :: 0 <= i < |r.value.pages| ==>
      r.value.pages[i].page == i && r.value.pages[i].side == PageSide(layouts[documentId].templates, i)
    ensures r.Ok? ==> r.value.finalScore == Mean(PageScores(r.value.pages))
  {
    if documentId !in layouts then Err(LayoutNotFound(documentId))
    else
      var layout := layouts[documentId];
      if |allGroups| < |layout.templates| then Err(NotEnoughPages(|layout.templates|, |allGroups|))
      else
        var n := MinInt(|allGroups|, |shapes|);
        if n == 0 then Ok(CombinePagesResults([], layout))
        else if |layout.templates| == 0 then Err(NoTemplates)
        else Ok(CombinePagesResults(ProcessPages(layout.templates, allGroups, shapes, n, threshold), layout))
  }

  /** Pages beyond the template count use the last template and are named
      `page_{i}`; pages within it use the template's side, defaulting to
      `page_{i}`. */
  lemma ExtraPagesReuseLastTemplate(templates: seq<SideTemplate>, pageIdx: nat)
    requires |templates| > 0 && pageIdx >= |templates|
    ensures TemplateFor(templates, pageIdx) == templates[|templates| - 1]
    ensures PageSide(templates, pageIdx) == "page_" + NatToString(pageIdx)
  {
  }

  /** Every page of a document whose fields and group boxes are well formed
      scores in [−0.1, 0.9]. */
  lemma ProcessPagesBounds(templates: seq<SideTemplate>, allGroups: seq<seq<Segmenter.RegionGroup>>, shapes: seq<Shape>,
                           n: nat, threshold: real)
    requires |templates| > 0
    requires n <= |allGroups| && n <= |shapes|
    requires forall i :: 0 <= i < n ==> shapes[i].h > 0 && shapes[i].w > 0
    requires forall i, j :: 0 <= i < n && 0 <= j < |allGroups[i]| ==> PixelWellFormed(allGroups[i][j].bbox)
    requires forall t, k :: 0 <= t < |templates| && 0 <= k < |templates[t].fields| ==> WellFormed(templates[t].fields[k].box)
    ensures forall i :: 0 <= i < n ==>
      -0.1 <= PageScores(ProcessPages(templates, allGroups, shapes, n, threshold))[i] <= 0.9
  {
    var pages := ProcessPages(templates, allGroups, shapes, n, threshold);
    forall i | 0 <= i < n
      ensures -0.1 <= PageScores(pages)[i] <= 0.9
    {
      var t := TemplateFor(templates, i);
      assert forall k :: 0 <= k < |t.fields| ==> WellFormed(t.fields[k].box);
      assert forall j :: 0 <= j < |allGroups[i]| ==> PixelWellFormed(allGroups[i][j].bbox);
      ProcessPageBounds(i, PageSide(templates, i), allGroups[i], shapes[i], t.fields, threshold);
    }
  }

  /** When every page's fields are well formed and every group box is well
      formed, the document score lies in [−0.1, 0.9]. */
  lemma DocumentScoreBounds(layouts: map<string, Layout>, documentId: string,
                            allGroups: seq<seq<Segmenter.RegionGroup>>, shapes: seq<Shape>, threshold: real)
    requires forall i :: 0 <= i < |shapes| ==> shapes[i].h > 0 && shapes[i].w > 0
    requires forall i, j :: 0 <= i < |allGroups| && 0 <= j < |allGroups[i]| ==> PixelWellFormed(allGroups[i][j].bbox)
    requires documentId in layouts ==>
      forall t, k :: 0 <= t < |layouts[documentId].templates| && 0 <= k < |layouts[documentId].templates[t].fields| ==>
        WellFormed(layouts[documentId].templates[t].fields[k].box)
    ensures ProcessDocument(layouts, documentId, allGroups, shapes, threshold).Ok? ==>
      -0.1 <= ProcessDocument(layouts, documentId, allGroups, shapes, threshold).value.finalScore <= 0.9
  {
    var r := ProcessDocument(layouts, documentId, allGroups, shapes, threshold);
    if r.Ok? {
      var n := MinInt(|allGroups|, |shapes|);
      if n > 0 {
        var templates := layouts[documentId].templates;
        ProcessPagesBounds(templates, allGroups, shapes, n, threshold);
        MeanBounds(PageScores(r.value.pages), -0.1, 0.9);
      }
    }
  }
}
