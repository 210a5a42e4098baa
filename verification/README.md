# Los Quioscos core, modelled in Dafny

This project models three parts of the Los Quioscos platform as pure functions over explicit state, and proves properties of them.

- **Identity-document validation** (`apps/documents`, Python). The path from a submitted page image to a verdict:
  - the quality gate;
  - corner ordering and choosing the document's quadrilateral;
  - structural segmentation into components, blocks, regions and groups;
  - line and word detection;
  - layout templates (inflation, rounding, crop clamping);
  - assigning groups to template fields, with overlap, IoU, coverage and spill scores;
  - textual plausibility scores;
  - the biometric similarity curve and main-face choice;
  - score fusion, the file-type and file-count gate, and the Mongo serialiser.

  Pixel metrics, OCR text, face detections, embeddings' cosine similarity and contour areas are inputs.
- **Commerce inventory** (`apps/commerce`, TypeScript):
  - batches, with FEFO (first expired, first out) ordering, batch ids and status bookkeeping;
  - the stock-movement ledger and its integrity check;
  - reservations, with FEFO allocation, release, consumption and expiry;
  - the order lifecycle and the maintenance jobs;
  - products;
  - carts.

  Each table is a sequence of rows in insertion order. Every service call is a function from the store, its arguments and the current time `now` (integer minutes) to a new store and a result. A transaction either commits whole or leaves the store unchanged, and the model says where the source lets a side effect survive an error.
- **Users** (`apps/users`, and the earlier `services/users`, TypeScript):
  - registration checks and the password rule;
  - one-shot phone codes over a key-value store with expiry;
  - credential lookup and OAuth accounts;
  - the role and permission tables and their link set;
  - kiosk profiles with ID-number validation and the `canOperate` flag.

  Hashing, the password comparison, code generation and the clock are parameters.

Modules follow the source files: one module per service or repository, plus `Common` (options, results, sums, ASCII helpers), `Tables` (filters, sums and first matches over row sequences), `Sorting` (a stable insertion sort), `Boxes`, `Grouping` (greedy grouping) and `JsText` (JavaScript number and date text).

Where a test or a comment disagrees with the code, the model follows the code:
- `normalize_document` returns the image unchanged when no quadrilateral is found, and never raises.
- The users app refuses the password "123456" that some registration tests use. The earlier standalone service accepts it (`LegacyUsersService.WeakPasswordOnlyLegacy`).

## Model

| member | source | states |
|---|---|---|
| Normalization.ArgMin | apps/documents/src/services/normalization.py:49-53 | `np.argmin`: the index of a least value, the first one among equals |
| Normalization.ArgMax | apps/documents/src/services/normalization.py:50-54 | `np.argmax`: the index of a greatest value, the first one among equals |
| Normalization.OrderPoints | apps/documents/src/services/normalization.py:44-56 | every output corner is one of the four input points; corner 0 has the least x+y and corner 2 the greatest, corner 1 the least y−x and corner 3 the greatest |
| Normalization.OrderPointsFirstWins | apps/documents/src/services/normalization.py:48-49 | on a tie in x+y the top-left corner is the earliest tied point |
| Normalization.RectangleCorner | apps/documents/src/services/normalization.py:44-56 | each corner of an axis-parallel rectangle is the only one of its points with its least or greatest coordinate sum or difference |
| Normalization.OrderPointsOfRectangle | apps/documents/src/services/normalization.py:44-56 | the corners of an axis-parallel rectangle, given in any order, come out as top-left, top-right, bottom-right, bottom-left |
| Normalization.OrderPointsDegenerate | apps/documents/src/services/normalization.py:44-56 | four equal points give four copies of that point |
| Normalization.SortByAreaDesc | apps/documents/src/services/normalization.py:24 | the sorted contours are a permutation of the input |
| Normalization.SortByAreaDescSorted | apps/documents/src/services/normalization.py:24 | the sorted contours are in descending order of area |
| Normalization.InsertByArea | apps/documents/src/services/normalization.py:24 | one insertion step of the sort adds exactly the one contour to the list |
| Normalization.FirstQualifying | apps/documents/src/services/normalization.py:27-31 | the index found is the first among the ten largest contours whose area reaches 20% of the image; none is found only when no such contour exists among them |
| Normalization.LargestDecides | apps/documents/src/services/normalization.py:24-31 | on a list sorted largest first, the first contour alone decides whether any contour qualifies |
| Normalization.FindDocumentQuad | apps/documents/src/services/normalization.py:23-42 | no quadrilateral exactly when no contour among the ten largest reaches 20% of the image area; otherwise the quadrilateral of a contour that does |
| Normalization.OnlyLargestMatters | apps/documents/src/services/normalization.py:24-41 | since the loop returns on the first contour that is large enough and the list is sorted, the answer depends on the largest contour alone |
| Normalization.NoContoursNoQuad | apps/documents/src/services/normalization.py:42 | with no contours there is no quadrilateral |
| Normalization.NormalizeDocument | apps/documents/src/services/normalization.py:84-94 | the image is returned unchanged exactly when no quadrilateral is found; otherwise it is warped to the ordered corners of the quadrilateral |
| QualityGate.CheckImage | apps/documents/src/services/quality_validation.py:23-62 | an image passes exactly when it is acceptable; the size check comes first (under 500 px in either dimension) and darkness (brightness under 110) is reported only for an image of sufficient size |
| QualityGate.QualityValidation | apps/documents/src/services/quality_validation.py:21-64 | `True` exactly when every image is acceptable; otherwise the error is the first failing image's error |
| QualityGate.ValidateFrom | apps/documents/src/services/quality_validation.py:23-62 | the loop from a given image: passes exactly when every later image is acceptable, else reports the first failure |
| QualityGate.BoundariesPass | apps/documents/src/services/quality_validation.py:38-46 | brightness exactly 110 or 250 passes: both comparisons are strict |
| QualityGate.HighContrastAccepted | apps/documents/src/services/quality_validation.py:48-53 | contrast has no upper bound: raising it never fails an acceptable image, although the range constant names 70 |
| QualityGate.NoImagesPass | apps/documents/src/services/quality_validation.py:21-64 | an empty list passes |
| DocumentModel.Normalize | apps/documents/src/models/document.py:18-28 | the result is free of numpy scalars; dictionaries keep their keys in order, lists and tuples become lists of the same length, a numpy scalar becomes its plain item, anything else is kept |
| DocumentModel.NormalizeEntries | apps/documents/src/models/document.py:22-23 | a dictionary keeps its keys and every value is normalised |
| DocumentModel.NormalizeItems | apps/documents/src/models/document.py:25-26 | each item of a list or tuple is normalised in place |
| DocumentModel.NormalizeClean | apps/documents/src/models/document.py:18-28 | a value that holds no numpy scalar is left as it is |
| DocumentModel.NormalizeIdempotent | apps/documents/src/models/document.py:18-28 | normalising twice is normalising once |
| DocumentModel.AsDict | apps/documents/src/models/document.py:8-30 | `asdict` lists the seven fields, `id` first |
| DocumentModel.Pop | apps/documents/src/models/document.py:31 | `pop("id", None)`: the entries other than the key remain; a missing key is not an error |
| DocumentModel.PopAbsent | apps/documents/src/models/document.py:31 | popping a key that is absent changes nothing |
| DocumentModel.ToMongo | apps/documents/src/models/document.py:17-33 | the stored value is a dictionary free of numpy scalars |
| DocumentModel.ToMongoEntries | apps/documents/src/models/document.py:30-33 | the stored keys are the six fields other than `id`, and the metadata is stored normalised with its keys kept |
| DocumentModel.PopId | apps/documents/src/models/document.py:30-31 | removing `id` leaves the other six fields in order with the metadata untouched |
| Boxes.PixelUnion | apps/documents/src/services/structural_segmenter.py:82-87 | the union box encloses both boxes and each of its sides is a side of one of them |
| Boxes.PixelHull | apps/documents/src/services/structural_segmenter.py:82-87 | the hull encloses every box of the list |
| Boxes.PixelHullTight | apps/documents/src/services/structural_segmenter.py:82-87 | each side of the hull is the side of some box of the list |
| Boxes.PixelHullAppend | apps/documents/src/services/structural_segmenter.py:82-87 | adding a box to a group grows the hull by exactly the union with that box |
| Boxes.GapX | apps/documents/src/services/structural_segmenter.py:196-204 | the horizontal gap is never negative and is zero exactly when the x-spans touch or overlap |
| Boxes.GapY | apps/documents/src/services/structural_segmenter.py:196-204 | the vertical gap is never negative and is zero exactly when the y-spans touch or overlap |
| Boxes.InterArea | apps/documents/src/services/semantic_asignation.py:102-110 | the intersection area is never negative and is positive exactly when the boxes overlap with positive width and height |
| Boxes.InterAreaSymmetric | apps/documents/src/services/semantic_asignation.py:171-179 | the intersection area does not depend on the order of the boxes |
| Boxes.InterAreaAtMostArea | apps/documents/src/services/semantic_asignation.py:102-116 | the intersection never exceeds the area of a well-formed box |
| Boxes.InterAreaOfEnclosed | apps/documents/src/services/semantic_asignation.py:102-116 | a box inside another intersects it in its whole area |
| Boxes.Hull | apps/documents/src/services/semantic_asignation.py:86-95 | `merge_bboxes`: the merged box encloses every box |
| Boxes.HullTight | apps/documents/src/services/semantic_asignation.py:91-94 | each side of the merged box is the side of some input box |
| Boxes.HullWellFormed | apps/documents/src/services/semantic_asignation.py:86-95 | merging well-formed boxes gives a well-formed box |
| SemanticAssignment.NormalizeBbox | apps/documents/src/services/semantic_asignation.py:48-63 | x coordinates scaled by the width and y coordinates by the height read back to the pixel values; width and height are the differences of the corners |
| SemanticAssignment.NormalizeRoundTrip | apps/documents/src/services/semantic_asignation.py:48-63 | denormalising a normalised box gives back the pixel box |
| SemanticAssignment.NormalizeKeepsWellFormed | apps/documents/src/services/semantic_asignation.py:48-63 | for a positive image size, normalising keeps a box well formed |
| SemanticAssignment.NormalizeGroups | apps/documents/src/services/semantic_asignation.py:65-84 | one normalised group per input group, in order, each keeping its group and carrying its normalised box |
| SemanticAssignment.OverlapRatio | apps/documents/src/services/semantic_asignation.py:97-116 | 0 for disjoint boxes or an input box without area; within [0, 1] for a well-formed input box |
| SemanticAssignment.OverlapOfEnclosed | apps/documents/src/services/semantic_asignation.py:97-116 | an input box inside the layout box overlaps it with ratio 1 |
| SemanticAssignment.Iou | apps/documents/src/services/semantic_asignation.py:170-184 | 0 for disjoint boxes; within [0, 1] for well-formed boxes |
| SemanticAssignment.IouSymmetric | apps/documents/src/services/semantic_asignation.py:170-184 | the IoU does not depend on the order of the boxes |
| SemanticAssignment.IouWithItself | apps/documents/src/services/semantic_asignation.py:170-184 | a box with positive area has IoU 1 with itself |
| SemanticAssignment.Coverage | apps/documents/src/services/semantic_asignation.py:186-201 | the coverage is the overlap ratio seen from the layout box: within [0, 1] for a well-formed layout box and 0 when the boxes are disjoint |
| SemanticAssignment.SpillPenalty | apps/documents/src/services/semantic_asignation.py:203-222 | 0 for an input box without area; otherwise one minus the overlap ratio; within [0, 1] for a well-formed input box |
| SemanticAssignment.Matching | apps/documents/src/services/semantic_asignation.py:135-146 | a group is matched to a field exactly when its overlap ratio with the field reaches the threshold |
| SemanticAssignment.AssignGroupsToLayout | apps/documents/src/services/semantic_asignation.py:118-148 | one assignment per template field, in template order; a normalised group belongs to a field's assignment exactly when its overlap ratio reaches the threshold |
| SemanticAssignment.MergeAssignedGroups | apps/documents/src/services/semantic_asignation.py:150-168 | `None` exactly when nothing was assigned; otherwise a box that encloses every assigned box |
| SemanticAssignment.CalculateFieldScores | apps/documents/src/services/semantic_asignation.py:224-246 | a field with no merged box scores all zeros and is absent; a present field with well-formed boxes has every score in [0, 1] |
| SemanticAssignment.Detected | apps/documents/src/services/semantic_asignation.py:265-269 | only present fields are kept; when none is present nothing is kept |
| SemanticAssignment.CalculateFinalScore | apps/documents/src/services/semantic_asignation.py:248-295 | with no fields the score is 0 and the page fails; otherwise final = 0.4·ratio + 0.3·IoU + 0.2·coverage − 0.1·spill with ratio = detected over total, and the page passes exactly when final reaches 0.55 |
| SemanticAssignment.PageScoreBounds | apps/documents/src/services/semantic_asignation.py:264-281 | with every field score in [0, 1], the page score lies in [−0.1, 0.9] |
| SemanticAssignment.NothingDetectedScoresZero | apps/documents/src/services/semantic_asignation.py:264-294 | when no field is detected, the page scores 0 and fails |
| SemanticAssignment.ProcessPage | apps/documents/src/services/semantic_asignation.py:355-389 | the page keeps its index, side and shape; one merged box and one score per template field, in order; a field's merged box is absent exactly when no group reaches the threshold; the validation is the final score of the field scores |
| SemanticAssignment.EmptyPageScoresZero | apps/documents/src/services/semantic_asignation.py:355-389 | a page with no groups scores 0 |
| SemanticAssignment.ProcessPageBounds | apps/documents/src/services/semantic_asignation.py:355-389 | with well-formed groups and template boxes, a page scores within [−0.1, 0.9] |
| SemanticAssignment.ProcessPagesBounds | apps/documents/src/services/semantic_asignation.py:325-349 | with well-formed groups, shapes and template boxes, every page of a document scores within [−0.1, 0.9] |
| SemanticAssignment.TemplateFor | apps/documents/src/services/semantic_asignation.py:329-337 | page i uses template i, and every page past the last template uses the last one |
| SemanticAssignment.ExtraPagesReuseLastTemplate | apps/documents/src/services/semantic_asignation.py:333-337 | an extra page uses the last template and is named `page_<index>` |
| SemanticAssignment.ProcessPages | apps/documents/src/services/semantic_asignation.py:325-349 | page i is processed with its own groups, shape, side and template |
| SemanticAssignment.CombinePagesResults | apps/documents/src/services/semantic_asignation.py:391-413 | the combined score is the mean of the page scores, 0 for no pages; the pages and the document type are kept |
| SemanticAssignment.ProcessDocument | apps/documents/src/services/semantic_asignation.py:298-353 | an unknown layout and too few pages are errors; otherwise one result per page that has both groups and a shape, numbered in order and named after its template side, with the mean page score as the final score |
| SemanticAssignment.DocumentScoreBounds | apps/documents/src/services/semantic_asignation.py:298-353 | with well-formed inputs the document score lies in [−0.1, 0.9] |
| Grouping.FirstAccepting | apps/documents/src/services/structural_segmenter.py:75-90 | the group found accepts the item and no earlier group does; when none is found no group accepts it |
| Grouping.GroupAllPartitions | apps/documents/src/services/structural_segmenter.py:69-98 | greedy grouping places every item in exactly one group: the groups together are a permutation of the input, none is empty, and there are at most as many groups as items |
| Grouping.GroupAllInvariant | apps/documents/src/services/structural_segmenter.py:69-98 | a property that holds of every single item and survives each accepted join holds of every group |
| Grouping.PlaceKeepsHeads | apps/documents/src/services/structural_segmenter.py:88-96 | placing an item never changes the first member of an existing group, and a new group holds the item alone |
| Grouping.GroupAllGreedy | apps/documents/src/services/structural_segmenter.py:75-96 | a new item joins the first group that accepts it and changes no other group; when no group accepts it, it opens a group of its own at the end |
| Grouping.FirstAcceptingIsFirst | apps/documents/src/services/structural_segmenter.py:75-90 | the search answers the first accepting group, whichever it is |
| Segmenter.FilterComponents | apps/documents/src/services/structural_segmenter.py:50-65 | a component is kept exactly when its area is at least 40, both sides at least 5 and its area at most 95% of the image |
| Segmenter.GroupComponents | apps/documents/src/services/structural_segmenter.py:67-98 | every component ends up in exactly one block, no block is empty, and each block's box is the hull of its components' boxes |
| Segmenter.JoinGrowsBlockBox | apps/documents/src/services/structural_segmenter.py:82-88 | joining a component grows the block box by exactly the union with its box |
| Segmenter.ContourBlocks | apps/documents/src/services/structural_segmenter.py:100-125 | a contour's box is kept exactly when the contour's area is at least 600 |
| Segmenter.MergeBlocks | apps/documents/src/services/structural_segmenter.py:151-172 | the component blocks come first unchanged; a contour box is appended, without components, only when no block so far encloses it; afterwards every contour box is enclosed by some block |
| Segmenter.CandidateThresholdsStrict | apps/documents/src/services/structural_segmenter.py:175-183 | both photo thresholds are strict: density exactly 0.6 or area exactly 1% of the image is not a candidate, anything above both is |
| Segmenter.PositionOf | apps/documents/src/services/structural_segmenter.py:330-334 | upper above 33% of the height, center from 33% to below 66%, lower otherwise |
| Segmenter.RegionOf | apps/documents/src/services/structural_segmenter.py:310-335 | the region is numbered from 1, keeps the block box and density, and is a photo exactly when it is a candidate and its texture score exceeds 150 |
| Segmenter.SegmentRegions | apps/documents/src/services/structural_segmenter.py:302-340 | every region comes from a block with a non-empty crop, in order, numbered by its block |
| Segmenter.SegmentRegionsOrdered | apps/documents/src/services/structural_segmenter.py:303-337 | region numbers strictly increase |
| Segmenter.SegmentRegionsComplete | apps/documents/src/services/structural_segmenter.py:303-337 | every block whose crop is not empty yields a region |
| Segmenter.BboxDistance | apps/documents/src/services/structural_segmenter.py:196-203 | the distance is never negative and is zero exactly when the boxes touch or overlap on both axes |
| Segmenter.BboxDistanceSymmetric | apps/documents/src/services/structural_segmenter.py:196-203 | the distance does not depend on the order of the boxes and is the horizontal gap plus the vertical gap |
| Segmenter.SpanOverlapRatio | apps/documents/src/services/structural_segmenter.py:206-222 | the overlap ratio lies in [0, 1]; it is 0 when the shorter span has no length or the spans do not overlap |
| Segmenter.VerticalOverlapRatio | apps/documents/src/services/structural_segmenter.py:206-213 | within [0, 1], and 0 when either box has no height |
| Segmenter.HorizontalOverlapRatio | apps/documents/src/services/structural_segmenter.py:215-222 | within [0, 1], and 0 when either box has no width |
| Segmenter.OverlapRatiosSymmetric | apps/documents/src/services/structural_segmenter.py:206-222 | both overlap ratios do not depend on the order of the boxes |
| Segmenter.OverlapRatioWithItself | apps/documents/src/services/structural_segmenter.py:206-222 | a box with positive width and height overlaps itself with ratio 1 on both axes |
| Segmenter.GroupedRegionsWellTyped | apps/documents/src/services/structural_segmenter.py:228-285 | every group is either a single photo region or text regions only |
| Segmenter.MakeRegionGroup | apps/documents/src/services/structural_segmenter.py:231-285 | the group is numbered from 1, its box is the hull of its regions, a photo group holds one photo and a text block holds text only |
| Segmenter.GroupRegions | apps/documents/src/services/structural_segmenter.py:225-287 | every region ends up in exactly one group; groups are numbered 1, 2, …; each box is the hull of the group's regions; a photo group holds exactly one photo and a text block holds text regions only |
| Segmenter.ToRegionGroups | apps/documents/src/services/structural_segmenter.py:278-285 | the group records hold the member lists in order, numbered 1, 2, …, each typed by its members with the hull of their boxes |
| Segmenter.PhotoRegionsStayAlone | apps/documents/src/services/structural_segmenter.py:230-244 | every photo region forms a group of its own |
| Segmenter.SegmentImage | apps/documents/src/services/structural_segmenter.py:291-340 | every region has a non-empty crop and its box is the box of a component block or of a large contour |
| TextDetection.ComponentOf | apps/documents/src/services/text_detection.py:39-50 | the component's box is as wide and as tall as the component statistics say |
| TextDetection.KeptComponents | apps/documents/src/services/text_detection.py:38-54 | exactly the statistics whose area lies in [20, 5000] give components, and nothing else does |
| TextDetection.FindConnectedComponents | apps/documents/src/services/text_detection.py:33-54 | the first label (the background) is skipped: every later label whose area lies in [20, 5000] gives a component, and every component comes from such a label |
| TextDetection.BackgroundIgnored | apps/documents/src/services/text_detection.py:38 | the background statistic has no effect on the components found |
| TextDetection.CentroidYs | apps/documents/src/services/text_detection.py:66 | the heights averaged are the centroid heights of the line's components, in order |
| TextDetection.GroupComponentsIntoLines | apps/documents/src/services/text_detection.py:57-75 | every component ends up in exactly one line, no line is empty, and there are at most as many lines as components |
| TextDetection.LinesCoherent | apps/documents/src/services/text_detection.py:62-73 | each component joined a line whose mean centroid height was less than the threshold away |
| TextDetection.Runs | apps/documents/src/services/text_detection.py:81-93 | the words split the sorted line into non-empty consecutive runs that together are the line |
| TextDetection.RunsMaximal | apps/documents/src/services/text_detection.py:84-93 | inside a word each gap is below the threshold, between words the gap is at least the threshold, and the last word ends with the last component |
| TextDetection.ExtendKeepsMaximal | apps/documents/src/services/text_detection.py:87-88 | a component closer than the threshold extends the current word and keeps the split maximal |
| TextDetection.StartKeepsMaximal | apps/documents/src/services/text_detection.py:89-91 | a component at least the threshold away starts a new word and keeps the split maximal |
| TextDetection.MinOf | apps/documents/src/services/text_detection.py:103 | the minimum is a member of the list and below every member |
| TextDetection.MaxOf | apps/documents/src/services/text_detection.py:103 | the maximum is a member of the list and above every member |
| TextDetection.CoordsOf | apps/documents/src/services/text_detection.py:98-99 | the x list holds exactly the left and right edges, the y list exactly the top and bottom edges |
| TextDetection.SpanBoxEncloses | apps/documents/src/services/text_detection.py:98-104 | the box spanned by a group encloses every member's box |
| TextDetection.GroupLineIntoWords | apps/documents/src/services/text_detection.py:78-106 | the words are numbered from 1 and each one's box is the span of one run of the line sorted by left edge |
| TextDetection.SpanBoxOfPart | apps/documents/src/services/text_detection.py:98-134 | the span of a part lies inside the span of the whole |
| TextDetection.WordsInsideLine | apps/documents/src/services/text_detection.py:124-134 | every word box lies inside its line's box |
| TextDetection.TranslateWords | apps/documents/src/services/text_detection.py:136-142 | every word keeps its number and its box is shifted by the region's corner |
| TextDetection.DetectTextInRegion | apps/documents/src/services/text_detection.py:108-150 | one line per group of components, numbered from 1; the line box is the span of its components shifted by the region corner, and the words are those of the line shifted the same way |
| TextDetection.DetectedWordsInsideLines | apps/documents/src/services/text_detection.py:123-148 | in the result every word box lies inside its line's box |
| TextDetection.TranslateInverse | apps/documents/src/services/text_detection.py:129-142 | shifting by the region corner loses nothing: shifting back restores the box |
| LayoutService.CropRegion | apps/documents/src/services/layout_service.py:74-91 | a crop lies inside the image and inside the requested box wherever that box starts inside the image; no crop when the clamped box is empty |
| LayoutService.CropInsideImage | apps/documents/src/services/layout_service.py:78-86 | a box inside the image is cropped unchanged |
| LayoutService.CropOfEmptyBox | apps/documents/src/services/layout_service.py:83-84 | an empty box inside the image gives no crop |
| LayoutService.CropBeyondRightEdge | apps/documents/src/services/layout_service.py:78-79 | a box entirely right of the image is clamped to the last pixel column, not refused |
| LayoutService.Clamp01 | apps/documents/src/services/layout_service.py:175-178 | the clamped value lies in [0, 1] and a value already there is kept |
| LayoutService.InflateBbox | apps/documents/src/services/layout_service.py:166-187 | every corner lies in [0, 1], width and height are recomputed from the corners, and a non-negative margin keeps each ordered axis ordered |
| LayoutService.InflateWithoutMargin | apps/documents/src/services/layout_service.py:166-187 | a zero margin keeps a box that already lies in [0, 1] |
| LayoutService.InflateEncloses | apps/documents/src/services/layout_service.py:170-178 | with a non-negative margin the inflated box encloses the box |
| LayoutService.RoundBbox | apps/documents/src/services/layout_service.py:190-194 | with a rounding to hundredths every value moves by at most half a hundredth |
| LayoutService.RoundKeepsHundredth | apps/documents/src/services/layout_service.py:192 | a value already in hundredths is kept |
| LayoutService.RoundBboxIdempotent | apps/documents/src/services/layout_service.py:190-194 | rounding twice is rounding once |
| LayoutService.RoundsTo | apps/documents/src/services/layout_service.py:192 | a value within half a hundredth of k/100 rounds to k/100 |
| LayoutService.RoundedWidthMayDiffer | apps/documents/src/services/layout_service.py:180-194 | the width is rounded on its own, so the rounded width can differ from the difference of the rounded corners |
| LayoutService.IdsOf | apps/documents/src/services/layout_service.py:138-139 | a single group id stands for the list holding it |
| LayoutService.GroupBox | apps/documents/src/services/layout_service.py:130-144 | no box exactly when no group has the id; otherwise the box of the last group with that id, as the dictionary keeps it |
| LayoutService.KnownBoxes | apps/documents/src/services/layout_service.py:141-147 | at most one box per id, and none exactly when no id names a group |
| LayoutService.KnownBoxesMembers | apps/documents/src/services/layout_service.py:141-144 | a box is collected exactly when some listed id names a group with that box |
| LayoutService.BuildSideTemplate | apps/documents/src/services/layout_service.py:129-163 | one entry per field that names at least one known group, in layout order, each the merged, normalised, inflated and rounded box |
| LayoutService.KeptFields | apps/documents/src/services/layout_service.py:137-147 | a field is kept exactly when it is in the layout and at least one of its ids names a group |
| LayoutService.UnknownFieldOmitted | apps/documents/src/services/layout_service.py:146-147 | a field whose ids name no group adds nothing to the template |
| LayoutService.SingleIdIsList | apps/documents/src/services/layout_service.py:138-139 | a field given one id gets the same entry as a field given the one-element list |
| LayoutService.TemplateCoversGroups | apps/documents/src/services/layout_service.py:149-156 | before rounding, a field's box encloses the normalised box of every group it names |
| Biometric.SimilarityCurve | apps/documents/src/services/biometric_processor.py:225-232 | at most 0.1 the similarity is kept; above 0.5 the score exceeds 0.7; in between it lies in (0.1, 0.7] |
| Biometric.SimilarityCurveLipschitz | apps/documents/src/services/biometric_processor.py:225-232 | the curve never decreases and rises at most with slope 1.5, so the pieces meet at 0.1, 0.3 and 0.5 |
| Biometric.CompareFaces | apps/documents/src/services/biometric_processor.py:209-243 | the final score lies in [0, 1] |
| Biometric.CompareMonotoneInSimilarity | apps/documents/src/services/biometric_processor.py:217-241 | with the same confidences, a higher dot product never gives a lower score |
| Biometric.CompareMonotoneInConfidence | apps/documents/src/services/biometric_processor.py:235-241 | higher confidences never give a lower score, and with confidences in [0, 1] they add at most 0.2 |
| Biometric.PerfectMatchScoresOne | apps/documents/src/services/biometric_processor.py:225-241 | identical embeddings with full confidence score exactly 1 |
| Biometric.SelectMainFace | apps/documents/src/services/biometric_processor.py:162-207 | none exactly when every face scores at most -1; otherwise the first face with the highest weighted score |
| Biometric.SelectFrom | apps/documents/src/services/biometric_processor.py:173-205 | the chosen face scores above -1 and at least as high as every face seen, and strictly higher than every face before it |
| Biometric.MainFaceUnique | apps/documents/src/services/biometric_processor.py:203-207 | the first face of highest score is the one selected, so the selection is determined |
| Biometric.ExtractBbox | apps/documents/src/services/biometric_processor.py:67-80 | a dict's 4-tuple bbox, a dict's bbox dict holding x1, y1, x2 and y2 (in that order), or a bare 4-tuple; nothing in every other case |
| Biometric.Fifth | apps/documents/src/services/biometric_processor.py:55-56 | a fifth of the size, truncated toward zero as int() does |
| Biometric.FaceCrop | apps/documents/src/services/biometric_processor.py:52-63 | the grown box is clipped to the image and encloses a face box that lies inside it |
| Biometric.FaceFromPages | apps/documents/src/services/biometric_processor.py:44-65 | the first page from the given one on that has a main face gives the crop; none exactly when no such page has one |
| Biometric.FaceFromFullImage | apps/documents/src/services/biometric_processor.py:40-65 | the crop of the first page with a main face; none exactly when no page has one |
| Biometric.FaceCropInsidePage | apps/documents/src/services/biometric_processor.py:58-63 | the face crop lies inside its page |
| Biometric.ProcessFace | apps/documents/src/services/biometric_processor.py:124-159 | a model failure and only that raises with the source's name; otherwise none exactly when no main face is selected |
| Biometric.VerifyBiometric | apps/documents/src/services/biometric_processor.py:82-121 | decoding errors, then a missing document face, are reported first; a score is returned only when everything was found, and it lies in [0, 1] |
| Biometric.SelfieCheckedFirst | apps/documents/src/services/biometric_processor.py:95-107 | when neither image has a face, the selfie's error is reported |
| DocumentService.DetectFileType | apps/documents/src/document_impl.py:151-163 | jpeg exactly when the bytes start with FF D8, png exactly with 89 'PNG', pdf exactly with '%PDF' |
| DocumentService.HeaderPrefix | apps/documents/src/document_impl.py:152 | looking only at the first four bytes decides every prefix of at most four bytes as the whole file would |
| DocumentService.SignaturesRecognised | apps/documents/src/document_impl.py:151-163 | the JPEG, PNG and PDF signatures are recognised whatever follows, and empty bytes are unknown |
| DocumentService.ValidateSingleFile | apps/documents/src/document_impl.py:165-180 | over 7 MB is too large, then an unknown type is unsupported; a file passes exactly when it is small enough, of a known type and not an encrypted PDF, and the type is returned |
| DocumentService.SizeLimitInclusive | apps/documents/src/document_impl.py:167-168 | exactly 7 MB passes and one byte more does not |
| DocumentService.PageRefs | apps/documents/src/document_impl.py:233-235 | one image per page of the file, in order |
| DocumentService.ImagesFrom | apps/documents/src/document_impl.py:222-237 | images only when every file from here on is valid bytes, as many as their pages together; a non-bytes element is refused only after every file before it passed |
| DocumentService.ValidBeforeExtends | apps/documents/src/document_impl.py:222-227 | a valid file extends the run of valid files before a later position |
| DocumentService.ToImages | apps/documents/src/document_impl.py:201-237 | a value that is neither bytes nor a list is refused; more than three files are too many; images only for a valid list of at most three files, as many as their pages |
| DocumentService.SingleFileIsListOfOne | apps/documents/src/document_impl.py:211-212 | one file is handled as the list holding it |
| DocumentService.ValidListConverts | apps/documents/src/document_impl.py:217-237 | a list of at most three valid files always converts |
| DocumentService.Clip01 | apps/documents/src/document_impl.py:250-275 | the clipped value lies in [0, 1] and a value already there is kept |
| DocumentService.FuseScores | apps/documents/src/document_impl.py:239-275 | the final score lies in [0, 1] |
| DocumentService.FuseAgreeingScores | apps/documents/src/document_impl.py:260-275 | when all the scores agree the final score is that score, with or without the biometric one, since each weighting sums to 1 |
| DocumentService.FuseExtremes | apps/documents/src/document_impl.py:248-275 | all ones give 1, all zeros give 0, and a missing structural score counts as 0 |
| DocumentService.ClipMonotone | apps/documents/src/document_impl.py:250-255 | clipping keeps order |
| DocumentService.FuseMonotone | apps/documents/src/document_impl.py:260-275 | raising any score never lowers the final score |
| DocumentService.NormalizedShape | apps/documents/src/document_impl.py:50-53 | a page that passed the quality gate has a non-empty normalised image |
| DocumentService.Groups | apps/documents/src/document_impl.py:62-66 | one group list per page |
| DocumentService.Shapes | apps/documents/src/document_impl.py:62-67 | one non-empty shape per page |
| DocumentService.FacePages | apps/documents/src/document_impl.py:90 | one face list per page, each with a non-empty shape |
| DocumentService.StructuralStage | apps/documents/src/document_impl.py:70-75 | a structural result exists only for a known document type |
| DocumentService.BiometricStage | apps/documents/src/document_impl.py:88-96 | no selfie means no biometric score; an empty selfie gives no score or an error; a score comes only from a non-empty selfie and lies in [0, 1] |
| DocumentService.ScorePages | apps/documents/src/document_impl.py:70-145 | an unknown document type raises; a failure is a biometric error with a selfie; a success has a final score in [0, 1] and is valid exactly when the score reaches 0.55 |
| DocumentService.Analyze | apps/documents/src/document_impl.py:47-56 | one analysis per image, in order |
| DocumentService.Metrics | apps/documents/src/document_impl.py:48 | the quality gate sees the metrics of every image, in order |
| DocumentService.ProcessDocument | apps/documents/src/document_impl.py:43-145 | normalisation errors never surface; no biometric error without a selfie; a technical error exactly when the files do not convert; low quality only after a conversion; a success has a score in [0, 1] and is valid exactly from 0.55 |
| DocumentService.EmptySelfieIgnored | apps/documents/src/document_impl.py:88-96 | an empty selfie that does not fail the biometric step gives the same response as no selfie |
| TextScoring.FirstContained | apps/documents/src/services/post_asignment_processor.py:234 | true exactly when the name contains one of the keywords |
| TextScoring.NeedsOcr | apps/documents/src/services/post_asignment_processor.py:20-32 | a field needs OCR exactly when its lower-cased name contains none of the non-OCR keywords |
| TextScoring.NeedsOcrIgnoresCase | apps/documents/src/services/post_asignment_processor.py:24 | names that lower-case alike are treated alike |
| TextScoring.PhotoFieldsSkipOcr | apps/documents/src/services/post_asignment_processor.py:17-29 | a field whose name contains "photo" in any case is never read |
| TextScoring.PageTexts | apps/documents/src/services/post_asignment_processor.py:193-200 | a page contributes exactly its fields with a non-empty text, under the page-prefixed key when there are several pages |
| TextScoring.PagesTexts | apps/documents/src/services/post_asignment_processor.py:189-200 | a key and text are collected exactly when some page contributes them |
| TextScoring.InSomePageSnoc | apps/documents/src/services/post_asignment_processor.py:189 | the pages so far plus one more contribute what either part contributes |
| TextScoring.GetTextualData | apps/documents/src/services/post_asignment_processor.py:174-201 | exactly the non-empty texts of every page, each under its key; no text is empty |
| TextScoring.ExtractFieldName | apps/documents/src/services/post_asignment_processor.py:265-269 | a key that does not both contain '_' and start with "page" is returned unchanged, and the result is never longer than the key |
| TextScoring.AfterFirst | apps/documents/src/services/post_asignment_processor.py:268 | the text after the first separator is a proper suffix |
| TextScoring.AfterFirstOfPrefix | apps/documents/src/services/post_asignment_processor.py:268 | after a separator-free prefix and the separator, the rest comes back unchanged |
| TextScoring.ExtractFieldNameOfKey | apps/documents/src/services/post_asignment_processor.py:265-269 | the field name is recovered from the key built for it, whenever a single page's field name does not itself look prefixed |
| TextScoring.DateScore | apps/documents/src/services/post_asignment_processor.py:271-286 | 1 exactly for the three date shapes, 0.5 exactly for other text with a digit, 0 exactly for text without digits |
| TextScoring.Digits | apps/documents/src/services/post_asignment_processor.py:289 | the digits of the text, as many as it has |
| TextScoring.CountDigitsOfDigits | apps/documents/src/services/post_asignment_processor.py:289-294 | a text of digits only has all its characters counted |
| TextScoring.IdScore | apps/documents/src/services/post_asignment_processor.py:288-301 | no digits gives 0; 7 to 12 digits give 1; 5 or 6 and 13 to 20 give 0.6; otherwise 0.3 |
| TextScoring.IdScoreOnlyDigits | apps/documents/src/services/post_asignment_processor.py:289 | only the digits of the text matter |
| TextScoring.CountNameLetters | apps/documents/src/services/post_asignment_processor.py:304 | the letters counted are at most the text's length, and all of it exactly when every character is an allowed letter |
| TextScoring.CountNonSpace | apps/documents/src/services/post_asignment_processor.py:307 | removing spaces never lengthens the text |
| TextScoring.NameScore | apps/documents/src/services/post_asignment_processor.py:303-312 | one of 1, 0.6 and 0.2; 1 exactly when over 90% are letters and at least three characters are not spaces; 0.2 exactly when at most 70% are letters |
| TextScoring.CountNonSpaceOfLetters | apps/documents/src/services/post_asignment_processor.py:307 | a text of letters only has no spaces to drop |
| TextScoring.LettersOnlyIsPerfectName | apps/documents/src/services/post_asignment_processor.py:303-308 | three or more letters and nothing else score 1 |
| TextScoring.LengthScore | apps/documents/src/services/post_asignment_processor.py:314-332 | within [0, 1]; 1 exactly inside the ideal range; outside it one minus the distance to the nearer bound over the upper bound, never below 0 |
| TextScoring.FormatCategory | apps/documents/src/services/post_asignment_processor.py:232-239 | a date field exactly when the name contains "fecha"; an ID field exactly when it does not and it contains an ID keyword |
| TextScoring.LengthRange | apps/documents/src/services/post_asignment_processor.py:317-324 | every ideal range is non-empty with a positive upper bound |
| TextScoring.FormatCategoryFixed | apps/documents/src/services/post_asignment_processor.py:232-239 | with names checked before IDs, a name field exactly when the name has no "fecha" and contains "nombre" or "apellido" |
| TextScoring.LengthRangeFixed | apps/documents/src/services/post_asignment_processor.py:317-324 | every ideal range is non-empty with a positive upper bound |
| TextScoring.SurnameDispatch | apps/documents/src/services/post_asignment_processor.py:234-321 | a surname field lands in the ID branches as written and in the name branches once names are checked first |
| TextScoring.FormatScore | apps/documents/src/services/post_asignment_processor.py:232-239 | the format score lies in [0, 1] |
| TextScoring.ScoreText | apps/documents/src/services/post_asignment_processor.py:213-251 | within [0, 1]; text that is empty after stripping scores 0; a field of no category with a length in range scores 1 |
| TextScoring.FieldScore | apps/documents/src/services/post_asignment_processor.py:211-252 | within [0, 1], and 0 for empty text |
| TextScoring.FieldScoreFixed | apps/documents/src/services/post_asignment_processor.py:211-252 | within [0, 1], and 0 for empty text |
| TextScoring.SurnameCounterexample | apps/documents/src/services/post_asignment_processor.py:234-322 | the surname "GOMEZ" scores 0.2 as written and 1 once names are checked first |
| TextScoring.SurnameName | apps/documents/src/services/post_asignment_processor.py:212-319 | "apellido" is its own field name and lands in the ID branches |
| TextScoring.GomezText | apps/documents/src/services/post_asignment_processor.py:289-312 | "GOMEZ" has no digits, so its ID score is 0, and is a perfect name |
| TextScoring.FieldScores | apps/documents/src/services/post_asignment_processor.py:211-252 | one score per field, in order |
| TextScoring.ValidateTextualData | apps/documents/src/services/post_asignment_processor.py:203-262 | the mean of the field scores, which lies in [0, 1], and 0 without fields |
| CommerceModel.StartOfDay | apps/commerce/src/repositories/impl/batch.repository.ts:61 | midnight of an instant's day is at or before it, less than a day before, and on a day boundary |
| CommerceModel.StartOfDayMonotone | apps/commerce/src/services/batch.service.ts:151-154 | a later instant never falls on an earlier day |
| CommerceModel.StartOfDayOfMidnight | apps/commerce/src/services/batch.service.ts:154 | a midnight is its own day start |
| JsText.PadStart | apps/commerce/src/repositories/impl/batch.repository.ts:129 | padding adds only zeros in front, up to the width, and keeps the text as its tail |
| JsText.LeadingDigits | apps/commerce/src/repositories/impl/batch.repository.ts:125 | parseInt reads the longest run of digits at the front |
| JsText.ParseIntDigits | apps/commerce/src/repositories/impl/batch.repository.ts:125 | a string of digits parses to its value |
| JsText.PaddedNumberRoundTrip | apps/commerce/src/repositories/impl/batch.repository.ts:125-129 | a zero-padded sequence number parses back to itself |
| JsText.PaddedDigitsRoundTrip | apps/commerce/src/repositories/impl/batch.repository.ts:125-129 | zero-padding a string of digits keeps its value |
| JsText.SplitOnFirst | apps/commerce/src/repositories/impl/batch.repository.ts:125 | the text before the first separator comes off as the first piece |
| JsText.CivilFromDays | apps/commerce/src/repositories/impl/batch.repository.ts:114 | the calendar date of a day number has a month in 1..12 and a day in 1..31 |
| JsText.IsoDateStamp | apps/commerce/src/repositories/impl/batch.repository.ts:114 | the date stamp has no dash, and for years 0 to 9999 is eight digits |
| JsText.IsoDateStampSameDay | apps/commerce/src/repositories/impl/batch.repository.ts:114 | instants of the same UTC day get the same stamp |
| BatchRepository.FindById | apps/commerce/src/repositories/impl/batch.repository.ts:31-39 | the first batch with the id that is not DELETED; none exactly when every batch with the id is deleted |
| BatchRepository.FindByProductId | apps/commerce/src/repositories/impl/batch.repository.ts:48-57 | exactly the product's batches that are not DELETED, by expiration date |
| BatchRepository.FindByStatus | apps/commerce/src/repositories/impl/batch.repository.ts:78-84 | exactly the batches with the status, by expiration date |
| BatchRepository.Fraction | apps/commerce/src/repositories/impl/batch.repository.ts:70-73 | the tie-break on production date stays strictly between 0 and 1, so it never outweighs a day of expiration |
| BatchRepository.FractionMonotone | apps/commerce/src/repositories/impl/batch.repository.ts:70-73 | an earlier production date gives a smaller tie-break |
| BatchRepository.FefoKeyOrder | apps/commerce/src/repositories/impl/batch.repository.ts:70-73 | the combined sort key orders batches by expiration date, then production date |
| BatchRepository.FindActiveByProductId | apps/commerce/src/repositories/impl/batch.repository.ts:59-76 | exactly the product's ACTIVE batches with a non-negative quantity that expire today or later, no batch lost or repeated, earliest expiration (then production) first |
| BatchRepository.FefoSorted | apps/commerce/src/repositories/impl/batch.repository.ts:70-73 | a list sorted by the key is in expiration-then-production order |
| BatchRepository.FindActiveForKiosk | apps/commerce/src/services/reservation.service.ts:64-67 | the product's sellable batches when the product belongs to the kiosk, none otherwise |
| BatchRepository.FilterKeepsUniqueIds | apps/commerce/src/repositories/impl/batch.repository.ts:63-75 | a query result keeps the primary key unique |
| BatchRepository.UniqueIdsMultiplicity | apps/commerce/src/repositories/impl/batch.repository.ts:18-21 | with unique ids no batch occurs twice |
| BatchRepository.UniqueIdsPermutation | apps/commerce/src/repositories/impl/batch.repository.ts:70-73 | reordering keeps ids unique |
| BatchRepository.FindActiveUniqueIds | apps/commerce/src/repositories/impl/batch.repository.ts:59-76 | the sellable batches have unique ids |
| BatchRepository.TotalStockWithinSellable | apps/commerce/src/repositories/impl/batch.repository.ts:86-96 | the total stock is never negative and never above the sellable batches' quantity |
| BatchRepository.NeedingExpiration | apps/commerce/src/repositories/impl/batch.repository.ts:132-144 | exactly the ACTIVE batches with a non-negative quantity that expired before today |
| BatchRepository.ExpiringSoon | apps/commerce/src/repositories/impl/batch.repository.ts:146-162 | exactly the ACTIVE batches with a non-negative quantity expiring from today to the threshold day, by expiration date |
| BatchRepository.ExpirationPartition | apps/commerce/src/repositories/impl/batch.repository.ts:59-162 | an ACTIVE batch with non-negative stock is either sellable or needs expiration, never both; a batch expiring soon is sellable |
| BatchRepository.AdjustCounters | apps/commerce/src/services/reservation.service.ts:103-152 | only the batch with the id changes, by exactly the given amounts |
| BatchRepository.DayIds | apps/commerce/src/repositories/impl/batch.repository.ts:116-121 | exactly the ids that start with the day's prefix |
| BatchRepository.StrBelowTotal | apps/commerce/src/repositories/impl/batch.repository.ts:120 | the id order is total |
| BatchRepository.StrBelowIrreflexive | apps/commerce/src/repositories/impl/batch.repository.ts:120 | no id sorts before itself |
| BatchRepository.StrBelowTransitive | apps/commerce/src/repositories/impl/batch.repository.ts:120 | the id order is transitive |
| BatchRepository.StrBelowAsymmetric | apps/commerce/src/repositories/impl/batch.repository.ts:120 | the id order is asymmetric |
| BatchRepository.StrBelowSharedPrefix | apps/commerce/src/repositories/impl/batch.repository.ts:118-120 | a shared prefix keeps the order of the rest |
| BatchRepository.Greatest | apps/commerce/src/repositories/impl/batch.repository.ts:116-121 | the id ordered last is a member, and no member sorts after it |
| BatchRepository.Ids | apps/commerce/src/repositories/impl/batch.repository.ts:116-121 | the ids of the table, in order |
| BatchRepository.SaveBatch | apps/commerce/src/repositories/impl/batch.repository.ts:18-29 | a new id appends the batch; an existing id replaces that row |
| BatchRepository.NextBatchId | apps/commerce/src/repositories/impl/batch.repository.ts:113-130 | the id starts with "LOTE-", the day stamp and "-" |
| BatchRepository.MaxSequence | apps/commerce/src/repositories/impl/batch.repository.ts:125 | no id's sequence number exceeds the maximum |
| BatchRepository.NextBatchIdFixed | apps/commerce/src/repositories/impl/batch.repository.ts:113-130 | the corrected id starts with the day prefix |
| BatchRepository.DayIdPieces | apps/commerce/src/repositories/impl/batch.repository.ts:125 | splitting a day id on '-' gives "LOTE", the stamp and the sequence |
| BatchRepository.NextBatchIdFixedFresh | apps/commerce/src/repositories/impl/batch.repository.ts:113-130 | the id built from the largest sequence number of the day is never taken |
| BatchRepository.GeneratedFresh | apps/commerce/src/repositories/impl/batch.repository.ts:123-129 | the day prefix with one above the day's largest sequence is not taken |
| BatchRepository.AboveDayIsFresh | apps/commerce/src/repositories/impl/batch.repository.ts:123-129 | a day id whose sequence exceeds every sequence of the day is not taken |
| BatchRepository.AboveMaxSequence | apps/commerce/src/repositories/impl/batch.repository.ts:125-126 | an id whose sequence exceeds every sequence is not among the ids |
| BatchRepository.SequenceReadsBack | apps/commerce/src/repositories/impl/batch.repository.ts:125-129 | the sequence written into an id is read back from it |
| BatchRepository.NextBatchIdRepeats | apps/commerce/src/repositories/impl/batch.repository.ts:116-129 | with LOTE-20240620-999 and LOTE-20240620-1000 stored, the text order picks 999 and the next id is the existing LOTE-20240620-1000 |
| BatchRepository.NextFromGreatest | apps/commerce/src/repositories/impl/batch.repository.ts:120-129 | the next id is one above the sequence of the id ordered last |
| BatchRepository.RepeatsDay | apps/commerce/src/repositories/impl/batch.repository.ts:118 | both ids are of the day |
| BatchRepository.RepeatsGreatest | apps/commerce/src/repositories/impl/batch.repository.ts:120 | "999" sorts after "1000" as text |
| BatchRepository.RepeatsSequence | apps/commerce/src/repositories/impl/batch.repository.ts:125 | the sequence of LOTE-20240620-999 is 999 |
| BatchRepository.RepeatsText | apps/commerce/src/repositories/impl/batch.repository.ts:129 | 1000 is padded to "1000" |
| BatchRepository.DigitsValueThree | apps/commerce/src/repositories/impl/batch.repository.ts:125 | parseInt("999") is 999 |
| BatchService.MovementTotalAppend | apps/commerce/src/services/stockmovement.service.ts:23-37 | the movement total of two ledgers is the sum of their totals |
| BatchService.MovementTotalSingle | apps/commerce/src/services/stockmovement.service.ts:30-33 | one movement adds its delta to its own batch only |
| BatchService.MovementTotalOther | apps/commerce/src/services/stockmovement.service.ts:30-33 | movements of other batches add nothing |
| BatchService.InvariantRowStep | apps/commerce/src/services/batch.service.ts:96-110 | replacing a row by one with the same id, a non-negative quantity and the quantity moved by the new movements keeps the stock ledger |
| BatchService.SameIdRowIds | apps/commerce/src/services/batch.service.ts:27-29 | saving a row under its own id keeps the ids, and their uniqueness |
| BatchService.AnchoredStep | apps/commerce/src/services/stockmovement.service.ts:30-36 | movements of a stored batch stay attached to stored batches |
| BatchService.BalancedStep | apps/commerce/src/services/batch.service.ts:96-110 | after the step every batch's quantity is still its movement total |
| BatchService.InvariantStatusStep | apps/commerce/src/services/batch.service.ts:179-184 | a status change that keeps the quantity keeps the ledger |
| BatchService.FoundAt | apps/commerce/src/repositories/impl/batch.repository.ts:31-39 | with unique ids a stored, undeleted batch is found at its own position |
| BatchService.FoundAgain | apps/commerce/src/repositories/impl/batch.repository.ts:31-39 | saving an undeleted row under the id keeps it findable at the same place |
| BatchService.CreateMovement | apps/commerce/src/services/stockmovement.service.ts:23-38 | a zero delta is refused and nothing changes; otherwise exactly one movement with the batch, type, delta and time is appended |
| BatchService.UpdateBatchQuantity | apps/commerce/src/services/batch.service.ts:239-275 | succeeds exactly for a non-zero delta on a found ACTIVE, unexpired batch whose stock stays non-negative; it then changes only that row's quantity by the delta and its status (DEPLETED at 0); on failure nothing changes |
| BatchService.UpdateAloneBreaksLedger | apps/commerce/src/services/batch.service.ts:239-275 | a successful bare quantity update, without a movement, always breaks the ledger |
| BatchService.ExpiredRow | apps/commerce/src/services/batch.service.ts:278-291 | the row becomes EXPIRED, its positive stock drops to 0, and nothing else changes |
| BatchService.ExpiryMovements | apps/commerce/src/services/batch.service.ts:293-299 | the expiry movements belong to the batch and account exactly for the stock removed |
| BatchService.RefreshedRow | apps/commerce/src/services/batch.service.ts:144-187 | EXPIRED exactly when expired by today; otherwise the quantity is kept, ACTIVE exactly with stock, MANUAL_OUT kept without stock, DEPLETED otherwise without stock |
| BatchService.RefreshMovements | apps/commerce/src/services/batch.service.ts:159-165 | the refresh's movements belong to the batch and account exactly for the stock it removes |
| BatchService.RefreshBatchStatus | apps/commerce/src/services/batch.service.ts:144-187 | succeeds exactly when the batch is found, saving only its refreshed row and the expiry movements; a missing batch changes nothing |
| BatchService.RefreshedRowStable | apps/commerce/src/services/batch.service.ts:144-187 | refreshing a refreshed row changes nothing and moves no stock |
| BatchService.RefreshIdempotent | apps/commerce/src/services/batch.service.ts:144-187 | a second refresh changes nothing |
| BatchService.RefreshKeepsInvariant | apps/commerce/src/services/batch.service.ts:144-187 | the refresh keeps the stock ledger |
| BatchService.HandleExpiredBatchWithStock | apps/commerce/src/services/batch.service.ts:278-301 | the row becomes EXPIRED with no stock left, and every other row is kept |
| BatchService.HandleExpiredKeepsInvariant | apps/commerce/src/services/batch.service.ts:278-301 | expiring a batch keeps the ledger, since the removal is recorded as a movement |
| BatchService.ApplyMovement | apps/commerce/src/services/stockmovement.service.ts:41-83 | succeeds exactly for a non-zero delta on a found batch that accepts the update; not enough stock gives the batch's insufficient-stock message; on success the row is updated, then refreshed, and the movement is recorded |
| BatchService.ApplyMovementMoves | apps/commerce/src/services/stockmovement.service.ts:59-71 | only the batch's row changes; the movement comes first; a live batch moves by exactly the delta, an expired one ends EXPIRED with no stock |
| BatchService.ApplyMovementKeepsInvariant | apps/commerce/src/services/stockmovement.service.ts:41-83 | applying a movement keeps the stock ledger |
| BatchService.ApplyDrains | apps/commerce/src/services/batch.service.ts:96-103 | withdrawing all the stock of an ACTIVE unexpired batch succeeds with one movement and leaves the batch at 0 |
| BatchService.DrainThenSave | apps/commerce/src/services/batch.service.ts:103-107 | draining then saving the final row is the row plus the one movement |
| BatchService.NewBatch | apps/commerce/src/services/batch.service.ts:41-55 | the batch starts ACTIVE with the full quantity, none reserved, and expires the product's duration after its production day |
| BatchService.CreateBatch | apps/commerce/src/services/batch.service.ts:23-68 | succeeds exactly for a positive quantity, a production date not in the future and an existing product; the batch gets the next day id, is saved and its RESTOCK movement recorded; on failure nothing changes |
| BatchService.CreateBatchKeepsInvariant | apps/commerce/src/services/batch.service.ts:23-68 | with a fresh id, creation keeps the ledger |
| BatchService.CreateBatchOverwrites | apps/commerce/src/services/batch.service.ts:44-57 | when the generated id is taken, creation overwrites that row instead of adding one |
| BatchService.InvariantNewRow | apps/commerce/src/services/batch.service.ts:57-65 | a new batch with its matching restock movement keeps the ledger |
| BatchService.NewRowBalanced | apps/commerce/src/services/batch.service.ts:57-65 | every row stays balanced after the new batch and its movement |
| BatchService.MarkBatchAsDepleted | apps/commerce/src/services/batch.service.ts:83-113 | succeeds exactly for a found ACTIVE unexpired batch with stock; a batch without stock is already depleted; on success the row is DEPLETED at 0 after a MANUAL_OUT movement; on failure nothing changes |
| BatchService.MarkBatchAsDepletedKeepsInvariant | apps/commerce/src/services/batch.service.ts:83-113 | depletion keeps the ledger |
| BatchService.DepletedKeepsInvariant | apps/commerce/src/services/batch.service.ts:96-110 | the depleted store keeps the ledger |
| BatchService.OutOfStockFrom | apps/commerce/src/services/batch.service.ts:126-141 | the withdrawal keeps the number of rows |
| BatchService.MarkProductAsOutOfStock | apps/commerce/src/services/batch.service.ts:116-142 | a failure changes nothing, and a product without ACTIVE stocked batches is left as it is |
| BatchService.WithdrawStep | apps/commerce/src/services/batch.service.ts:127-140 | one withdrawal step is the rest of the walk on the withdrawn store, and keeps the ledger |
| BatchService.WithdrawUnfolds | apps/commerce/src/services/batch.service.ts:127-140 | the walk unfolds one batch at a time |
| BatchService.WithdrawKeepsInvariant | apps/commerce/src/services/batch.service.ts:127-140 | withdrawing one batch keeps the ledger |
| BatchService.WithdrawFails | apps/commerce/src/services/batch.service.ts:135 | an expired target batch makes the whole withdrawal fail |
| BatchService.OutOfStockFromSucceeds | apps/commerce/src/services/batch.service.ts:126-141 | the walk succeeds exactly when every remaining target batch can be withdrawn |
| BatchService.WithdrawableAfter | apps/commerce/src/services/batch.service.ts:127-140 | a withdrawable batch passes the question on to the rest |
| BatchService.OutOfStockFromKeepsInvariant | apps/commerce/src/services/batch.service.ts:126-141 | a successful walk keeps the ledger |
| BatchService.WithdrawnFromStep | apps/commerce/src/services/batch.service.ts:137-139 | a withdrawn batch and a withdrawn rest make a withdrawn table |
| BatchService.WithdrawnFromSkip | apps/commerce/src/services/batch.service.ts:118-120 | a batch that is not a target is left as it is |
| BatchService.OutOfStockFromEffect | apps/commerce/src/services/batch.service.ts:126-141 | a successful walk leaves each target MANUAL_OUT at 0 and every other row as it was |
| BatchService.MarkProductAsOutOfStockEffect | apps/commerce/src/services/batch.service.ts:116-142 | succeeds exactly when every ACTIVE stocked batch of the product is unexpired; the ledger holds either way; on success every target is MANUAL_OUT at 0 and every other row is kept |
| BatchService.DeleteBatch | apps/commerce/src/services/batch.service.ts:219-232 | succeeds exactly for a found DEPLETED or EXPIRED batch, which becomes DELETED; otherwise nothing changes |
| BatchService.DeleteBatchEffect | apps/commerce/src/services/batch.service.ts:219-232 | deletion keeps the ledger and the batch is no longer found |
| BatchService.ExpireFrom | apps/commerce/src/services/batch.service.ts:207-213 | the job keeps the number of rows |
| BatchService.ExpireBatchesJob | apps/commerce/src/services/batch.service.ts:198-216 | the job keeps the number of rows |
| BatchService.ExpireFromCount | apps/commerce/src/services/batch.service.ts:205-215 | the count is the number of due batches in the rest of the table |
| BatchService.HandledTail | apps/commerce/src/services/batch.service.ts:278-301 | handling a batch leaves later rows alone |
| BatchService.ExpireFromKeepsInvariant | apps/commerce/src/services/batch.service.ts:207-213 | the job keeps the ledger |
| BatchService.ExpireFromRows | apps/commerce/src/services/batch.service.ts:207-213 | every due row from here on is EXPIRED at 0, every other row is kept |
| BatchService.ExpireRowsStep | apps/commerce/src/services/batch.service.ts:207-213 | one more handled row extends the expired rows |
| BatchService.ExpireBatchesJobEffect | apps/commerce/src/services/batch.service.ts:198-216 | the job keeps the ledger, counts exactly the due batches, leaves each of them EXPIRED at 0 and every other row as it was |
| StockMovementService.AdjustStock | apps/commerce/src/services/stockmovement.service.ts:86-93 | a zero delta is refused with the adjustment message and nothing changes; otherwise it succeeds exactly when the movement applies, and the first new movement is the ADJUSTMENT |
| StockMovementService.AdjustStockKeepsInvariant | apps/commerce/src/services/stockmovement.service.ts:86-93 | an adjustment keeps the stock ledger |
| StockMovementService.RestockBatch | apps/commerce/src/services/stockmovement.service.ts:96-118 | a non-positive quantity, a missing batch and a batch expired before today are refused in that order, changing nothing; otherwise it succeeds exactly when the movement applies, recording a RESTOCK first |
| StockMovementService.RestockEarlierToday | apps/commerce/src/services/stockmovement.service.ts:106-117 | a batch that expired earlier today passes the day check and is then refused as expired by the quantity update |
| StockMovementService.RestockKeepsInvariant | apps/commerce/src/services/stockmovement.service.ts:96-118 | a restock keeps the stock ledger |
| StockMovementService.ConsumeFrom | apps/commerce/src/services/stockmovement.service.ts:135-171 | the walk consumes at most the request and reports it exactly; a failure changes nothing; the ledger is kept; when every listed batch can be drawn it succeeds with the request less the listed stock, never below 0, left over; a refused first draw fails the whole walk |
| StockMovementService.SkipAccounts | apps/commerce/src/services/stockmovement.service.ts:143-145 | a batch with nothing to give is skipped without changing the account |
| StockMovementService.SkipCovers | apps/commerce/src/services/stockmovement.service.ts:143-145 | skipping keeps the walk's bookkeeping |
| StockMovementService.RefusedNotDrawable | apps/commerce/src/services/stockmovement.service.ts:147 | a refused draw shows that not every listed batch could be drawn |
| StockMovementService.RefusedFirst | apps/commerce/src/services/stockmovement.service.ts:145-147 | a refusal at the first draw happens at the first batch |
| StockMovementService.DrawAccounts | apps/commerce/src/services/stockmovement.service.ts:145-158 | a draw records one SALE movement and one consumed entry matching it |
| StockMovementService.DrawSound | apps/commerce/src/services/stockmovement.service.ts:147 | a draw keeps the ledger |
| StockMovementService.DrawCovers | apps/commerce/src/services/stockmovement.service.ts:143-158 | a draw takes the smaller of the batch stock and what remains |
| StockMovementService.RemainingStep | apps/commerce/src/services/stockmovement.service.ts:143-158 | after each batch what remains is the request less the stock seen so far, never below 0 |
| StockMovementService.WalkEnds | apps/commerce/src/services/stockmovement.service.ts:140-141 | when the walk ends, what remains is the request less all the listed stock, never below 0 |
| StockMovementService.RemainingAtEnd | apps/commerce/src/services/stockmovement.service.ts:141-158 | stopping early at 0 or at the end gives the same remainder |
| StockMovementService.ExpiringEarlierTodayHeadsList | apps/commerce/src/repositories/impl/batch.repository.ts:59-76 | a stocked ACTIVE batch that expired earlier today heads the sellable list, since the list counts from midnight |
| StockMovementService.TwoBatchesCover | apps/commerce/src/services/stockmovement.service.ts:125-133 | a batch that expired earlier today and a fresh batch holding the request pass the stock check |
| StockMovementService.ConsumeStockFefo | apps/commerce/src/services/stockmovement.service.ts:120-174 | a non-positive request and a stock below the request are refused with their messages, changing nothing; a reported success is consistent; when a stocked batch expired earlier today it always fails |
| StockMovementService.ConsumeStockFefoFixed | apps/commerce/src/services/stockmovement.service.ts:120-174 | with the batches that already expired left out, a valid store serves exactly the requests the total stock covers, consuming exactly the request and keeping the ledger |
| StockMovementService.SameIdKeepsUniqueIds | apps/commerce/src/repositories/impl/batch.repository.ts:23-29 | saving a row under its own id keeps ids unique |
| StockMovementService.DrawStep | apps/commerce/src/services/stockmovement.service.ts:145-158 | drawing from the first of a drawable list succeeds and leaves the rest drawable |
| StockMovementService.DrawableTail | apps/commerce/src/services/stockmovement.service.ts:140 | the rest of a drawable list is drawable |
| StockMovementService.DrawGranted | apps/commerce/src/services/stockmovement.service.ts:147 | a draw from an ACTIVE unexpired batch succeeds and replaces only its row |
| StockMovementService.OthersStay | apps/commerce/src/services/stockmovement.service.ts:147 | drawing one batch leaves the other listed batches stored as they were |
| StockMovementService.UnexpiredHoldTotal | apps/commerce/src/repositories/impl/batch.repository.ts:86-96 | the unexpired sellable batches hold exactly the total stock |
| StockMovementService.SellableUnexpiredTotal | apps/commerce/src/repositories/impl/batch.repository.ts:86-96 | the total stock is the unexpired quantity of the sellable batches |
| StockMovementService.UnexpiredDrawable | apps/commerce/src/services/stockmovement.service.ts:143-147 | every unexpired sellable batch can be drawn |
| StockMovementService.RegisterExpiredRemoval | apps/commerce/src/services/stockmovement.service.ts:177-192 | a missing batch and a batch with no stock are refused in that order; a failure changes nothing |
| StockMovementService.RegisterExpiredRemovalEmpties | apps/commerce/src/services/stockmovement.service.ts:177-192 | succeeds exactly for an ACTIVE, unexpired batch with stock, leaving it at 0 with one EXPIRED_REMOVAL movement of its whole stock |
| StockMovementService.RemovalApplies | apps/commerce/src/services/stockmovement.service.ts:187-191 | the removal is the movement of the batch's whole stock |
| StockMovementService.RegisterExpiredRemovalKeepsInvariant | apps/commerce/src/services/stockmovement.service.ts:177-192 | the removal keeps the stock ledger |
| StockMovementService.GroupsOf | apps/commerce/src/repositories/impl/stockmovement.repository.ts:116-132 | each group is the count and delta total of one movement type that occurs |
| StockMovementService.AbsentKind | apps/commerce/src/repositories/impl/stockmovement.repository.ts:116-132 | a type that never occurs has count and total 0 |
| StockMovementService.GroupsOfSums | apps/commerce/src/repositories/impl/stockmovement.repository.ts:116-132 | the groups together count and total exactly the movements of the listed types |
| StockMovementService.GroupsOfCounts | apps/commerce/src/repositories/impl/stockmovement.repository.ts:116-132 | the group counts add up to the movements of the listed types |
| StockMovementService.GroupsOfTotals | apps/commerce/src/repositories/impl/stockmovement.repository.ts:116-132 | the group totals add up to the deltas of the listed types |
| StockMovementService.GroupByTypeSums | apps/commerce/src/services/stockmovement.service.ts:249-256 | the groups count every movement once and their totals add up to the total delta |
| StockMovementService.EveryKindListed | apps/commerce/src/services/stockmovement.service.ts:249-256 | every movement type is among those grouped |
| StockMovementService.SumOfOnes | apps/commerce/src/services/stockmovement.service.ts:253 | counting each movement once gives the number of movements |
| StockMovementService.ProductMovementSummary | apps/commerce/src/services/stockmovement.service.ts:203-234 | the groups are those of the product's movements in the period; in and out are never negative and net is the sum of the deltas |
| StockMovementService.BatchMovementHistory | apps/commerce/src/services/stockmovement.service.ts:236-259 | exactly the batch's movements in the period, newest first, with a summary that counts each once and totals their deltas |
| StockMovementService.HistoryMatchesStock | apps/commerce/src/services/stockmovement.service.ts:236-280 | in a valid store the batch's whole history totals its current quantity |
| StockMovementService.VerifyStockIntegrity | apps/commerce/src/services/stockmovement.service.ts:262-280 | true exactly when the batch is found and its quantity equals its movement total; a missing batch is refused; the answer is never false |
| StockMovementService.IntegrityHolds | apps/commerce/src/services/stockmovement.service.ts:262-280 | in a valid store every batch passes the integrity check |
| ProductService.FindById | apps/commerce/src/repositories/impl/product.repository.ts:54-61 | the first product with the id that is not soft-deleted; none exactly when there is none |
| ProductService.TrimOption | apps/commerce/src/services/product.service.ts:47-50 | an absent text stays absent, a present one is trimmed |
| ProductService.NewRow | apps/commerce/src/services/product.service.ts:42-52 | the new product has the trimmed name, the kiosk, price, duration and photos given (none means no photos), and starts active and not deleted |
| ProductService.Create | apps/commerce/src/services/product.service.ts:17-55 | refused exactly when the untrimmed name is taken in the kiosk, the price is not a positive number or the duration is not positive, in that order and changing nothing; otherwise the new row is appended and found under its id |
| ProductService.CreateFixed | apps/commerce/src/services/product.service.ts:17-55 | with the trimmed name checked, refused exactly when that name is taken, the price is invalid or the duration is not positive; otherwise the row is appended |
| ProductService.CreateFixedKeepsNamesUnique | apps/commerce/src/services/product.service.ts:17-55 | checking the trimmed name keeps product names unique within each kiosk |
| ProductService.CreateAdmitsDuplicate | apps/commerce/src/services/product.service.ts:19-44 | a name with a trailing space passes the check and is stored trimmed, duplicating an existing name |
| ProductService.TrimTrailingSpace | apps/commerce/src/services/product.service.ts:44 | trimming removes a single trailing space |
| ProductService.Update | apps/commerce/src/services/product.service.ts:60-122 | a missing product is refused; it succeeds exactly when the kiosk is not changed, a new name is free, a given price is valid and a given duration positive; on success only that row is replaced; on failure nothing changes |
| ProductService.UpdateKeepsUnsupplied | apps/commerce/src/services/product.service.ts:60-122 | id, kiosk, state and dates never change, and every field the form leaves out keeps its value; an empty form changes nothing |
| ProductService.SearchAll | apps/commerce/src/repositories/impl/product.repository.ts:106-121 | exactly the products that match the query, newest first |
| ProductService.SearchActiveByName | apps/commerce/src/services/product.service.ts:177-191 | a query shorter than 2 characters after trimming is refused; otherwise the first 50 matches of the trimmed query, newest first, cut to a positive limit when one is given |
| ProductService.SearchResultsMatch | apps/commerce/src/services/product.service.ts:177-191 | every result matches the trimmed query, newest first, at most 50 and at most the limit |
| ProductService.FindRecentlyAdded | apps/commerce/src/services/product.service.ts:244-249 | a limit outside 1..100 is refused; otherwise the newest listed products, at most the limit of them, newest first: every listed product left out was created no later than each one returned, and all of them are returned when fewer exist |
| ProductService.NewestPrefix | apps/commerce/src/repositories/impl/product.repository.ts:141-149 | taking the first rows of a newest-first listing keeps the newest ones: nothing left out was created later than anything taken |
| ProductService.Deactivate | apps/commerce/src/services/product.service.ts:196-207 | succeeds exactly for a found active product, which becomes inactive and nothing else changes |
| ProductService.Activate | apps/commerce/src/services/product.service.ts:212-223 | succeeds exactly for a found inactive product, which becomes active and nothing else changes |
| ProductService.ActivationRoundTrip | apps/commerce/src/services/product.service.ts:196-223 | activating undoes deactivating, and neither can be repeated |
| ProductService.FirstFound | apps/commerce/src/repositories/impl/product.repository.ts:54-61 | the first undeleted product with the id is the one found |
| ProductService.Remove | apps/commerce/src/services/product.service.ts:228-235 | succeeds exactly for a found product, which is no longer found: its row gets deletedAt set to now with every other field kept, and every other row is kept |
| ProductService.ValidateProductForOrder | apps/commerce/src/services/product.service.ts:263-293 | valid exactly for a found active product, which is returned; otherwise an error and no product; a missing product is reported as not found |
| ProductService.ValidationNeverReportsDeleted | apps/commerce/src/services/product.service.ts:274-279 | the 'Product has been deleted' answer can never be given, since the lookup already skips deleted products |
| ReservationRepository.FindActiveByOrderId | apps/commerce/src/repositories/impl/reservation.repository.ts:91-100 | exactly the order's ACTIVE reservations that have not expired |
| ReservationRepository.HasActiveReservations | apps/commerce/src/repositories/impl/reservation.repository.ts:362-371 | true exactly when the order has an ACTIVE unexpired reservation, that is when the finder returns one |
| ReservationRepository.FindExpiredActive | apps/commerce/src/repositories/impl/reservation.repository.ts:165-174 | exactly the ACTIVE reservations whose expiry has passed |
| ReservationRepository.TotalReservedIsActiveSum | apps/commerce/src/repositories/impl/reservation.repository.ts:193-202 | the reserved total of a batch is the quantity of its ACTIVE reservations, 0 when it has none |
| ReservationRepository.Transition | apps/commerce/src/repositories/impl/reservation.repository.ts:248-309 | a bulk status update changes the status of exactly the selected ACTIVE rows and nothing else |
| ReservationRepository.Affected | apps/commerce/src/repositories/impl/reservation.repository.ts:260-309 | the affected count is at most the number of rows and 0 exactly when no row is selected |
| ReservationRepository.CountStatus | apps/commerce/src/repositories/impl/reservation.repository.ts:248-309 | a status count never exceeds the number of rows |
| ReservationRepository.TransitionCount | apps/commerce/src/repositories/impl/reservation.repository.ts:248-309 | the affected rows leave ACTIVE and join the new status, one for one |
| ReservationRepository.TransitionGains | apps/commerce/src/repositories/impl/reservation.repository.ts:248-309 | the new status gains exactly the affected rows |
| ReservationRepository.TransitionLeaves | apps/commerce/src/repositories/impl/reservation.repository.ts:248-309 | ACTIVE loses exactly the affected rows |
| ReservationRepository.TransitionReserved | apps/commerce/src/repositories/impl/reservation.repository.ts:193-309 | a batch's reserved total drops by exactly the quantity of its rows that left ACTIVE |
| ReservationRepository.ReleaseForOrder | apps/commerce/src/repositories/impl/reservation.repository.ts:248-261 | the order's ACTIVE rows become RELEASED, nothing else changes, and the count is the number released |
| ReservationRepository.ConsumeForOrder | apps/commerce/src/repositories/impl/reservation.repository.ts:280-293 | the order's ACTIVE rows become CONSUMED, nothing else changes, and the count is the number consumed |
| ReservationRepository.ReleaseByIds | apps/commerce/src/repositories/impl/reservation.repository.ts:263-278 | the listed ACTIVE rows become RELEASED, nothing else changes, the count is the number released, and an empty list does nothing |
| ReservationRepository.MarkExpired | apps/commerce/src/repositories/impl/reservation.repository.ts:295-310 | exactly the ACTIVE rows past their expiry become EXPIRED, the count is their number, and afterwards no expired row is ACTIVE |
| ReservationRepository.ExtendWhere | apps/commerce/src/repositories/impl/reservation.repository.ts:231-245 | exactly the selected rows get their expiry moved by the minutes |
| ReservationRepository.ExtendForOrder | apps/commerce/src/repositories/impl/reservation.repository.ts:231-245 | the order's ACTIVE unexpired rows are extended, nothing else changes, and the count is 0 exactly when the order has no live reservation |
| ReservationRepository.UpdatesKeepSettledRows | apps/commerce/src/repositories/impl/reservation.repository.ts:231-310 | no bulk update touches a row that is no longer ACTIVE |
| ReservationService.AdjustFor | apps/commerce/src/services/reservation.service.ts:148-179 | every batch's reserved counter drops, and on consumption its stock too, by exactly the quantity of the selected ACTIVE rows on that batch; the batch count is kept |
| ReservationService.AdjustForKeepsCounters | apps/commerce/src/services/reservation.service.ts:143-246 | decrementing the counters for the rows a bulk update moves out of ACTIVE keeps every batch's reserved counter equal to its ACTIVE total |
| ReservationService.ReleaseByOrder | apps/commerce/src/services/reservation.service.ts:143-164 | the counters drop for the order's live ACTIVE rows only, while every ACTIVE row of the order, expired or not, becomes RELEASED |
| ReservationService.ReleaseByOrderLeaks | apps/commerce/src/services/reservation.service.ts:143-164 | one expired ACTIVE reservation of the order: after the release its batch still counts it as reserved although no ACTIVE row remains, so the counter no longer agrees |
| ReservationService.LeakedCounter | apps/commerce/src/services/reservation.service.ts:145-153 | the counter drops only by the order's unexpired ACTIVE quantity |
| ReservationService.LeakedTotal | apps/commerce/src/services/reservation.service.ts:156 | the reserved total drops by the order's whole ACTIVE quantity, expired rows included |
| ReservationService.ReleaseByOrderFixed | apps/commerce/src/services/reservation.service.ts:143-164 | the release with the counters adjusted for every row it releases: the same rows and count, and agreeing counters stay agreeing |
| ReservationService.ReleaseByOrderWhenLive | apps/commerce/src/services/reservation.service.ts:143-164 | when none of the order's ACTIVE rows has expired, the release as written equals the fixed one and keeps the counters agreeing |
| ReservationService.ReleasedOrderHasNoActive | apps/commerce/src/services/reservation.service.ts:143-164 | after a release no reservation of the order is ACTIVE |
| ReservationService.ReleaseReservationsByIds | apps/commerce/src/services/reservation.service.ts:193-216 | the listed ACTIVE rows become RELEASED with their batches' counters decremented, an empty list changes nothing and answers 0, and agreeing counters stay agreeing |
| ReservationService.ConsumeByOrder | apps/commerce/src/services/reservation.service.ts:167-190 | no live ACTIVE reservation: nothing changes and 0; otherwise the order's rows become CONSUMED, stock and reserved drop together, and the count is positive |
| ReservationService.ConsumeKeepsCountersWhenLive | apps/commerce/src/services/reservation.service.ts:167-190 | with live reservations the consumption keeps the counters agreeing and takes each batch's stock down by the order's reserved quantity on it |
| ReservationService.ProcessExpired | apps/commerce/src/services/reservation.service.ts:219-246 | nothing expired: nothing changes and 0; afterwards no ACTIVE reservation has expired, and agreeing counters stay agreeing |
| ReservationService.ExtendKeepsTotals | apps/commerce/src/repositories/impl/reservation.repository.ts:231-245 | moving expiry dates changes no batch's reserved total |
| ReservationService.ExtendForAcceptedOrder | apps/commerce/src/services/reservation.service.ts:129-140 | the order's live reservations get 20 more minutes, nothing else changes, and the counters keep agreeing |
| ReservationService.ReserveFrom | apps/commerce/src/services/reservation.service.ts:74-112 | the walk over the batches appends rows after the existing ones, reports their positions, and does nothing once the quantity is covered or the batches run out |
| ReservationService.ReserveFromStep | apps/commerce/src/services/reservation.service.ts:77-111 | a batch with stock left gets a row for min(remaining, available) and the walk goes on; a batch without is skipped |
| ReservationService.ReserveFromTotal | apps/commerce/src/services/reservation.service.ts:86-110 | the new rows' quantities plus what is still missing equal the requested quantity, and the shortfall is never negative |
| ReservationService.ReserveFromRows | apps/commerce/src/services/reservation.service.ts:89-100 | every new row is on one of the product's candidate batches with a positive quantity no larger than its availability |
| ReservationService.ReserveFromBatches | apps/commerce/src/services/reservation.service.ts:103-107 | every batch's reserved counter rises by exactly its share of the new rows |
| ReservationService.ReserveFromKeepsCounters | apps/commerce/src/services/reservation.service.ts:77-112 | the walk keeps every batch's reserved counter equal to its ACTIVE total |
| ReservationService.SimulateFrom | apps/commerce/src/services/reservation.service.ts:369-392 | the simulated allocations are positive quantities of the product, at most one per batch, and none when nothing is wanted |
| ReservationService.SimulateShortfall | apps/commerce/src/services/reservation.service.ts:374-394 | what the simulation leaves uncovered is the request minus the product's total availability, never below 0 |
| ReservationService.SimulateTotal | apps/commerce/src/services/reservation.service.ts:381-390 | the allocated quantities plus the shortfall equal the request |
| ReservationService.ReserveAsSimulated | apps/commerce/src/services/reservation.service.ts:365-412 | reserving and simulating over the same batches and availabilities pick the same batches and quantities and leave the same shortfall |
| ReservationService.SimulateFromStep | apps/commerce/src/services/reservation.service.ts:380-391 | a batch with stock left gets an allocation of min(remaining, available) ahead of the rest |
| ReservationService.ReleaseFrom | apps/commerce/src/services/reservation.service.ts:115-117 | the rollback of the rows just made is the release by their ids and leaves the earlier rows alone |
| ReservationService.ReserveForProduct | apps/commerce/src/services/reservation.service.ts:63-126 | no candidate batch is refused with the source's message; only the batches and reservations change, existing rows are kept, and success reports the positions of the appended rows |
| ReservationService.ReserveForProductSucceeds | apps/commerce/src/services/reservation.service.ts:63-126 | the reservation succeeds exactly when there are candidate batches and their total availability covers the quantity, and then the new rows add up to it |
| ReservationService.ReserveForProductKeepsCounters | apps/commerce/src/services/reservation.service.ts:63-126 | reserving, including a rolled-back shortfall, keeps the counters agreeing |
| ReservationService.ReserveShortfallRollsBack | apps/commerce/src/services/reservation.service.ts:114-123 | outside a transaction a shortfall puts every batch counter back and leaves each row it made RELEASED |
| ReservationService.ReserveForProductRows | apps/commerce/src/services/reservation.service.ts:89-100 | every row made belongs to the order and kiosk, is ACTIVE and has the requested expiry |
| ReservationService.ReserveItems | apps/commerce/src/services/reservation.service.ts:39-43 | the items are reserved in order, the rows appended after the existing ones, and success lists exactly the new rows |
| ReservationService.ReserveItemsKeepsCounters | apps/commerce/src/services/reservation.service.ts:39-43 | reserving every item keeps the counters agreeing |
| ReservationService.ReserveItemsRows | apps/commerce/src/services/reservation.service.ts:39-43 | every row made for the items belongs to the order and kiosk, is ACTIVE and has the expiry |
| ReservationService.ReserveItemsSplit | apps/commerce/src/services/reservation.service.ts:39-43 | a successful request is the first item's reservation followed by the rest's |
| ReservationService.CreateReservations | apps/commerce/src/services/reservation.service.ts:28-61 | success is the item-by-item reservation with the expiry now + minutes (15 by default); a failure outside a transaction leaves no ACTIVE reservation of the order |
| ReservationService.CreateReservationsKeepsCounters | apps/commerce/src/services/reservation.service.ts:28-61 | creating reservations keeps the counters agreeing, given live rows for the order when the rollback can run |
| ReservationService.CreateReservationsRows | apps/commerce/src/services/reservation.service.ts:28-61 | on success the old rows are kept and each returned row is a new ACTIVE row for the order, kiosk and expiry |
| ReservationService.ItemAvailability | apps/commerce/src/services/reservation.service.ts:262-280 | the answer echoes the product and quantity, the available quantity is never negative and both flags agree |
| ReservationService.CheckStockAvailability | apps/commerce/src/services/reservation.service.ts:249-297 | an invalid item fails the whole call; otherwise one answer per item, in order |
| ReservationService.AvailabilityMatchesReservation | apps/commerce/src/services/reservation.service.ts:262-280 | an item is reported as sufficient exactly when reserving it would succeed, and exactly when the simulation covers it |
| ReservationService.SimulateAllocation | apps/commerce/src/services/reservation.service.ts:365-412 | one allocation list per item, and an error exactly when some item cannot be covered |
| ReservationService.SimulateItemCovers | apps/commerce/src/services/reservation.service.ts:369-399 | an item's simulation succeeds exactly when the availability covers it, and then the allocations add up to the quantity |
| ReservationService.GetBatchAvailableQuantity | apps/commerce/src/services/reservation.service.ts:336-352 | a missing batch is refused with its not-found message, otherwise the stock minus the ACTIVE reserved total |
| ReservationService.AvailableFromCounters | apps/commerce/src/services/reservation.service.ts:336-352 | with agreeing counters the answer is the batch's stock minus its reserved counter |
| OrderRepository.FindById | apps/commerce/src/repositories/impl/order.repository.ts:37-41 | the position of an order with the id, none exactly when no order has it |
| OrderRepository.Patched | apps/commerce/src/repositories/impl/order.repository.ts:28-33 | an update writes the fields the patch gives, keeps the others and stamps updatedAt |
| OrderRepository.Update | apps/commerce/src/repositories/impl/order.repository.ts:28-33 | only the order with the id is patched; every other row is unchanged |
| OrderRepository.PatchedIdempotent | apps/commerce/src/repositories/impl/order.repository.ts:28-33 | applying the same patch twice at the same time is applying it once |
| OrderRepository.UpdateKeepsIds | apps/commerce/src/repositories/impl/order.repository.ts:28-33 | an update never changes which order a lookup by id finds |
| OrderRepository.MarkAccepted | apps/commerce/src/repositories/impl/order.repository.ts:126-132 | the order becomes ACCEPTED with acceptedAt set to now; every other row is unchanged |
| OrderRepository.MarkRejected | apps/commerce/src/repositories/impl/order.repository.ts:134-140 | the order becomes REJECTED with rejectedAt set to now; every other row is unchanged |
| OrderRepository.MarkReadyForPayment | apps/commerce/src/repositories/impl/order.repository.ts:142-148 | the order becomes READY_FOR_PAYMENT with the given expiry; every other row is unchanged |
| OrderRepository.MarkPaid | apps/commerce/src/repositories/impl/order.repository.ts:150-156 | the order becomes PAID with paidAt set to now; every other row is unchanged |
| OrderRepository.MarkCancelRequested | apps/commerce/src/repositories/impl/order.repository.ts:177-182 | the order becomes CANCEL_REQUESTED; every other row is unchanged |
| OrderRepository.MarkCancelled | apps/commerce/src/repositories/impl/order.repository.ts:184-189 | the order becomes CANCELLED; every other row is unchanged |
| OrderRepository.MarkIgnoresCurrentStatus | apps/commerce/src/repositories/impl/order.repository.ts:126-189 | the status writes do not look at the status the order had |
| OrderRepository.MarkExpiredOrders | apps/commerce/src/repositories/impl/order.repository.ts:160-175 | exactly the PENDING_KIOSK_CONFIRMATION orders created before the threshold become AUTO_REJECTED_TIMEOUT, and the count is their number |
| OrderRepository.MarkExpiredOrdersSettles | apps/commerce/src/repositories/impl/order.repository.ts:160-175 | afterwards no stale pending order is left, so a second run changes nothing and answers 0 |
| OrderRepository.Take | apps/commerce/src/repositories/impl/order.repository.ts:197-237 | a page is the first limit rows, or all of them when the limit is not positive or not reached |
| OrderRepository.TakeOfFilter | apps/commerce/src/repositories/impl/order.repository.ts:191-209 | a page of a filter holds only matching rows, and every matching row when they fit |
| OrderRepository.FindPendingExpired | apps/commerce/src/repositories/impl/order.repository.ts:191-199 | at most 200 pending orders whose expiry has passed, and all of them when there are no more than 200 |
| OrderRepository.FindPaymentExpired | apps/commerce/src/repositories/impl/order.repository.ts:201-209 | at most 200 ACCEPTED or READY_FOR_PAYMENT orders whose expiry has passed, and all of them when there are no more than 200 |
| OrderRepository.ByExpiry | apps/commerce/src/repositories/impl/order.repository.ts:236 | the orders by ascending expiry, the undated ones last, with the same members |
| OrderRepository.FindMany | apps/commerce/src/repositories/impl/order.repository.ts:211-240 | only orders matching every given filter, ordered by expiry, as many as match up to the limit (200 by default) |
| OrderRepository.FindManyComplete | apps/commerce/src/repositories/impl/order.repository.ts:211-240 | when the matches fit in the limit every matching order is returned |
| OrderService.TerminalIsFinal | apps/commerce/src/services/order.service.ts:99-313 | no operation moves an order out of REJECTED, CANCELLED or AUTO_REJECTED_TIMEOUT; only the timeout answers, leaving it where it is |
| OrderService.PaidLeavesOnlyByCancelRequest | apps/commerce/src/services/order.service.ts:186-283 | a PAID order can only go to CANCEL_REQUESTED (the timeout leaves it alone) |
| OrderService.StatusOf | apps/commerce/src/repositories/impl/order.repository.ts:37-41 | an order's status is known exactly when the order exists, and is the stored one |
| OrderService.NewOrder | apps/commerce/src/services/order.service.ts:45-48 | the saved order is the draft with status PENDING_KIOSK_CONFIRMATION |
| OrderService.StampedItems | apps/commerce/src/services/order.service.ts:51-57 | every item is saved as given with the new order's id |
| OrderService.RequestedItems | apps/commerce/src/services/order.service.ts:65-68 | one reservation request per item, with its product and quantity |
| OrderService.CreateOrderWithItemsAndReserveStock | apps/commerce/src/services/order.service.ts:35-89 | a failure rolls the whole transaction back; success appends the pending order and its items and only adds reservations |
| OrderService.CreateOrderReserves | apps/commerce/src/services/order.service.ts:36-71 | every reservation made belongs to the new order and its kiosk, is ACTIVE and expires after the minutes asked for, 15 by default |
| OrderService.CreateOrderKeepsCounters | apps/commerce/src/services/order.service.ts:35-89 | creating an order keeps every batch's reserved counter equal to its ACTIVE total |
| OrderService.AcceptOrder | apps/commerce/src/services/order.service.ts:99-120 | a missing order or one not pending is refused and nothing is written; otherwise the live reservations are extended and the order is ACCEPTED at now |
| OrderService.RejectOrder | apps/commerce/src/services/order.service.ts:128-149 | a missing order or one not pending is refused and nothing is written; otherwise the reservations are released and the order is REJECTED at now |
| OrderService.MarkOrderReadyForPayment | apps/commerce/src/services/order.service.ts:156-175 | only an ACCEPTED order moves to READY_FOR_PAYMENT with the expiry; every refusal writes nothing |
| OrderService.PaidPatch | apps/commerce/src/services/order.service.ts:203-208 | the payment write sets PAID and paidAt and keeps the old payment info when none is given |
| OrderService.MarkOrderAsPaid | apps/commerce/src/services/order.service.ts:186-218 | only an ACCEPTED or READY_FOR_PAYMENT order is paid: its reservations are consumed and it becomes PAID with the payment info; every refusal writes nothing |
| OrderService.CancellationRequested | apps/commerce/src/services/order.service.ts:227-256 | a PAID order becomes CANCEL_REQUESTED; a pending, accepted or ready order has its reservations released and becomes CANCELLED; any other status is refused without a write |
| OrderService.CancelOrderFinal | apps/commerce/src/services/order.service.ts:261-283 | only a CANCEL_REQUESTED order is cancelled, its reservations released first when it has live ones |
| OrderService.AutoRejectTimeout | apps/commerce/src/services/order.service.ts:292-313 | a missing order is refused; a pending one has its reservations released and becomes AUTO_REJECTED_TIMEOUT; any other is left alone without error |
| OrderService.AutoRejectTimeoutIdempotent | apps/commerce/src/services/order.service.ts:292-313 | running the timeout again on the same order changes nothing |
| OrderService.Forget | apps/commerce/src/services/order.service.ts:156-283 | dropping the returned order keeps the store and the verdict |
| OrderService.PerformFollowsTable | apps/commerce/src/services/order.service.ts:99-313 | every operation succeeds exactly when the lifecycle table allows its move from the order's status, and leaves the order in the table's status |
| OrderService.LandsOn | apps/commerce/src/services/order.service.ts:99-313 | a successful move keeps the order in its place and lands on the status the table gives |
| OrderService.PerformKeepsCounters | apps/commerce/src/services/order.service.ts:99-313 | every lifecycle operation keeps the batch counters agreeing with the ACTIVE reservations, given live reservations where one releases or consumes them |
| OrderService.RefusalWritesNothing | apps/commerce/src/services/order.service.ts:99-313 | a missing order or a move the table refuses is an error and leaves the store untouched |
| OrderMaintenance.AutoRejectPendingOrders | apps/commerce/src/services/order-mainteinance.service.ts:18-42 | an empty page of stale pending orders leaves the store as it was |
| OrderMaintenance.CancelExpiredPaymentOrders | apps/commerce/src/services/order-mainteinance.service.ts:45-69 | an empty page of expired unpaid orders leaves the store as it was |
| OrderMaintenance.PageSize | apps/commerce/src/services/order-mainteinance.service.ts:22-53 | a job handles at most 200 orders per run |
| OrderMaintenance.InPendingPage | apps/commerce/src/services/order-mainteinance.service.ts:22-26 | the timeout job picks only pending orders whose expiry has passed |
| OrderMaintenance.InPaymentPage | apps/commerce/src/services/order-mainteinance.service.ts:49-53 | the payment job picks only ACCEPTED or READY_FOR_PAYMENT orders whose expiry has passed |
| OrderMaintenance.AfterIdempotent | apps/commerce/src/services/order-mainteinance.service.ts:32-68 | running a job's operation twice on an order ends where running it once does |
| OrderMaintenance.PerformStatus | apps/commerce/src/services/order-mainteinance.service.ts:32-68 | one step of a job moves the order it names to the operation's status, or leaves it when the operation fails, and no other order |
| OrderMaintenance.PerformLeavesOthers | apps/commerce/src/services/order.service.ts:227-313 | an operation on one order leaves every other order's status alone |
| OrderMaintenance.PerformWritesOnePatch | apps/commerce/src/services/order.service.ts:227-313 | whatever an operation writes to the orders is a single update of the order it names |
| OrderMaintenance.RunJobStatus | apps/commerce/src/services/order-mainteinance.service.ts:32-68 | a failing order does not stop the loop: each listed order ends in the operation's status and every other keeps its own |
| OrderMaintenance.JobOverPage | apps/commerce/src/services/order-mainteinance.service.ts:32-68 | over a page whose orders all settle on one status, those orders end there and the rest keep their status |
| OrderMaintenance.AutoRejectJobOutcome | apps/commerce/src/services/order-mainteinance.service.ts:18-42 | after the timeout job every order on its page is AUTO_REJECTED_TIMEOUT and every other order keeps its status |
| OrderMaintenance.PendingPageSettles | apps/commerce/src/services/order-mainteinance.service.ts:22-34 | every order the timeout job picks is one the timeout moves to AUTO_REJECTED_TIMEOUT |
| OrderMaintenance.PaymentJobOutcome | apps/commerce/src/services/order-mainteinance.service.ts:45-69 | after the payment job every order on its page is CANCELLED and every other order keeps its status |
| OrderMaintenance.PaymentPageSettles | apps/commerce/src/services/order-mainteinance.service.ts:49-61 | every order the payment job picks is one a cancellation request moves to CANCELLED |
| CartRepository.FindById | apps/commerce/src/repositories/impl/cart.repository.ts:39-46 | a live cart with the id, none exactly when every cart with it is soft-deleted |
| CartRepository.FindActiveByUserId | apps/commerce/src/repositories/impl/cart.repository.ts:67-75 | a live ACTIVE cart of the user, none exactly when the user has no such cart |
| CartRepository.FindersSkipDeleted | apps/commerce/src/repositories/impl/cart.repository.ts:39-75 | a soft-deleted cart is never what the finders return |
| CartRepository.UpdateStatus | apps/commerce/src/repositories/impl/cart.repository.ts:88-98 | an unknown or deleted cart is refused with 'Cart not found'; otherwise the stored cart now has the status, and every other cart is unchanged |
| CartRepository.UpdateActivity | apps/commerce/src/repositories/impl/cart.repository.ts:100-105 | only lastActivityAt and updatedAt of the cart with the id change |
| CartRepository.UpdateActivityKeepsFinders | apps/commerce/src/repositories/impl/cart.repository.ts:100-105 | touching a cart changes neither finder's answer |
| CartRepository.MarkAbandonedCarts | apps/commerce/src/repositories/impl/cart.repository.ts:107-125 | the bulk update keeps every cart's id, user and deletion mark |
| CartRepository.MarkAbandonedCount | apps/commerce/src/repositories/impl/cart.repository.ts:107-125 | the count is exactly the number of carts that became ABANDONED |
| CartRepository.MarkAbandonedSettles | apps/commerce/src/repositories/impl/cart.repository.ts:107-125 | every live ACTIVE cart idle since before the threshold becomes ABANDONED, every other cart is unchanged, and a second run changes nothing and answers 0 |
| CartRepository.CleanupOldAbandonedCarts | apps/commerce/src/repositories/impl/cart.repository.ts:127-135 | the bulk soft delete keeps every cart's id and status |
| CartRepository.CleanupCount | apps/commerce/src/repositories/impl/cart.repository.ts:127-135 | the live carts afterwards are exactly those that were live and not abandoned before the cleanup date |
| CartRepository.CleanupHidesOldCarts | apps/commerce/src/repositories/impl/cart.repository.ts:127-135 | every ABANDONED cart last updated before the date is soft-deleted and no longer found, every other cart is unchanged, and none such is left |
| CartRepository.ItemsOf | apps/commerce/src/repositories/impl/cart-item.repository.ts:51-56 | exactly the items of the cart |
| CartRepository.CountByCartId | apps/commerce/src/repositories/impl/cart-item.repository.ts:79-83 | the number of items of the cart, 0 exactly when it has none |
| CartRepository.FindItem | apps/commerce/src/repositories/impl/cart-item.repository.ts:38-42 | the position of the item with the id, none exactly when there is no such item |
| CartRepository.FindByCartAndProduct | apps/commerce/src/repositories/impl/cart-item.repository.ts:66-70 | the line of the product in the cart, none exactly when the cart has no such line |
| CartRepository.SetQuantity | apps/commerce/src/repositories/impl/cart-item.repository.ts:26-28 | only the quantity of the item with the id changes |
| CartRepository.DeleteItem | apps/commerce/src/repositories/impl/cart-item.repository.ts:30-32 | exactly the item with the id is removed |
| CartRepository.DeleteByCartId | apps/commerce/src/repositories/impl/cart-item.repository.ts:34-36 | exactly the cart's items are removed |
| CartRepository.DeleteByCartIdEmpties | apps/commerce/src/repositories/impl/cart-item.repository.ts:34-83 | after deleting a cart's items its count is 0 |
| CartService.CurrentQuantityIsSellableSum | apps/commerce/src/services/cart.service.ts:124-127 | the stock a cart may take is the sum of the current quantity of the product's active batches |
| CartService.CurrentQuantityIgnoresReserved | apps/commerce/src/services/cart.service.ts:124-127 | reservations do not lower the stock the cart checks against |
| CartService.ValidateProduct | apps/commerce/src/services/cart.service.ts:129-137 | a product passes exactly when it exists, is live and is active; otherwise 'Product not found or not available' |
| CartService.GetOrCreateCart | apps/commerce/src/services/cart.service.ts:28-41 | the user's live ACTIVE cart when there is one, with nothing written; otherwise a new ACTIVE cart for the user is appended |
| CartService.GetOrCreateCartIdempotent | apps/commerce/src/services/cart.service.ts:28-41 | asking again returns the same cart and creates nothing |
| CartService.UpdateItemQuantity | apps/commerce/src/services/cart.service.ts:82-104 | a non-positive quantity, a missing item or a quantity above the product's stock is refused without a write; otherwise only that item's quantity changes and its cart is touched |
| CartService.AddToLine | apps/commerce/src/services/cart.service.ts:64-68 | adding to an existing line sets it to the old plus the new quantity, only within the product's stock |
| CartService.PlaceLine | apps/commerce/src/services/cart.service.ts:62-79 | placing a line changes neither products nor batches, and a refusal writes nothing |
| CartService.AddItem | apps/commerce/src/services/cart.service.ts:49-80 | a non-positive quantity is refused first; then an unavailable product and a quantity above the stock are refused with their messages, leaving the items alone |
| CartService.AddItemPlaces | apps/commerce/src/services/cart.service.ts:54-79 | a successful add is getting the cart followed by placing the line in it |
| CartService.AddItemLine | apps/commerce/src/services/cart.service.ts:49-80 | after a successful add the cart holds exactly the quantity more of the product |
| CartService.AddItemWithinStock | apps/commerce/src/services/cart.service.ts:49-104 | after a successful add the product's line never exceeds its stock |
| CartService.AddItemKeepsOneLine | apps/commerce/src/services/cart.service.ts:62-76 | adding keeps at most one line per product in each cart |
| CartService.RemoveItem | apps/commerce/src/services/cart.service.ts:106-115 | a missing item is refused with 'Item not found in cart' and nothing changes; otherwise exactly that item goes |
| CartService.ClearCart | apps/commerce/src/services/cart.service.ts:117-120 | every item of the cart goes, the others stay, and the cart is touched |
| CartService.ValidateCartStock | apps/commerce/src/services/cart.service.ts:139-154 | a missing cart is refused; otherwise true exactly when every item's quantity is within its product's stock |
| CartService.TotalOf | apps/commerce/src/services/cart.service.ts:190-193 | the sum fails exactly when some item's product is missing, with the TypeError of reading its price |
| CartService.CalculateCartTotal | apps/commerce/src/services/cart.service.ts:183-194 | a missing cart or a line without its product fails; otherwise the total of the lines |
| CartService.ClearedCartTotalsZero | apps/commerce/src/services/cart.service.ts:117-194 | a cleared cart totals 0 |
| CartService.LinesOf | apps/commerce/src/services/cart.service.ts:224-231 | one summary line per item, failing exactly when an item's product is missing |
| CartService.GetCartSummary | apps/commerce/src/services/cart.service.ts:205-233 | the summary fails exactly when the total does; it reports the cart, the total, the item count, one line per item, and is empty exactly when the count is 0 |
| CartService.SummaryLines | apps/commerce/src/services/cart.service.ts:224-231 | each line repeats its item and its subtotal is price times quantity, unset exactly when the price does not parse |
| CartService.SummaryTotalIsSumOfLines | apps/commerce/src/services/cart.service.ts:212-231 | the summary's total is the sum of its lines' subtotals, an unparsable price counting 0 |
| CartService.TotalMatchesLines | apps/commerce/src/services/cart.service.ts:190-231 | the total computed on its own equals the sum of the summary lines |
| CartService.SyncItemPrices | apps/commerce/src/services/cart.service.ts:235-249 | a missing cart is refused with nothing changed; otherwise only cart items change |
| CartService.SyncItemPricesDeletesUnavailable | apps/commerce/src/services/cart.service.ts:235-249 | afterwards an item remains exactly when it belongs to another cart or its product is still available |
| CartService.UpdateCartStatus | apps/commerce/src/services/cart.service.ts:261-263 | a missing cart is refused; otherwise the cart has the status and only carts change |
| CartService.MarkAbandoned | apps/commerce/src/services/cart.service.ts:158-165 | the job touches only carts |
| CartService.CleanupOldAbandoned | apps/commerce/src/services/cart.service.ts:167-174 | the job touches only carts |
| CartService.MaintenanceOutcome | apps/commerce/src/services/cart.service.ts:176-179 | after maintenance no live ACTIVE cart has been idle more than 30 minutes, and each such cart is now ABANDONED and still live |
| RbacTables.FindById | apps/users/src/repositories/impl/roles.repository.ts:17-21 | the position of the row with the id, none exactly when no row has it |
| RbacTables.FindByName | apps/users/src/repositories/impl/roles.repository.ts:23-27 | the position of the row with the name, none exactly when no row has it |
| RbacTables.DeleteById | apps/users/src/repositories/impl/roles.repository.ts:37-40 | exactly the row with the id goes, so it is no longer found |
| RbacTables.DeleteKeepsUnique | apps/users/src/repositories/impl/roles.repository.ts:37-40 | deleting keeps names and ids unique |
| RbacTables.DeleteKeepsOtherIds | apps/users/src/repositories/impl/roles.repository.ts:37-40 | deleting one id leaves every other id findable exactly when it was |
| RbacTables.CreateNamed | apps/users/src/services/roles.service.ts:20-95 | an empty or missing name is refused, a taken name is refused, and otherwise the row with the generated id, the name and the description or '' is appended |
| RbacTables.CreateKeepsUnique | apps/users/src/services/roles.service.ts:86-95 | creation keeps names unique, and ids too when the generated id is new |
| RbacTables.CreateTwiceRefused | apps/users/src/services/roles.service.ts:86-95 | creating the same name a second time is refused as taken |
| RbacTables.UpdateNamed | apps/users/src/services/roles.service.ts:40-55 | an unknown id is refused; a new non-empty name already held by a row is refused; otherwise the row is saved in place with the new name and description where given |
| RbacTables.UpdateKeepsIds | apps/users/src/services/roles.service.ts:40-55 | an update keeps every id findable exactly when it was |
| RbacTables.UpdateKeepsUnique | apps/users/src/services/roles.service.ts:40-55 | updates keep names and ids unique |
| RbacTables.EmptyUpdateIsSave | apps/users/src/services/roles.service.ts:44-54 | a form with no name and an empty description saves the row unchanged |
| RolePermissionRepository.FindOneByIds | apps/users/src/repositories/impl/rolepermission.repository.ts:19-26 | true exactly when the role holds the permission |
| RolePermissionRepository.FindPermissionsByRole | apps/users/src/repositories/impl/rolepermission.repository.ts:28-36 | exactly the permissions linked to the role |
| RolePermissionRepository.FindRolesByPermission | apps/users/src/repositories/impl/rolepermission.repository.ts:38-45 | exactly the roles linked to the permission |
| RolePermissionRepository.Assign | apps/users/src/repositories/impl/rolepermission.repository.ts:47-52 | the pair is linked afterwards and no other link changes |
| RolePermissionRepository.AssignIdempotent | apps/users/src/repositories/impl/rolepermission.repository.ts:47-52 | assigning the same pair twice leaves one link |
| RolePermissionRepository.Remove | apps/users/src/repositories/impl/rolepermission.repository.ts:54-60 | the pair is unlinked, no other link changes, and the answer is true exactly when a link was deleted |
| RolePermissionRepository.AssignThenRemove | apps/users/src/repositories/impl/rolepermission.repository.ts:47-60 | removing undoes assigning a new pair, and a second removal finds nothing |
| RolePermissionRepository.RemovePermissionsByRole | apps/users/src/repositories/impl/rolepermission.repository.ts:62-68 | every link of the role goes, no other, and the count is the number it had, 0 exactly when the role had no permission |
| RolePermissionRepository.RemovePermissionFromRole | apps/users/src/repositories/impl/rolepermission.repository.ts:70-76 | every link of the permission goes, whatever the role, and the count is the number it had, 0 exactly when no role held it |
| RolePermissionRepository.RemoveByRoleClears | apps/users/src/repositories/impl/rolepermission.repository.ts:28-68 | after removing a role's links it has no permissions, and every other role keeps its own |
| RolesService.CreateRole | apps/users/src/services/roles.service.ts:20-95 | 'Role name is required' exactly when the name is missing or empty, 'Role name already exists' exactly when it is taken; a present, free name always succeeds and appends the role |
| RolesService.DeleteRole | apps/users/src/services/roles.service.ts:29-38 | 'Role not found' exactly when the role is missing; deleting an existing role always succeeds, removing the role and all its links while the permissions stay |
| RolesService.DeleteRoleKeepsLinksValid | apps/users/src/services/roles.service.ts:29-38 | after deleting a role every link still names an existing role and permission |
| RolesService.UpdateRole | apps/users/src/services/roles.service.ts:40-55 | 'Role not found' exactly when the role is missing, 'Role name already exists' exactly when a new name is taken; every other update of an existing role succeeds and saves it in place |
| RolesService.UpdateRoleKeepsLinksValid | apps/users/src/services/roles.service.ts:40-55 | an update keeps every link valid |
| RolesService.GetRole | apps/users/src/services/roles.service.ts:64-68 | 'Role not found' exactly when there is no role with the id; an existing role is always returned |
| RolesService.GetPermissionsByRole | apps/users/src/services/roles.service.ts:57-62 | 'Role not found' exactly when the role is missing; for an existing role exactly the permissions linked to it are returned |
| RolesService.AssignPermissionToRole | apps/users/src/services/roles.service.ts:70-75 | the role is checked first, then the permission; linking an existing role to an existing permission always succeeds |
| RolesService.AssignKeepsLinksValid | apps/users/src/services/roles.service.ts:70-75 | assigning keeps every link valid and the role then has the permission |
| RolesService.RemovePermissionFromRole | apps/users/src/services/roles.service.ts:77-82 | the role is checked first, then the permission; for an existing role and permission the pair is always unlinked, answering whether it was linked |
| RolesService.RemoveUndoesAssign | apps/users/src/services/roles.service.ts:70-82 | removing a pair just assigned restores the tables and answers true |
| PermissionService.CreatePermission | apps/users/src/services/permissions.service.ts:16-71 | 'Permission name is required' exactly when the name is missing or empty, 'Permissions name already exists' exactly when it is taken; a present, free name always succeeds and appends the permission |
| PermissionService.DeletePermission | apps/users/src/services/permissions.service.ts:25-34 | 'Permission not found' exactly when it is missing; deleting an existing permission always succeeds and removes every link that names it, for every role |
| PermissionService.DeletePermissionKeepsLinksValid | apps/users/src/services/permissions.service.ts:25-34 | after deleting a permission every link still names an existing role and permission |
| PermissionService.UpdatePermission | apps/users/src/services/permissions.service.ts:36-51 | 'Permission not found' exactly when it is missing, 'Permission name already exists' exactly when a new name is taken; every other update of an existing permission succeeds and saves it in place |
| PermissionService.UpdatePermissionKeepsLinksValid | apps/users/src/services/permissions.service.ts:36-51 | an update keeps every link valid |
| PermissionService.GetPermission | apps/users/src/services/permissions.service.ts:53-57 | 'Permission not found' exactly when there is no permission with the id; an existing permission is always returned |
| PermissionService.CreateAndUpdateTextsDiffer | apps/users/src/services/permissions.service.ts:42-68 | creation and update report a taken name with different texts ('Permissions' and 'Permission') |
| UserRepository.FindByEmail | apps/users/src/repositories/impl/users.repository.ts:17-21 | a live user with the email, none exactly when every user with it is soft-deleted or there is none |
| UserRepository.FindByPhone | apps/users/src/repositories/impl/users.repository.ts:23-27 | a live user with the phone, none exactly when there is no live one |
| UserRepository.FindByUsername | apps/users/src/repositories/impl/users.repository.ts:34-37 | a live user with the username, none exactly when there is no live one |
| UserRepository.FindById | apps/users/src/repositories/impl/users.repository.ts:28-32 | a live user with the id, none exactly when there is no live one |
| UserRepository.FindersSkipDeleted | apps/users/src/repositories/impl/users.repository.ts:17-37 | no finder returns a soft-deleted user |
| PhoneVerification.OtpKeyInjective | apps/users/src/services/phoneverification.service.ts:16-27 | different phones never share a code key |
| PhoneVerification.Get | apps/users/src/services/phoneverification.service.ts:27 | a code is read exactly when its key is stored and its expiry time is still ahead, and it is the stored code |
| PhoneVerification.OtpNumber | apps/users/src/services/phoneverification.service.ts:12 | the drawn number lies between 100000 and 999999 |
| PhoneVerification.OtpCode | apps/users/src/services/phoneverification.service.ts:12 | the code is six decimal digits and spells the drawn number |
| PhoneVerification.SixDigits | apps/users/src/services/phoneverification.service.ts:12 | every number from 100000 to 999999 prints as exactly six digits |
| PhoneVerification.SendOtp | apps/users/src/services/phoneverification.service.ts:11-23 | a six-digit code is stored under the phone's key for 300 seconds, replacing any earlier one, and no other key changes |
| PhoneVerification.VerifyOtp | apps/users/src/services/phoneverification.service.ts:25-31 | true exactly when a non-empty code equal to the stored unexpired one is given; then that key is deleted, otherwise nothing changes |
| PhoneVerification.VerifyOneShot | apps/users/src/services/phoneverification.service.ts:25-31 | a code verifies at most once |
| PhoneVerification.SendThenVerify | apps/users/src/services/phoneverification.service.ts:11-31 | the code just sent verifies exactly until it expires |
| PhoneVerification.ResendReplacesCode | apps/users/src/services/phoneverification.service.ts:11-31 | after a resend the old code verifies only if it happens to equal the new one |
| PhoneVerification.VerifyLeavesOtherPhones | apps/users/src/services/phoneverification.service.ts:25-31 | verifying one phone never touches another phone's code |
| UsersService.Scan | apps/users/src/services/users.service.ts:99-101 | one pass collects the password's UTF-16 length and whether it has an upper-case letter, a digit, a non-letter and a line terminator |
| UsersService.ValidatePassword | apps/users/src/services/users.service.ts:99-101 | true exactly when the password meets the rule of the regular expression |
| UsersService.NonLetterLookaheadRedundant | apps/users/src/services/users.service.ts:100 | the rule is: no line terminator, at least 8 UTF-16 units, an upper-case letter and a digit; the non-letter lookahead adds nothing, since a digit is one |
| UsersService.NoUpperFails | apps/users/src/services/users.service.ts:100 | a password without an upper-case ASCII letter fails |
| UsersService.ShortestPassing | apps/users/src/services/users.service.ts:100 | eight basic-plane characters without line terminators, with an upper-case letter and a digit, pass |
| UsersService.ValidateUser | apps/users/src/services/users.service.ts:65-97 | missing fields are reported in the order email, password, phone, username, with the code untouched; with all four given, a taken email is refused; a taken username or phone is the reason for those refusals; the code store changes only by a successful verification |
| UsersService.ValidateUserAccepts | apps/users/src/services/users.service.ts:65-97 | a registration passes exactly when all four fields are given, email, username and phone are free, the code verifies and the password meets the rule; the code is then gone |
| UsersService.WeakPasswordBurnsCode | apps/users/src/services/users.service.ts:89-96 | a form refused for its password has already spent its code |
| UsersService.CreateUser | apps/users/src/services/users.service.ts:18-24 | a refused form adds nothing and reports the validation's error; otherwise a live user with the form's fields and the hashed password is appended |
| UsersService.CreateUserTakesEmail | apps/users/src/services/users.service.ts:18-78 | registering again with the same email is refused as in use |
| UsersService.CreateOAuthUser | apps/users/src/services/users.service.ts:26-37 | the live user with the email when there is one, with nothing written; otherwise a new user with the email and username is appended |
| UsersService.CreateOAuthUserIdempotent | apps/users/src/services/users.service.ts:26-37 | a second OAuth sign-in with the same email creates nothing |
| UsersService.ResetPassword | apps/users/src/services/users.service.ts:39-61 | an unknown or deleted user and a user without a phone are refused with their own messages; success means both copies are equal and meet the rule; the code store changes only by a successful verification of the user's phone |
| UsersService.ResetPasswordAccepts | apps/users/src/services/users.service.ts:39-61 | the reset succeeds exactly when the user exists with a phone, the code verifies, the password meets the rule and both copies match |
| UsersService.ResetChecksCodeFirst | apps/users/src/services/users.service.ts:47-53 | a reset refused for its password has already verified and spent the code |
| AuthService.WithoutPassword | apps/users/src/services/auth.service.ts:41-42 | the returned user has every column but the password |
| AuthService.WithoutPasswordKeepsRest | apps/users/src/services/auth.service.ts:41-42 | two users with the same public view differ at most in their passwords |
| AuthService.Lookup | apps/users/src/services/auth.service.ts:22-30 | the live user with the given email when there is one, else the live user with the given phone; none exactly when neither is given or found |
| AuthService.ValidateUser | apps/users/src/services/auth.service.ts:19-44 | no user found gives null; a user with a password is returned only when a password is given and the comparison holds; a user without one needs none; the password is never returned |
| AuthService.UsernameNotUsed | apps/users/src/services/auth.service.ts:20-28 | the username in the form plays no part |
| AuthService.EmailBeforePhone | apps/users/src/services/auth.service.ts:24-28 | when the email names a live user, that user is the one checked |
| AuthService.DeletedUserRejected | apps/users/src/services/auth.service.ts:19-44 | a soft-deleted user is never returned |
| AuthService.OAuthUsername | apps/users/src/services/auth.service.ts:64 | the OAuth username is a prefix of the email without '@' |
| AuthService.OAuthUsernameLocalPart | apps/users/src/services/auth.service.ts:64 | the OAuth username is exactly the part before the first '@' |
| AuthService.ValidateOAuthUser | apps/users/src/services/auth.service.ts:61-67 | the account for the email is live; a new one takes the local part as its username; an existing one is reused unchanged |
| LegacyUsersService.ValidateUser | services/users/src/services/users.service.ts:27-51 | missing fields are reported in the order email, password, phone; the form passes exactly when email and phone are free and the code verifies; no username or password rule |
| LegacyUsersService.CreateUser | services/users/src/services/users.service.ts:17-23 | a form the validation refuses adds nothing and reports its error; a validated form without a username is refused by the NOT NULL column after its code is spent; otherwise the new user with the hashed password is appended |
| LegacyUsersService.MissingUsernameSpendsCode | services/users/src/services/users.service.ts:17-23 | a form with free email and phone, a matching code and no username spends the code and adds no user |
| LegacyUsersService.AppStricterThanLegacy | services/users/src/services/users.service.ts:27-51 | every registration the users app accepts, the standalone service accepts with the same effect |
| LegacyUsersService.WeakPasswordOnlyLegacy | services/users/src/services/users.service.ts:27-51 | a form with the password '123456' passes the standalone service and is refused by the users app for its password |
| LegacyUsersService.UsernameIgnored | services/users/src/services/users.service.ts:27-51 | the standalone service's answer does not depend on the username |
| KioskProfileService.FindByUserId | apps/users/src/repositories/impl/kioskprofile.repository.ts:16-21 | the index of a profile of the user, none exactly when no profile has that user |
| KioskProfileService.FindByName | apps/users/src/repositories/impl/kioskprofile.repository.ts:67-85 | the first profile with the kiosk or legal name whose user is live, none exactly when there is no such profile |
| KioskProfileService.Save | apps/users/src/repositories/impl/kioskprofile.repository.ts:57-65 | a profile with the same user id is replaced in place, otherwise the profile is appended; afterwards the user's profile is the saved one |
| KioskProfileService.Create | apps/users/src/services/kioskprofile.service.ts:16-26 | the user's profile holds the given texts, '' for each one left out, the ID document PENDING and cannot operate; a new profile has no signature; other users' profiles are unchanged |
| KioskProfileService.CreateKeepsConsistent | apps/users/src/services/kioskprofile.service.ts:16-26 | creation keeps every profile's operate flag equal to "all documents valid and declaration signed" |
| KioskProfileService.ValidateIdNumber | apps/users/src/services/kioskprofile.service.ts:140-145 | true exactly when the number is non-empty and has 7 to 10 decimal digits, whatever else it contains |
| KioskProfileService.DigitsOnlyCount | apps/users/src/services/kioskprofile.service.ts:143 | removing the non-digits leaves exactly the digits, counted once |
| KioskProfileService.IdNumberIgnoresSeparators | apps/users/src/services/kioskprofile.service.ts:140-145 | a non-empty number and its digits alone get the same verdict |
| KioskProfileService.IsNameFree | apps/users/src/services/kioskprofile.service.ts:147-163 | a name nobody live holds is free; a non-empty free name that is held belongs to the asking user |
| KioskProfileService.NameFreeMeansNoOther | apps/users/src/services/kioskprofile.service.ts:147-163 | while live names are unique, a name is free exactly when it is empty or every live profile with it is the asking user's |
| KioskProfileService.PatchKeepsUnique | apps/users/src/services/kioskprofile.service.ts:41-60 | rewriting one profile with its old name or a free one keeps live names unique |
| KioskProfileService.NotFoundMessage | apps/users/src/services/kioskprofile.service.ts:32 | the missing-profile error is distinguishable from every other error of the service |
| KioskProfileService.UpdateProfile | apps/users/src/services/kioskprofile.service.ts:28-63 | the checks run in order: a missing profile, then an invalid supplied ID number, then a taken supplied kiosk name, then a taken supplied legal name, each refused exactly when it is the first to fail; a found profile passing every check is always rewritten in place with the supplied fields |
| KioskProfileService.UpdateChangesOnlySupplied | apps/users/src/services/kioskprofile.service.ts:55-60 | an update keeps the user, documents, flag and signature, and every field the form leaves out |
| KioskProfileService.UpdateKeepsNamesUnique | apps/users/src/services/kioskprofile.service.ts:41-60 | when ids and live names are unique before an update, live kiosk and legal names are unique after it |
| KioskProfileService.UpdateKeepsConsistent | apps/users/src/services/kioskprofile.service.ts:28-63 | an update keeps every operate flag consistent |
| KioskProfileService.RunAttempts | apps/users/src/services/kioskprofile.service.ts:88-102 | the loop ends valid exactly when some type validated; it ends with no result exactly when every call threw |
| KioskProfileService.UploadIdDocument | apps/users/src/services/kioskprofile.service.ts:86-120 | a missing profile is refused; a profile with a null status column fails; otherwise the ID entry alone changes, to the verdict, and the flag is recomputed |
| KioskProfileService.UploadVerdict | apps/users/src/services/kioskprofile.service.ts:88-108 | the ID document is VALID exactly when type '1' or type '2' validated, and REJECTED otherwise |
| KioskProfileService.FirstValidStops | apps/users/src/services/kioskprofile.service.ts:90-97 | once type '1' validates, type '2' is never consulted |
| KioskProfileService.SignDeclaration | apps/users/src/services/kioskprofile.service.ts:122-136 | a missing profile is refused with 'Profile not found'; otherwise the signature time is set and the profile may operate exactly when all its documents are valid, nothing else changing |
| KioskProfileService.SignWithoutDocumentsOperates | apps/users/src/services/kioskprofile.service.ts:128-131 | a profile with no documents listed may operate as soon as it signs |
| KioskProfileService.UploadAndSignKeepConsistent | apps/users/src/services/kioskprofile.service.ts:86-136 | upload and signature keep every operate flag consistent |
| KioskProfileService.SignThenValidIdOperates | apps/users/src/services/kioskprofile.service.ts:86-136 | a signed profile whose ID was pending may operate once type '1' validates |

## Left out

- Image, vision and ML internals (OpenCV thresholding, connected components, contours, warps; Tesseract OCR; insightface detection and embeddings; PDF and image decoding): their outputs are inputs of the model. `hash_files` (SHA-256 of the uploads) is not modelled.
- I/O and transport: loading layout JSON files, `LayoutService.run`, `load_document_files`, the `export_*` helpers, Mongo and gRPC, controllers, Redis, Twilio and the document-validation gRPC client. The model takes their data as arguments.
- Floating point: scores are exact reals. Python's `round` in `round_bbox` is a parameter `rnd`, and JavaScript prices are reals.
- Biometric.SelectMainFace: face centrality (a square root of pixel distances in the source) is an abstract score given with each face.
- SemanticAssignment.NormalizeBbox: requires a shape with non-zero height and width; the source would divide by zero.
- DocumentService.PageWellFormed: the document pipeline is stated for pages whose warped shape is positive and whose quad boxes have four points; other pages are outside the model.
- Common.Lower, Common.Trim, Common.IsDigit: ASCII only. Python's `str.lower`, `str.isdigit` and `strip`, JavaScript's `trim` and PostgreSQL's `ILIKE` also treat non-ASCII letters, digits and spaces.
- ProductService.SameName: stands in for the case-insensitive `ILIKE` comparison, with ASCII case folding. The name is taken literally: PostgreSQL reads a `%`, `_` or `\` in the `ILIKE` pattern as a wildcard or an escape, so the source also finds "abc" taken when "a_c" is created, and the model does not.
- ProductService.Matches: the search query is taken literally. The source builds `%query%` from user text, so a `%`, `_` or `\` in the query acts as a wildcard or an escape there; "a%c" finds "abc" in the source and nothing in the model.
- ReservationRepository.FindActiveByOrderId: returns the rows in table order, not by `createdAt` descending; the model only asks whether the list is empty.
- ProductService.Create: takes the generated UUID as a parameter and requires it to be new, since the database generates unique ids.
- BatchService.CreateBatchKeepsInvariant: needs the generated batch id to be new; `BatchRepository.NextBatchIdRepeats` shows the source can produce a taken one.
- BatchService.MarkProductAsOutOfStock: walks the product's batches in table order. The source lists them by expiration date, so the order of the written movements and the batch named in a failure may differ.
- BatchRepository.FindActiveForKiosk: `findActiveByProductIdandKioskId`, `incrementReservedQuantity`, `decrementReservedQuantity` and `consumeReservedQuantity` are not part of this model's sources; they are modelled from their names.
- CommerceModel.StartOfDay: the server's local midnight is taken as UTC midnight.
- LegacyUsersService.CreateUser: the save's refusal is reported with PostgreSQL's not-null message, without the quotes around the column name and without the relation name; the exact text of the driver's QueryFailedError is not modelled.
- BatchService.UpdateAllowed: follows the entities' declared `Date` type for `date` columns. TypeORM hands such a column back as a 'YYYY-MM-DD' string, so the source's `batch.expirationDate < today` (batch.service.ts, `updateBatchQuantity`) compares a string with a Date, which is always false: at runtime the quantity update never refuses a batch as expired, and the model does.
- ReservationService.CheckStockAvailability: reports "Invalid item data" without the JSON text of the item that the source appends. The source's `Promise.all` over items runs as a sequence.
- ReservationService.CreateReservationsKeepsCounters: proved only when the order has no expired ACTIVE reservation, because the source's release on failure leaks counters (see Findings).
- OrderService.PerformKeepsCounters: proved only when the order's ACTIVE reservations are unexpired, for the same reason.
- Transactions (QueryRunner, `executeInTransaction`) are atomic steps; the `updatedAt` timestamps TypeORM writes are kept only where a rule reads them.
- Thin finders are not modelled:
  - BatchService: `findById`, `getActiveBatchesByProduct`, `getTotalStockByProduct`, `getBatchHistory`, `getProductStockSummary` and `refreshAllBatchStatuses`.
  - StockMovementService: `getMovementsByBatch` and `getMovementsByProduct`.
  - ProductService: `findAll`, `findAllByKioskUserId`, `findActiveByKioskUserId`, `findActiveByCategory`, `existsByNameForKiosk`, `countByKiosk`, `findProductsByKioskAndCategory` and `findByIdIncludingDeleted`.
  - OrderService: `getOrderById`, `getOrderWithItems` and `getOrderItems`, and the order repository's relation finders (`findByIdWithItems`, `findByCheckoutSessionId`, `findByUserId`, `findByKioskUserId`, `findByStatus`).
  - ReservationService: `getActiveReservationsByOrder`, `getReservationsWithBatchInfo`, `hasActiveReservations`, `getTotalReservedByBatch` and `getReservationsExpiringSoon`, and the reservation repository's simple finders.
  - KioskProfileService: `getProfileByUserId`, `getAllProfiles`, `getActiveProfiles`, `getProfilesReadyToOperate` and `getProfilesWithPendingDocuments`.
- CartService: `countItems`, `isCartEmpty`, `getCartItem` and `updateCartActivity` are thin wrappers and have no members of their own; the activity update is part of each cart operation.
- CartRepository: `countItems`, a left-join count, is not modelled.
- CartService cron jobs `syncPricesForAllCarts` and `validateStockForAllCarts` call `findByStatus` on the cart repository, which does not define it. They are not modelled; the timers (`@Cron`) are replaced by explicit calls with `now`.
- CartService.CalculateCartTotal: a line whose product is missing makes the source throw a TypeError; the model reports it as an error without its text.
- CartRepository.CleanupOldAbandonedCarts: TypeORM's soft delete is taken to match rows that are already soft-deleted and to set `updatedAt` along with `deletedAt`.
- KioskProfileService.Create: on a user who already has a profile, the source's save overwrites it; the model keeps the old `declarationSignedAt`, which the partial entity does not set.
- PhoneVerification.SendOtp: `Math.random()` is a parameter `draw` in [0, 1), the Redis expiry is an absolute time `now + 300` seconds, and the SMS is not modelled.
- UsersService.ValidatePassword: the regular expression is decided over UTF-16 code units. `.` rejects the four ECMAScript line terminators, and characters outside the basic plane count twice.
- UserRepository.FindByEmail: the database's unique index on email and phone also covers soft-deleted rows; the model does not enforce it.
- AuthService.ValidateOAuthUser: the `login` step that follows is left out. It uses `getRecoveryDate`, `recoverAccount` and the JWT signer, which are not part of this model's sources.
- RolesService.CreateRole: `validateRole` either throws its own error or returns true, so the 'Invalid credentials' branch cannot be reached and the model has no such error.
- RolePermissionRepository.FindPermissionsByRole: returns permission ids; the source returns the joined permission entities.
- RolePermissionRepository.RemovePermissionFromRole: removes the permission's links for every role, as the source's query does, whatever the method's name suggests.
- Mappers and DTO validation decorators are field copies and are not modelled. Missing role and permission descriptions are stored as '' as the mappers do.
- The commented-out checkout-session service is not modelled.

## Findings

| source | as written | input that shows it | evidently intended | confidence | as-written member | corrected member |
|---|---|---|---|---|---|---|
| apps/documents/src/services/post_asignment_processor.py:231-236 | the field name is tested for "id" before "apellido"; "apellido" contains "id", so a surname is scored with the ID format | field "apellido" with text "GOMEZ" scores 0.2 | names are recognised before ids, and "GOMEZ" scores 1.0 as a surname | not executed | TextScoring.FieldScore, with TextScoring.SurnameCounterexample | TextScoring.FieldScoreFixed, with TextScoring.SurnameCounterexample |
| apps/commerce/src/repositories/impl/batch.repository.ts:116-129 | the next batch id follows the day's id that sorts last as text | with LOTE-20240620-999 and LOTE-20240620-1000 stored, the next id is LOTE-20240620-1000 again | the next id follows the largest sequence number of the day and is new | not executed | BatchRepository.NextBatchId, with BatchRepository.NextBatchIdRepeats | BatchRepository.NextBatchIdFixed, with BatchRepository.NextBatchIdFixedFresh |
| apps/commerce/src/services/reservation.service.ts:143-164 | the batch counters are lowered only for the order's unexpired ACTIVE reservations, but every ACTIVE reservation of the order is released | one ACTIVE reservation of q units that expired before `now`: after the release its batch still has q reserved and no ACTIVE reservation | every released reservation gives its quantity back to its batch | not executed | ReservationService.ReleaseByOrder, with ReservationService.ReleaseByOrderLeaks | ReservationService.ReleaseByOrderFixed |
| apps/commerce/src/services/stockmovement.service.ts:125-146 | the FEFO list counts batches from midnight, and the total counts from `now`; drawing from a batch that expired earlier today is refused by the quantity update, and the whole consumption fails. This holds with the dates as typed; with the driver's string dates the expiry check in the quantity update never fires, so the expired batch is drawn from and the consumption succeeds (see BatchService.UpdateAllowed under Left out) | an ACTIVE batch expiring at midnight today with stock, and a fresh batch holding the whole request: the stock check passes and the consumption fails | batches already expired are skipped, and a request the sellable stock covers is served | not executed | StockMovementService.ConsumeStockFefo, with StockMovementService.ExpiringEarlierTodayHeadsList and StockMovementService.TwoBatchesCover | StockMovementService.ConsumeStockFefoFixed |
| apps/commerce/src/services/product.service.ts:19-22,44 | the duplicate-name check uses the name as given, but the trimmed name is stored | a kiosk with product "Mate" creating "Mate " | the trimmed name is checked, and names stay unique within a kiosk | not executed | ProductService.Create, with ProductService.CreateAdmitsDuplicate | ProductService.CreateFixed, with ProductService.CreateFixedKeepsNamesUnique |

The source's operations use the as-written members, so the rest of the model behaves as the code does. Each corrected member is proved separately.
