/** Face comparison between the document photo and the selfie. Face
    detection, alignment and embeddings come from a face model and are
    inputs here: each detected face carries its box, the detector
    confidence, an abstract centrality score and its normalised embedding.
    Image decoding and padding are likewise inputs. */
module Biometric {
  import opened Common
  import opened Boxes

  // ---------------------------------------------------------------------------
  // Similarity curve and comparison
  // ---------------------------------------------------------------------------

  /** The piecewise-linear map from cosine similarity to a document-adjusted
      score: identity up to 0.1, then three linear pieces through
      (0.1, 0.1), (0.3, 0.4), (0.5, 0.7) and slope 0.6 above 0.5. */
  function SimilarityCurve(cos: real): (r: real)
    ensures cos <= 0.1 ==> r == cos
    ensures cos > 0.5 ==> 0.7 < r
    ensures 0.1 < cos <= 0.5 ==> 0.1 < r <= 0.7
  {
    if cos > 0.5 then 0.7 + 0.3 * (cos - 0.5) * 2.0
    else if cos > 0.3 then 0.4 + 0.3 * (cos - 0.3) / 0.2
    else if cos > 0.1 then 0.1 + 0.3 * (cos - 0.1) / 0.2
    else cos * 1.0
  }

  /** The curve never decreases and never rises faster than slope 1.5: it is
      monotone and continuous, in particular at the joints 0.1, 0.3 and
      0.5. */
  lemma SimilarityCurveLipschitz(a: real, b: real)
    requires a <= b
    ensures 0.0 <= SimilarityCurve(b) - SimilarityCurve(a) <= 1.5 * (b - a)
  {
  }

  /** One processed face: the box, the detector confidence and the
      embedding. */
  datatype FaceDetection = FaceDetection(bbox: PixelBox, confidence: real, embedding: seq<real>)

  function Dot(a: seq<real>, b: seq<real>): real
    requires |a| == |b|
  {
    if |a| == 0 then 0.0 else Dot(a[..|a| - 1], b[..|b| - 1]) + a[|a| - 1] * b[|b| - 1]
  }

  /** `_compare_faces_adjusted_for_documents`: 80% of the curve value of the
      embeddings' dot product and 20% of the confidences (40% the first
      face's, 60% the second's), clipped to [0, 1]. The document face is the
      first argument. */
  function CompareFaces(doc: FaceDetection, selfie: FaceDetection): (r: real)
    requires |doc.embedding| == |selfie.embedding|
    ensures 0.0 <= r <= 1.0
  {
    var score := SimilarityCurve(Dot(doc.embedding, selfie.embedding));
    var confidence := doc.confidence * 0.4 + selfie.confidence * 0.6;
    MinReal(1.0, MaxReal(0.0, 0.8 * score + 0.2 * confidence))
  }

  /** A higher similarity never lowers the comparison result, for the same
      confidences. */
  lemma CompareMonotoneInSimilarity(doc: FaceDetection, selfie: FaceDetection, doc2: FaceDetection, selfie2: FaceDetection)
    requires |doc.embedding| == |selfie.embedding| && |doc2.embedding| == |selfie2.embedding|
    requires doc.confidence == doc2.confidence && selfie.confidence == selfie2.confidence
    requires Dot(doc.embedding, selfie.embedding) <= Dot(doc2.embedding, selfie2.embedding)
    ensures CompareFaces(doc, selfie) <= CompareFaces(doc2, selfie2)
  {
    SimilarityCurveLipschitz(Dot(doc.embedding, selfie.embedding), Dot(doc2.embedding, selfie2.embedding));
  }

  /** Higher confidences never lower the comparison result, for the same
      embeddings; together they move it by at most 0.2. */
  lemma CompareMonotoneInConfidence(doc: FaceDetection, selfie: FaceDetection, c1: real, c2: real)
    requires |doc.embedding| == |selfie.embedding|
    requires doc.confidence <= c1 && selfie.confidence <= c2
    ensures CompareFaces(doc, selfie) <= CompareFaces(doc.(confidence := c1), selfie.(confidence := c2))
    ensures 0.0 <= doc.confidence && 0.0 <= selfie.confidence && c1 <= 1.0 && c2 <= 1.0 ==>
      CompareFaces(doc.(confidence := c1), selfie.(confidence := c2)) - CompareFaces(doc, selfie) <= 0.2
  {
  }

  /** Identical embeddings of unit length and full confidence give 1. */
  lemma PerfectMatchScoresOne(doc: FaceDetection, selfie: FaceDetection)
    requires |doc.embedding| == |selfie.embedding|
    requires Dot(doc.embedding, selfie.embedding) == 1.0
    requires doc.confidence == 1.0 && selfie.confidence == 1.0
    ensures CompareFaces(doc, selfie) == 1.0
  {
  }

  // ---------------------------------------------------------------------------
  // Main-face selection
  // ---------------------------------------------------------------------------

  /** A face as the model reports it; `centerScore` stands for
      1 − distance-to-centre / half-diagonal, which uses square roots. */
  datatype Face = Face(bbox: Box, detScore: real, centerScore: real, embedding: seq<real>)

  /** 0.4·relative size + 0.4·centrality + 0.2·confidence. */
  function FaceScore(f: Face, shape: Shape): real
    requires shape.h > 0 && shape.w > 0
  {
    var sizeScore := ((f.bbox.x2 - f.bbox.x1) * (f.bbox.y2 - f.bbox.y1)) / ((shape.w * shape.h) as real);
    0.4 * sizeScore + 0.4 * f.centerScore + 0.2 * f.detScore
  }

  /** `_select_main_face`: the first face of maximal score, provided that
      score is above −1 (the loop's starting best); none for an empty
      list. */
  function SelectMainFace(faces: seq<Face>, shape: Shape): (r: Option<nat>)
    requires shape.h > 0 && shape.w > 0
    ensures r.None? <==> forall i :: 0 <= i < |faces| ==> FaceScore(faces[i], shape) <= -1.0
    ensures r.Some? ==> IsMainFace(faces, shape, r.value)
  {
    SelectFrom(faces, shape, |faces|)
  }

  /** `i` holds the first maximal score, and it is above −1. */
  predicate IsMainFace(faces: seq<Face>, shape: Shape, i: nat)
    requires shape.h > 0 && shape.w > 0
  {
    && i < |faces|
    && FaceScore(faces[i], shape) > -1.0
    && (forall j :: 0 <= j < |faces| ==> FaceScore(faces[j], shape) <= FaceScore(faces[i], shape))
    && (forall j :: 0 <= j < i ==> FaceScore(faces[j], shape) < FaceScore(faces[i], shape))
  }

  /** The loop after its first `n` faces. */
  function SelectFrom(faces: seq<Face>, shape: Shape, n: nat): (r: Option<nat>)
    requires shape.h > 0 && shape.w > 0 && n <= |faces|
    ensures r.None? <==> forall i :: 0 <= i < n ==> FaceScore(faces[i], shape) <= -1.0
    ensures r.Some? ==> r.value < n && FaceScore(faces[r.value], shape) > -1.0
    ensures r.Some? ==> forall j :: 0 <= j < n ==> FaceScore(faces[j], shape) <= FaceScore(faces[r.value], shape)
    ensures r.Some? ==> forall j :: 0 <= j < r.value ==> FaceScore(faces[j], shape) < FaceScore(faces[r.value], shape)
  {
    if n == 0 then None
    else
      var best := SelectFrom(faces, shape, n - 1);
      var s := FaceScore(faces[n - 1], shape);
      match best
      case None => if s > -1.0 then Some(n - 1) else None
      case Some(b) => if s > FaceScore(faces[b], shape) then Some(n - 1) else Some(b)
  }

  /** The main face is determined by its description: any index that holds
      the first maximal score above −1 is the selected one. */
  lemma MainFaceUnique(faces: seq<Face>, shape: Shape, i: nat)
    requires shape.h > 0 && shape.w > 0
    requires IsMainFace(faces, shape, i)
    ensures SelectMainFace(faces, shape) == Some(i)
  {
    var r := SelectMainFace(faces, shape);
    assert r.Some?;
  }

  // ---------------------------------------------------------------------------
  // Box extraction
  // ---------------------------------------------------------------------------

  /** The shapes `_extract_bbox` distinguishes, with values as reals. */
  datatype BboxValue =
    | BboxTuple(items: seq<real>)
    | BboxDict(entries: map<string, real>)
    | BboxOther

  datatype BboxData =
    | DictData(bbox: Option<BboxValue>)
    | TupleData(items: seq<real>)
    | OtherData

  /** `_extract_bbox`: a dict's 4-tuple "bbox", a dict's "bbox" dict with all
      of x1..y2 as a tuple, a bare 4-tuple itself, otherwise nothing. */
  function ExtractBbox(data: BboxData): (r: Option<seq<real>>)
    ensures r.Some? ==> |r.value| == 4
    ensures data.TupleData? ==> (r.Some? <==> |data.items| == 4) && (r.Some? ==> r.value == data.items)
    ensures data.OtherData? ==> r.None?
    ensures data.DictData? && data.bbox.Some? && data.bbox.value.BboxTuple? ==>
      (r.Some? <==> |data.bbox.value.items| == 4) && (r.Some? ==> r.value == data.bbox.value.items)
    ensures data.DictData? && data.bbox.Some? && data.bbox.value.BboxDict? ==>
      var m := data.bbox.value.entries;
      (r.Some? <==> "x1" in m && "y1" in m && "x2" in m && "y2" in m) &&
      (r.Some? ==> r.value == [m["x1"], m["y1"], m["x2"], m["y2"]])
    ensures data.DictData? && (data.bbox.None? || data.bbox.value.BboxOther?) ==> r.None?
  {
    match data
    case DictData(Some(BboxTuple(items))) => if |items| == 4 then Some(items) else None
    case DictData(Some(BboxDict(m))) =>
      if "x1" in m && "y1" in m && "x2" in m && "y2" in m then Some([m["x1"], m["y1"], m["x2"], m["y2"]]) else None
    case DictData(_) => None
    case TupleData(items) => if |items| == 4 then Some(items) else None
    case OtherData => None
  }

  // ---------------------------------------------------------------------------
  // Face crop from the full page
  // ---------------------------------------------------------------------------

  /** `int(d * 0.2)`: a fifth of `d`, truncated toward zero. */
  function Fifth(d: int): (r: int)
    ensures d >= 0 ==> 0 <= r && 5 * r <= d < 5 * r + 5
    ensures d < 0 ==> r <= 0 && 5 * r >= d > 5 * r - 5
  {
    if d >= 0 then d / 5 else -((-d) / 5)
  }

  /** The face box grown by a fifth of its size on every side and clipped
      to the image. */
  function FaceCrop(face: PixelBox, shape: Shape): (r: PixelBox)
    ensures 0 <= r.x1 && 0 <= r.y1 && r.x2 <= shape.w && r.y2 <= shape.h
    ensures PixelWellFormed(face) && 0 <= face.x1 && 0 <= face.y1 && face.x2 <= shape.w && face.y2 <= shape.h ==>
      PixelEncloses(r, face)
  {
    var mx := Fifth(face.x2 - face.x1);
    var my := Fifth(face.y2 - face.y1);
    PixelBox(MaxInt(0, face.x1 - mx), MaxInt(0, face.y1 - my), MinInt(shape.w, face.x2 + mx), MinInt(shape.h, face.y2 + my))
  }

  /** Integer corners of a model box (`map(int, bbox)` truncates toward zero). */
  function TruncBox(b: Box): PixelBox
  {
    PixelBox(Trunc(b.x1), Trunc(b.y1), Trunc(b.x2), Trunc(b.y2))
  }

  function Trunc(x: real): int
  {
    if x >= 0.0 then x.Floor else -((-x).Floor)
  }

  predicate HasMainFace(page: (seq<Face>, Shape))
  {
    page.1.h > 0 && page.1.w > 0 && SelectMainFace(page.0, page.1).Some?
  }

  /** The crop of a page that has a main face. */
  function PageCrop(page: (seq<Face>, Shape)): PixelBox
    requires HasMainFace(page)
  {
    FaceCrop(TruncBox(page.0[SelectMainFace(page.0, page.1).value].bbox), page.1)
  }

  /** `get_face_from_full_image` from page `from` on. */
  function FaceFromPages(pages: seq<(seq<Face>, Shape)>, from: nat): (r: Option<(nat, PixelBox)>)
    requires forall i :: 0 <= i < |pages| ==> pages[i].1.h > 0 && pages[i].1.w > 0
    requires from <= |pages|
    ensures r.None? <==> forall i :: from <= i < |pages| ==> !HasMainFace(pages[i])
    ensures r.Some? ==> from <= r.value.0 < |pages| && HasMainFace(pages[r.value.0])
    ensures r.Some? ==> (forall i :: from <= i < r.value.0 ==> !HasMainFace(pages[i]))
    ensures r.Some? ==> r.value.1 == PageCrop(pages[r.value.0])
    decreases |pages| - from
  {
    if from == |pages| then None
    else if HasMainFace(pages[from]) then Some((from, PageCrop(pages[from])))
    else FaceFromPages(pages, from + 1)
  }

  /** `get_face_from_full_image`: the crop around the main face of the first
      page that has one; none when no page has a face. Each page is given
      with the faces the model found on it. */
  function FaceFromFullImage(pages: seq<(seq<Face>, Shape)>): (r: Option<(nat, PixelBox)>)
    requires forall i :: 0 <= i < |pages| ==> pages[i].1.h > 0 && pages[i].1.w > 0
    ensures r.None? <==> forall i :: 0 <= i < |pages| ==> !HasMainFace(pages[i])
    ensures r.Some? ==> r.value.0 < |pages| && HasMainFace(pages[r.value.0])
    ensures r.Some? ==> (forall i :: 0 <= i < r.value.0 ==> !HasMainFace(pages[i]))
    ensures r.Some? ==> r.value.1 == PageCrop(pages[r.value.0])
  {
    FaceFromPages(pages, 0)
  }

  /** The crop lies inside its page. */
  lemma FaceCropInsidePage(pages: seq<(seq<Face>, Shape)>)
    requires forall i :: 0 <= i < |pages| ==> pages[i].1.h > 0 && pages[i].1.w > 0
    ensures var r := FaceFromFullImage(pages);
      r.Some? ==> 0 <= r.value.1.x1 && 0 <= r.value.1.y1 &&
                  r.value.1.x2 <= pages[r.value.0].1.w && r.value.1.y2 <= pages[r.value.0].1.h
  {
  }

  // ---------------------------------------------------------------------------
  // verify_biometric
  // ---------------------------------------------------------------------------

  datatype BiometricError =
    | DecodeFailed                      // converting the selfie bytes raised
    | SelfieUndecodable                 // "Selfie cannot be decoded"
    | DocumentFaceMissing               // "Document face was not found"
    | SourceFailed(source: string)      // "Face processing failed for source '…'"
    | SelfieFaceNotDetected             // "Selfie face was not detected"
    | DocumentFaceNotDetected           // "Document face was not detected"
    | FaceProcessingFailed              // any other exception

  /** The outcome of decoding the selfie bytes. */
  datatype Decoded = DecodedImage(shape: Shape) | NotAnImage | DecodeRaised

  /** The outcome of running the face model on one image. */
  datatype ModelRun = Faces(faces: seq<Face>) | ModelRaised

  /** `_process_face`: no faces or no main face gives none; a model failure
      raises with the source name. */
  function ProcessFace(run: ModelRun, shape: Shape, source: string): (r: Result<Option<FaceDetection>, BiometricError>)
    requires shape.h > 0 && shape.w > 0
    ensures run.ModelRaised? <==> r == Err(SourceFailed(source))
    ensures run.Faces? ==> (r == Ok(None) <==> SelectMainFace(run.faces, shape).None?)
  {
    match run
    case ModelRaised => Err(SourceFailed(source))
    case Faces(faces) =>
      match SelectMainFace(faces, shape)
      case None => Ok(None)
      case Some(i) => Ok(Some(FaceDetection(TruncBox(faces[i].bbox), faces[i].detScore, faces[i].embedding)))
  }

  /** `verify_biometric`: selfie decoding, then the document face's presence,
      then the selfie detection, then the document detection (on the padded
      document image, whose shape is `paddedShape`), then the comparison with
      the document face first. Mismatched embedding sizes make the dot
      product raise, which becomes the generic failure. */
  function VerifyBiometric(docFace: Option<Shape>, paddedShape: Shape, selfie: Decoded,
                           selfieRun: ModelRun, docRun: ModelRun): (r: Result<real, BiometricError>)
    requires paddedShape.h > 0 && paddedShape.w > 0
    requires selfie.DecodedImage? ==> selfie.shape.h > 0 && selfie.shape.w > 0
    ensures selfie.DecodeRaised? ==> r == Err(DecodeFailed)
    ensures selfie.NotAnImage? ==> r == Err(SelfieUndecodable)
    ensures selfie.DecodedImage? && docFace.None? ==> r == Err(DocumentFaceMissing)
    ensures r.Ok? ==> 0.0 <= r.value <= 1.0
    ensures r.Ok? ==> selfie.DecodedImage? && docFace.Some? && selfieRun.Faces? && docRun.Faces?
  {
    match selfie
    case DecodeRaised => Err(DecodeFailed)
    case NotAnImage => Err(SelfieUndecodable)
    case DecodedImage(selfieShape) =>
      if docFace.None? then Err(DocumentFaceMissing)
      else
        var selfieFace :- ProcessFace(selfieRun, selfieShape, "selfie");
        if selfieFace.None? then Err(SelfieFaceNotDetected)
        else
          var docResult :- ProcessFace(docRun, paddedShape, "document");
          if docResult.None? then Err(DocumentFaceNotDetected)
          else if |docResult.value.embedding| != |selfieFace.value.embedding| then Err(FaceProcessingFailed)
          else Ok(CompareFaces(docResult.value, selfieFace.value))
  }

  /** The selfie is examined before the document face: when both have no
      face, the selfie error is reported. */
  lemma SelfieCheckedFirst(docFace: Shape, paddedShape: Shape, selfieShape: Shape)
    requires paddedShape.h > 0 && paddedShape.w > 0 && selfieShape.h > 0 && selfieShape.w > 0
    ensures VerifyBiometric(Some(docFace), paddedShape, DecodedImage(selfieShape), Faces([]), Faces([]))
         == Err(SelfieFaceNotDetected)
  {
  }
}
