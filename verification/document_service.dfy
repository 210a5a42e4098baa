/** The document service's own rules: the technical gate on uploaded files
    (signature detection, size limit, file count, accepted types), the
    fusion of the structural, textual and biometric scores into one final
    score, the validity threshold, and the order in which the pipeline's
    stages run and how their failures become error codes. Image decoding,
    PDF rasterisation and the PDF encryption check are foreign and appear as
    fields of the uploaded file. */
module DocumentService {
  import opened Common
  import opened Boxes
  import QualityGate
  import Normalization
  import Segmenter
  import SemanticAssignment
  import TextScoring
  import Biometric

  newtype byte = x: int | 0 <= x < 256

  // ---------------------------------------------------------------------------
  // detect_file_type
  // ---------------------------------------------------------------------------

  datatype FileType = Jpeg | Png | Pdf | UnknownType

  /** The JPEG start-of-image marker (ITU-T T.81, Annex B, Table B.1). */
  const JpegSoi: seq<byte> := [0xFF, 0xD8]
  /** The first four bytes of the PNG signature (RFC 2083, section 3.1). */
  const PngMagic: seq<byte> := [0x89, 0x50, 0x4E, 0x47]
  /** The full eight-byte PNG signature (RFC 2083, section 3.1). */
  const PngSignature: seq<byte> := [0x89, 0x50, 0x4E, 0x47, 0x0D, 0x0A, 0x1A, 0x0A]
  /** `%PDF`, the start of the PDF file header (ISO 32000-1, section 7.5.2). */
  const PdfMagic: seq<byte> := [0x25, 0x50, 0x44, 0x46]

  predicate HasPrefix(s: seq<byte>, p: seq<byte>)
  {
    |p| <= |s| && s[..|p|] == p
  }

  /** `detect_file_type`: only the first four bytes are looked at. */
  function DetectFileType(b: seq<byte>): (r: FileType)
    ensures r == Jpeg <==> HasPrefix(b, JpegSoi)
    ensures r == Png <==> HasPrefix(b, PngMagic)
    ensures r == Pdf <==> HasPrefix(b, PdfMagic)
  {
    var header := b[..MinInt(4, |b|)];
    HeaderPrefix(b, JpegSoi);
    HeaderPrefix(b, PngMagic);
    HeaderPrefix(b, PdfMagic);
    assert HasPrefix(b, JpegSoi) ==> b[0] == JpegSoi[0];
    assert HasPrefix(b, PngMagic) ==> b[0] == PngMagic[0];
    assert HasPrefix(b, PdfMagic) ==> b[0] == PdfMagic[0];
    if HasPrefix(header, JpegSoi) then Jpeg
    else if HasPrefix(header, PngMagic) then Png
    else if HasPrefix(header, PdfMagic) then Pdf
    else UnknownType
  }

  /** A prefix of at most four bytes can be seen in the four-byte header. */
  lemma HeaderPrefix(b: seq<byte>, p: seq<byte>)
    requires |p| <= 4
    ensures HasPrefix(b, p) <==> HasPrefix(b[..MinInt(4, |b|)], p)
  {
    var header := b[..MinInt(4, |b|)];
    if |p| <= |b| {
      assert header[..|p|] == b[..|p|];
    }
  }

  /** Files that start with the standard signatures are recognised whatever
      follows, and an empty file is of unknown type. */
  lemma SignaturesRecognised(rest: seq<byte>)
    ensures DetectFileType(JpegSoi + rest) == Jpeg
    ensures DetectFileType(PngSignature + rest) == Png
    ensures DetectFileType(PdfMagic + [0x2D] + rest) == Pdf
    ensures DetectFileType([]) == UnknownType
  {
    assert (JpegSoi + rest)[..2] == JpegSoi;
    assert (PngSignature + rest)[..4] == PngMagic;
    assert (PdfMagic + [0x2D] + rest)[..4] == PdfMagic;
  }

  // ---------------------------------------------------------------------------
  // validate_single_file and to_images
  // ---------------------------------------------------------------------------

  const MaxFileSize := 7 * 1024 * 1024
  const MaxFiles := 3

  datatype TechnicalError = FileTooLarge | UnsupportedType | PasswordProtected | TooManyFiles

  /** An uploaded file: its bytes, whether the PDF reader reports it as
      encrypted, and how many pages the PDF rasteriser yields for it. */
  datatype UploadedFile = UploadedFile(bytes: seq<byte>, encrypted: bool, pdfPages: nat)

  /** `validate_single_file`: size first, then type, then PDF encryption. */
  function ValidateSingleFile(f: UploadedFile): (r: Result<FileType, TechnicalError>)
    ensures |f.bytes| > MaxFileSize ==> r == Err(FileTooLarge)
    ensures |f.bytes| <= MaxFileSize && DetectFileType(f.bytes) == UnknownType ==> r == Err(UnsupportedType)
    ensures r.Ok? <==> |f.bytes| <= MaxFileSize && DetectFileType(f.bytes) != UnknownType &&
                       !(DetectFileType(f.bytes) == Pdf && f.encrypted)
    ensures r.Ok? ==> r.value == DetectFileType(f.bytes)
  {
    if |f.bytes| > MaxFileSize then Err(FileTooLarge)
    else
      var t := DetectFileType(f.bytes);
      if t == UnknownType then Err(UnsupportedType)
      else if t == Pdf && f.encrypted then Err(PasswordProtected)
      else Ok(t)
  }

  /** A file of exactly 7 MiB passes the size check; one byte more fails it
      even when the type is also wrong. */
  lemma SizeLimitInclusive(rest: seq<byte>, junk: seq<byte>)
    requires |JpegSoi + rest| == MaxFileSize && |junk| == MaxFileSize + 1
    ensures ValidateSingleFile(UploadedFile(JpegSoi + rest, false, 0)) == Ok(Jpeg)
    ensures ValidateSingleFile(UploadedFile(junk, false, 0)) == Err(FileTooLarge)
  {
    SignaturesRecognised(rest);
  }

  /** An element of the list given to `to_images`. */
  datatype FileArg = BytesArg(file: UploadedFile) | OtherArg

  /** What `to_images` accepts: bytes, a list, or anything else. */
  datatype FilesInput = SingleBytes(file: UploadedFile) | ListInput(items: seq<FileArg>) | OtherInput

  /** An image produced from the upload: the file it came from and its page
      within that file (0 for a picture). */
  datatype ImageRef = ImageRef(file: nat, page: nat)

  /** The outcome of `to_images` when it fails: a technical rejection, or a
      ValueError for input of the wrong type. */
  datatype IntakeError = Technical(error: TechnicalError) | InvalidInput

  /** How many images a valid file yields. */
  function ImageCount(f: UploadedFile): nat
  {
    if DetectFileType(f.bytes) == Pdf then f.pdfPages else 1
  }

  /** Every element from `from` on is a file that passes validation. */
  predicate AllValid(items: seq<FileArg>, from: nat)
  {
    forall i :: from <= i < |items| ==> items[i].BytesArg? && ValidateSingleFile(items[i].file).Ok?
  }

  function PageRefs(file: nat, from: nat, n: nat): (r: seq<ImageRef>)
    requires from <= n
    ensures |r| == n - from && forall k :: 0 <= k < |r| ==> r[k] == ImageRef(file, from + k)
    decreases n - from
  {
    if from == n then [] else [ImageRef(file, from)] + PageRefs(file, from + 1, n)
  }

  function TotalImages(items: seq<FileArg>, from: nat): nat
    requires from <= |items| && AllValid(items, from)
    decreases |items| - from
  {
    if from == |items| then 0 else ImageCount(items[from].file) + TotalImages(items, from + 1)
  }

  /** The loop of `to_images` from element `from` on: each element must be
      bytes and pass validation; pictures give one image, PDFs their pages. */
  function ImagesFrom(items: seq<FileArg>, from: nat): (r: Result<seq<ImageRef>, IntakeError>)
    requires from <= |items|
    ensures r.Ok? <==> AllValid(items, from)
    ensures r.Ok? ==> |r.value| == TotalImages(items, from)
    ensures r.Ok? ==> forall k :: 0 <= k < |r.value| ==> from <= r.value[k].file < |items|
    ensures r.Err? && r.error == InvalidInput ==> exists i :: from <= i < |items| && items[i].OtherArg? && AllValidBefore(items, from, i)
    decreases |items| - from
  {
    if from == |items| then Ok([])
    else
      match items[from]
      case OtherArg => Err(InvalidInput)
      case BytesArg(f) =>
        match ValidateSingleFile(f)
        case Err(e) => Err(Technical(e))
        case Ok(t) =>
          var rest := ImagesFrom(items, from + 1);
          if rest.Err? then
            ValidBeforeExtends(items, from);
            Err(rest.error)
          else
            var own := if t == Pdf then PageRefs(from, 0, f.pdfPages) else [ImageRef(from, 0)];
            Ok(own + rest.value)
  }

  /** A valid element in front keeps the elements before a later position
      valid. */
  lemma ValidBeforeExtends(items: seq<FileArg>, from: nat)
    requires from < |items| && items[from].BytesArg? && ValidateSingleFile(items[from].file).Ok?
    ensures forall i :: from < i <= |items| && AllValidBefore(items, from + 1, i) ==> AllValidBefore(items, from, i)
  {
  }

  /** The elements from `from` up to `i` are valid files. */
  predicate AllValidBefore(items: seq<FileArg>, from: nat, i: nat)
  {
    forall j :: from <= j < i && j < |items| ==> items[j].BytesArg? && ValidateSingleFile(items[j].file).Ok?
  }

  function AsList(input: FilesInput): Option<seq<FileArg>>
  {
    match input
    case SingleBytes(f) => Some([BytesArg(f)])
    case ListInput(items) => Some(items)
    case OtherInput => None
  }

  /** `to_images`: a single bytes value is wrapped in a list; anything but a
      list raises ValueError; more than three files are rejected before any
      file is looked at. */
  function ToImages(input: FilesInput): (r: Result<seq<ImageRef>, IntakeError>)
    ensures input.OtherInput? ==> r == Err(InvalidInput)
    ensures input.ListInput? && |input.items| > MaxFiles ==> r == Err(Technical(TooManyFiles))
    ensures r.Ok? ==> AsList(input).Some? && |AsList(input).value| <= MaxFiles && AllValid(AsList(input).value, 0)
    ensures r.Ok? ==> |r.value| == TotalImages(AsList(input).value, 0)
  {
    match AsList(input)
    case None => Err(InvalidInput)
    case Some(items) =>
      if |items| > MaxFiles then Err(Technical(TooManyFiles))
      else ImagesFrom(items, 0)
  }

  /** A single file behaves as a list holding it. */
  lemma SingleFileIsListOfOne(f: UploadedFile)
    ensures ToImages(SingleBytes(f)) == ToImages(ListInput([BytesArg(f)]))
  {
  }

  /** A list of at most three valid files always converts. */
  lemma ValidListConverts(items: seq<FileArg>)
    requires |items| <= MaxFiles && AllValid(items, 0)
    ensures ToImages(ListInput(items)).Ok?
  {
  }

  // ---------------------------------------------------------------------------
  // calculate_final_document_score and is_valid
  // ---------------------------------------------------------------------------

  function Clip01(x: real): (r: real)
    ensures 0.0 <= r <= 1.0
    ensures 0.0 <= x <= 1.0 ==> r == x
  {
    ClipReal(x, 0.0, 1.0)
  }

  /** `calculate_final_document_score`: the structural score (0.0 when
      absent) is clipped to [0, 1]; with a biometric score the weights are
      0.5 / 0.3 / 0.2, without it 0.65 / 0.35; the sum is clipped. */
  function FuseScores(structural: Option<real>, logic: real, biometric: Option<real>): (r: real)
    ensures 0.0 <= r <= 1.0
  {
    var s := Clip01(structural.GetOr(0.0));
    match biometric
    case Some(b) => Clip01(0.5 * s + 0.3 * logic + 0.2 * b)
    case None => Clip01(0.65 * s + 0.35 * logic)
  }

  /** When all the scores agree on a value in [0, 1], so does the fusion,
      with or without a biometric score. */
  lemma FuseAgreeingScores(x: real)
    requires 0.0 <= x <= 1.0
    ensures FuseScores(Some(x), x, Some(x)) == x
    ensures FuseScores(Some(x), x, None) == x
  {
  }

  /** Perfect scores give 1.0, zero scores without biometrics give 0.0, and
      a missing structural score counts as 0.0. */
  lemma FuseExtremes(logic: real, biometric: Option<real>)
    ensures FuseScores(Some(1.0), 1.0, Some(1.0)) == 1.0
    ensures FuseScores(Some(0.0), 0.0, None) == 0.0
    ensures FuseScores(None, logic, biometric) == FuseScores(Some(0.0), logic, biometric)
  {
  }

  lemma ClipMonotone(a: real, b: real)
    requires a <= b
    ensures Clip01(a) <= Clip01(b)
  {
  }

  /** A better score never lowers the final score. */
  lemma FuseMonotone(s1: real, s2: real, t1: real, t2: real, b1: real, b2: real)
    requires s1 <= s2 && t1 <= t2 && b1 <= b2
    ensures FuseScores(Some(s1), t1, Some(b1)) <= FuseScores(Some(s2), t2, Some(b2))
    ensures FuseScores(Some(s1), t1, None) <= FuseScores(Some(s2), t2, None)
  {
    ClipMonotone(s1, s2);
    var c1, c2 := Clip01(s1), Clip01(s2);
    ClipMonotone(0.5 * c1 + 0.3 * t1 + 0.2 * b1, 0.5 * c2 + 0.3 * t2 + 0.2 * b2);
    ClipMonotone(0.65 * c1 + 0.35 * t1, 0.65 * c2 + 0.35 * t2);
  }

  const ValidityThreshold: real := 0.55

  // ---------------------------------------------------------------------------
  // process_document
  // ---------------------------------------------------------------------------

  /** What the foreign stages report for one image: its quality metrics, the
      contours found on it, the shape a perspective warp would give, the
      regions the segmenter finds on the normalised image, and the faces the
      face model finds on it. */
  datatype PageAnalysis = PageAnalysis(
    metrics: QualityGate.ImageMetrics, contours: seq<Normalization.Contour>, warpedShape: Shape,
    regions: seq<Segmenter.Region>, faces: seq<Biometric.Face>)

  /** The selfie and what decoding and the face model make of it and of the
      padded document face. */
  datatype SelfieInput = SelfieInput(
    bytes: seq<byte>, decoded: Biometric.Decoded, selfieRun: Biometric.ModelRun,
    docRun: Biometric.ModelRun, paddedShape: Shape)

  datatype ErrorCode = BiometricErrorCode | TechnicalValidationErrorCode | LowQualityErrorCode | NormalizationErrorCode

  /** The service response. `Raised` stands for an exception the service
      does not catch. The final score is carried along for the contracts;
      the service itself only reports validity. */
  datatype Response =
    | Success(isValid: bool, finalScore: real)
    | Failure(code: ErrorCode)
    | Raised

  /** What the foreign stages always deliver: a positive warped shape and
      four-point minimum-area boxes. */
  predicate PageWellFormed(p: PageAnalysis)
  {
    && p.warpedShape.h > 0 && p.warpedShape.w > 0
    && forall k :: 0 <= k < |p.contours| ==> |p.contours[k].box| == 4
  }

  /** A well-formed page that passed the quality gate. */
  predicate Usable(p: PageAnalysis)
  {
    PageWellFormed(p) && QualityGate.Acceptable(p.metrics)
  }

  /** The shape of an image once normalised: unchanged when no document quad
      is found, otherwise the warped shape. */
  function NormalizedShape(p: PageAnalysis): (r: Shape)
    requires PageWellFormed(p)
    ensures QualityGate.Acceptable(p.metrics) ==> r.h > 0 && r.w > 0
  {
    match Normalization.NormalizeDocument(p.contours, p.metrics.height, p.metrics.width)
    case Unchanged => Shape(p.metrics.height, p.metrics.width)
    case Warped(_) => p.warpedShape
  }

  /** The region groups of every page. */
  function Groups(pages: seq<PageAnalysis>): (r: seq<seq<Segmenter.RegionGroup>>)
    ensures |r| == |pages|
  {
    if |pages| == 0 then []
    else [Segmenter.GroupRegions(pages[0].regions, Segmenter.RegionJoinDistance)] + Groups(pages[1..])
  }

  /** The normalised shape of every page. */
  function Shapes(pages: seq<PageAnalysis>): (r: seq<Shape>)
    requires forall i :: 0 <= i < |pages| ==> Usable(pages[i])
    ensures |r| == |pages| && forall i :: 0 <= i < |r| ==> r[i].h > 0 && r[i].w > 0
  {
    seq(|pages|, i requires 0 <= i < |pages| && Usable(pages[i]) => NormalizedShape(pages[i]))
  }

  /** The faces and normalised shape of every page. */
  function FacePages(pages: seq<PageAnalysis>): (r: seq<(seq<Biometric.Face>, Shape)>)
    requires forall i :: 0 <= i < |pages| ==> Usable(pages[i])
    ensures |r| == |pages| && forall i :: 0 <= i < |r| ==> r[i].1.h > 0 && r[i].1.w > 0
  {
    seq(|pages|, i requires 0 <= i < |pages| && Usable(pages[i]) => (pages[i].faces, NormalizedShape(pages[i])))
  }

  /** The structural stage: group the regions of every page and score the
      pages against the layout at overlap threshold 0.3. */
  function StructuralStage(layouts: map<string, SemanticAssignment.Layout>, docTypeId: string, pages: seq<PageAnalysis>)
    : (r: Result<SemanticAssignment.CombinedResult, SemanticAssignment.StructureError>)
    requires forall i :: 0 <= i < |pages| ==> Usable(pages[i])
    ensures r.Ok? ==> docTypeId in layouts
  {
    SemanticAssignment.ProcessDocument(layouts, docTypeId, Groups(pages), Shapes(pages), 0.3)
  }

  predicate SelfieWellFormed(selfie: Option<SelfieInput>)
  {
    selfie.Some? ==>
      selfie.value.paddedShape.h > 0 && selfie.value.paddedShape.w > 0 &&
      (selfie.value.decoded.DecodedImage? ==> selfie.value.decoded.shape.h > 0 && selfie.value.decoded.shape.w > 0)
  }

  /** The biometric stage, run only when a selfie is given: the face crop
      from the first page with a face, checked against the selfie. Its score
      is weighed only when the selfie bytes are non-empty. */
  function BiometricStage(pages: seq<PageAnalysis>, selfie: Option<SelfieInput>): (r: Result<Option<real>, Biometric.BiometricError>)
    requires forall i :: 0 <= i < |pages| ==> Usable(pages[i])
    requires SelfieWellFormed(selfie)
    ensures selfie.None? ==> r == Ok(None)
    ensures selfie.Some? && |selfie.value.bytes| == 0 ==> r.Err? || r == Ok(None)
    ensures r.Ok? && r.value.Some? ==> selfie.Some? && |selfie.value.bytes| > 0 && 0.0 <= r.value.value <= 1.0
  {
    match selfie
    case None => Ok(None)
    case Some(s) =>
      var crop := Biometric.FaceFromFullImage(FacePages(pages));
      var docFace := match crop
        case None => None
        case Some(c) => Some(Shape(c.1.y2 - c.1.y1, c.1.x2 - c.1.x1));
      var b :- Biometric.VerifyBiometric(docFace, s.paddedShape, s.decoded, s.selfieRun, s.docRun);
      Ok(if |s.bytes| > 0 then Some(b) else None)
  }

  /** The stages after the quality gate, on the analysed pages: structure,
      text (`enrich` is the OCR step, from the structural result to the
      per-page field entries), biometrics, fusion and the validity
      threshold. A structural failure is not one of the caught errors. */
  function ScorePages(layouts: map<string, SemanticAssignment.Layout>, docTypeId: string, pages: seq<PageAnalysis>,
                      enrich: SemanticAssignment.CombinedResult -> seq<seq<(string, TextScoring.Entry)>>,
                      selfie: Option<SelfieInput>): (r: Response)
    requires forall i :: 0 <= i < |pages| ==> Usable(pages[i])
    requires SelfieWellFormed(selfie)
    ensures docTypeId !in layouts ==> r == Raised
    ensures r.Failure? ==> r.code == BiometricErrorCode && selfie.Some?
    ensures r.Success? ==> docTypeId in layouts && 0.0 <= r.finalScore <= 1.0
    ensures r.Success? ==> (r.isValid <==> r.finalScore >= ValidityThreshold)
  {
    match StructuralStage(layouts, docTypeId, pages)
    case Err(_) => Raised
    case Ok(structural) =>
      var logic := TextScoring.ValidateTextualData(TextScoring.GetTextualData(enrich(structural)));
      match BiometricStage(pages, selfie)
      case Err(_) => Failure(BiometricErrorCode)
      case Ok(b) =>
        var score := FuseScores(Some(structural.finalScore), logic, b);
        Success(score >= ValidityThreshold, score)
  }

  function Images(files: seq<UploadedFile>): seq<FileArg>
  {
    seq(|files|, i requires 0 <= i < |files| => BytesArg(files[i]))
  }

  function Analyze(refs: seq<ImageRef>, analyze: ImageRef -> PageAnalysis): (r: seq<PageAnalysis>)
    ensures |r| == |refs| && forall i :: 0 <= i < |refs| ==> r[i] == analyze(refs[i])
  {
    seq(|refs|, i requires 0 <= i < |refs| => analyze(refs[i]))
  }

  function Metrics(pages: seq<PageAnalysis>): (r: seq<QualityGate.ImageMetrics>)
    ensures |r| == |pages| && forall i :: 0 <= i < |pages| ==> r[i] == pages[i].metrics
  {
    seq(|pages|, i requires 0 <= i < |pages| => pages[i].metrics)
  }

  /** `process_document` on a list of files: intake, quality gate, then the
      scoring stages. Normalisation never fails, so the normalisation error
      code never comes back. */
  function ProcessDocument(layouts: map<string, SemanticAssignment.Layout>, docTypeId: string,
                           files: seq<UploadedFile>, analyze: ImageRef -> PageAnalysis,
                           enrich: SemanticAssignment.CombinedResult -> seq<seq<(string, TextScoring.Entry)>>,
                           selfie: Option<SelfieInput>): (r: Response)
    requires forall ref :: PageWellFormed(analyze(ref))
    requires SelfieWellFormed(selfie)
    ensures r != Failure(NormalizationErrorCode)
    ensures selfie.None? ==> r != Failure(BiometricErrorCode)
    ensures |files| > MaxFiles ==> r == Failure(TechnicalValidationErrorCode)
    ensures ToImages(ListInput(Images(files))).Err? <==> r == Failure(TechnicalValidationErrorCode)
    ensures r == Failure(LowQualityErrorCode) ==> ToImages(ListInput(Images(files))).Ok?
    ensures r.Success? ==> docTypeId in layouts && 0.0 <= r.finalScore <= 1.0
    ensures r.Success? ==> (r.isValid <==> r.finalScore >= ValidityThreshold)
  {
    match ToImages(ListInput(Images(files)))
    case Err(_) => Failure(TechnicalValidationErrorCode)
    case Ok(refs) =>
      var pages := Analyze(refs, analyze);
      match QualityGate.QualityValidation(Metrics(pages))
      case Err(_) => Failure(LowQualityErrorCode)
      case Ok(_) => ScorePages(layouts, docTypeId, pages, enrich, selfie)
  }

  /** An empty selfie still runs the biometric stage, so its failures are
      reported, but when that stage succeeds the outcome is the one without
      a selfie. */
  lemma EmptySelfieIgnored(layouts: map<string, SemanticAssignment.Layout>, docTypeId: string,
                           files: seq<UploadedFile>, analyze: ImageRef -> PageAnalysis,
                           enrich: SemanticAssignment.CombinedResult -> seq<seq<(string, TextScoring.Entry)>>,
                           selfie: SelfieInput)
    requires forall ref :: PageWellFormed(analyze(ref))
    requires SelfieWellFormed(Some(selfie)) && |selfie.bytes| == 0
    ensures var r := ProcessDocument(layouts, docTypeId, files, analyze, enrich, Some(selfie));
      r != Failure(BiometricErrorCode) ==> r == ProcessDocument(layouts, docTypeId, files, analyze, enrich, None)
  {
  }
}
