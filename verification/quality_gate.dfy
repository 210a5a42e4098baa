/** The image quality gate applied to every page image before processing.
    The image metrics (size, mean and standard deviation of the grey
    levels, variance of the Laplacian) are computed by OpenCV and are
    inputs here. */
module QualityGate {
  import opened Common

  const MinSizePx: int := 500
  const MinBrightness: real := 110.0
  const MaxBrightness: real := 250.0
  /** Lower bound of the contrast range; its upper bound (70) is never used. */
  const MinContrast: real := 30.0
  const MinSharpness: real := 100.0

  datatype ImageMetrics = ImageMetrics(width: int, height: int, brightness: real, contrast: real, sharpness: real)

  /** The LowQualityError raised for an image, in the order of the checks. */
  datatype QualityError =
    | TooSmall(index: nat)
    | TooDark
    | TooBright
    | LowContrast
    | NotSharp

  /** An image that passes every check. */
  predicate Acceptable(m: ImageMetrics)
  {
    && m.width >= MinSizePx && m.height >= MinSizePx
    && MinBrightness <= m.brightness <= MaxBrightness
    && m.contrast >= MinContrast
    && m.sharpness >= MinSharpness
  }

  /** The checks of one image, in order: size, too dark, too bright,
      contrast, sharpness. */
  function CheckImage(index: nat, m: ImageMetrics): (r: Option<QualityError>)
    ensures r.None? <==> Acceptable(m)
    ensures (m.width < MinSizePx || m.height < MinSizePx) <==> r == Some(TooSmall(index))
    ensures r == Some(TooDark) <==> !(m.width < MinSizePx || m.height < MinSizePx) && m.brightness < MinBrightness
  {
    if m.width < MinSizePx || m.height < MinSizePx then Some(TooSmall(index))
    else if m.brightness < MinBrightness then Some(TooDark)
    else if m.brightness > MaxBrightness then Some(TooBright)
    else if m.contrast < MinContrast then Some(LowContrast)
    else if m.sharpness < MinSharpness then Some(NotSharp)
    else None
  }

  /** `quality_validation`: the first failing image raises its error; with
      no failure the result is true, also for no images. */
  function QualityValidation(images: seq<ImageMetrics>): (r: Result<bool, QualityError>)
    ensures r.Ok? <==> forall i :: 0 <= i < |images| ==> Acceptable(images[i])
    ensures r.Ok? ==> r.value
    ensures r.Err? ==> exists i :: 0 <= i < |images| && FirstFailure(images, i) && Some(r.error) == CheckImage(i, images[i])
  {
    ValidateFrom(images, 0)
  }

  /** Image `i` fails and all images before it pass. */
  predicate FirstFailure(images: seq<ImageMetrics>, i: nat)
  {
    i < |images| && !Acceptable(images[i]) && forall j :: 0 <= j < i ==> Acceptable(images[j])
  }

  function ValidateFrom(images: seq<ImageMetrics>, from: nat): (r: Result<bool, QualityError>)
    requires from <= |images|
    requires forall j :: 0 <= j < from ==> Acceptable(images[j])
    ensures r.Ok? <==> forall i :: from <= i < |images| ==> Acceptable(images[i])
    ensures r.Ok? ==> r.value
    ensures r.Err? ==> exists i :: from <= i < |images| && FirstFailure(images, i) && Some(r.error) == CheckImage(i, images[i])
    decreases |images| - from
  {
    if from == |images| then Ok(true)
    else
      match CheckImage(from, images[from])
      case Some(e) => Err(e)
      case None => ValidateFrom(images, from + 1)
  }

  /** Exactly 500 px in both dimensions and the boundary brightness values
      pass. */
  lemma BoundariesPass(contrast: real, sharpness: real)
    requires contrast >= MinContrast && sharpness >= MinSharpness
    ensures Acceptable(ImageMetrics(500, 500, 110.0, contrast, sharpness))
    ensures Acceptable(ImageMetrics(500, 500, 250.0, contrast, sharpness))
  {
  }

  /** Contrast has no upper bound: a very high contrast is accepted. */
  lemma HighContrastAccepted(m: ImageMetrics)
    requires Acceptable(m)
    ensures Acceptable(m.(contrast := m.contrast + 1000.0))
  {
  }

  /** An empty list passes. */
  lemma NoImagesPass()
    ensures QualityValidation([]) == Ok(true)
  {
  }
}
