/** The colour adjustments of the edit view: brightness, then contrast, then
    an optional Gaussian sharpen. The pixel mathematics belongs to the
    ImageSharp library and is not modelled; the three processors are given
    as functions, and all the model relies on is stated in `Conforms` and
    `Neutral`. */
module Adjustments {
  import opened Images

  /** The library's `Brightness(amount)`, `Contrast(amount)` and
      `GaussianSharpen(sigma)` processors. */
  datatype Filters = Filters(
    brightness: (Image, real) -> Image,
    contrast: (Image, real) -> Image,
    sharpen: (Image, real) -> Image)

  /** A processor that keeps a decoded image decoded and of the same size. */
  ghost predicate KeepsSize(p: (Image, real) -> Image) {
    forall img: Image, amount: real :: WellFormed(img) ==> SameSize(img, p(img, amount))
  }

  /** None of the three processors changes an image's size. */
  ghost predicate Conforms(f: Filters) {
    KeepsSize(f.brightness) && KeepsSize(f.contrast) && KeepsSize(f.sharpen)
  }

  /** An amount of 1 is the library's "no change" for brightness and
      contrast. */
  ghost predicate Neutral(f: Filters) {
    (forall img: Image :: f.brightness(img, 1.0) == img) &&
    (forall img: Image :: f.contrast(img, 1.0) == img)
  }

  /** The processing pipeline of lines 114–120: brightness, then contrast,
      then a sharpen that is part of the pipeline only for a positive
      sharpness. */
  function Adjust(f: Filters, img: Image, brightness: real, contrast: real, sharpness: real): (r: Image)
    ensures Conforms(f) && WellFormed(img) ==> SameSize(img, r)
  {
    var toned := f.contrast(f.brightness(img, brightness), contrast);
    if sharpness > 0.0 then f.sharpen(toned, sharpness) else toned
  }

  /** Without a positive sharpness the sharpen processor is never applied:
      the result does not depend on it. */
  lemma SharpenOnlyWhenPositive(f: Filters, g: Filters, img: Image, b: real, c: real, s: real)
    requires f.brightness == g.brightness && f.contrast == g.contrast
    ensures s <= 0.0 ==> Adjust(f, img, b, c, s) == Adjust(g, img, b, c, s)
    ensures s > 0.0 ==> Adjust(f, img, b, c, s) == f.sharpen(Adjust(f, img, b, c, 0.0), s)
  {
  }

  /** Brightness and contrast at 1 with no sharpening give the image back:
      the adjustments start from an unaltered copy every time. */
  lemma AdjustNeutral(f: Filters, img: Image, b: real, c: real, s: real)
    requires Neutral(f) && b == 1.0 && c == 1.0 && s <= 0.0
    ensures Adjust(f, img, b, c, s) == img
  {
    assert f.brightness(img, 1.0) == img;
    assert f.contrast(img, 1.0) == img;
  }

  /** The positions of the four sliders: brightness, contrast, sharpness and
      the overall strength that scales the first two. */
  datatype Sliders = Sliders(brightness: real, contrast: real, sharpness: real, total: real)

  /** A slider amount scaled by the overall strength. */
  function Scaled(amount: real, total: real): real {
    amount * total
  }

  /** Lines 109–120: the pipeline run with the amounts the sliders give;
      the overall strength scales brightness and contrast but not the
      sharpness. */
  function AdjustBy(f: Filters, img: Image, s: Sliders): (r: Image)
    ensures Conforms(f) && WellFormed(img) ==> SameSize(img, r)
  {
    Adjust(f, img, Scaled(s.brightness, s.total), Scaled(s.contrast, s.total), s.sharpness)
  }

  /** Sliders whose scaled brightness and contrast are both 1 and whose
      sharpness is not positive leave the image as it is. */
  lemma AdjustByNeutral(f: Filters, img: Image, s: Sliders)
    requires Neutral(f)
    requires s.brightness * s.total == 1.0 && s.contrast * s.total == 1.0 && s.sharpness <= 0.0
    ensures AdjustBy(f, img, s) == img
  {
    AdjustNeutral(f, img, Scaled(s.brightness, s.total), Scaled(s.contrast, s.total), s.sharpness);
  }
}
