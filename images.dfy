/** Raster images as the editor holds them: a grid of 32-bit RGBA pixels,
    stored row by row (the `Image<Rgba32>` of the ImageSharp library). */
module Images {

  newtype Byte = x: int | 0 <= x < 256

  /** One pixel: red, green, blue and alpha channels of 8 bits each. */
  datatype Rgba32 = Rgba32(r: Byte, g: Byte, b: Byte, a: Byte)

  /** Row i of an image holds the pixels of line i, from left to right. */
  type Image = seq<seq<Rgba32>>

  /** A decoded image has at least one row and one column, and all rows
      have the same length. */
  predicate WellFormed(img: Image) {
    |img| > 0 && |img[0]| > 0 && forall i :: 0 <= i < |img| ==> |img[i]| == |img[0]|
  }

  function Width(img: Image): nat
    requires WellFormed(img)
  {
    |img[0]|
  }

  function Height(img: Image): nat
    requires WellFormed(img)
  {
    |img|
  }

  /** True when both images are well formed and have the same size. */
  predicate SameSize(a: Image, b: Image) {
    WellFormed(a) && WellFormed(b) && Width(a) == Width(b) && Height(a) == Height(b)
  }

  /** The `h`-by-`w` block of `img` whose top-left pixel is at column `x`,
      row `y`: what ImageSharp's `Crop(Rectangle(x, y, w, h))` leaves. */
  function SubBlock(img: Image, x: nat, y: nat, w: nat, h: nat): (r: Image)
    requires WellFormed(img)
    requires 0 < w && 0 < h && x + w <= Width(img) && y + h <= Height(img)
    ensures WellFormed(r) && Width(r) == w && Height(r) == h
    ensures forall i, j :: 0 <= i < h && 0 <= j < w ==> r[i][j] == img[y + i][x + j]
  {
    seq(h, i requires 0 <= i < h => img[y + i][x .. x + w])
  }

  /** Cropping to the whole image gives the image back. */
  lemma SubBlockWhole(img: Image)
    requires WellFormed(img)
    ensures SubBlock(img, 0, 0, Width(img), Height(img)) == img
  {
    var r := SubBlock(img, 0, 0, Width(img), Height(img));
    forall i | 0 <= i < |img|
      ensures r[i] == img[i]
    {
      assert |img[i]| == Width(img);
    }
  }

  /** Two crops in a row are one crop whose corner is the sum of the two
      corners: cropping a committed crop again only shifts the origin. */
  lemma SubBlockCompose(img: Image, x1: nat, y1: nat, w1: nat, h1: nat, x2: nat, y2: nat, w2: nat, h2: nat)
    requires WellFormed(img)
    requires 0 < w1 && 0 < h1 && x1 + w1 <= Width(img) && y1 + h1 <= Height(img)
    requires 0 < w2 && 0 < h2 && x2 + w2 <= w1 && y2 + h2 <= h1
    ensures SubBlock(SubBlock(img, x1, y1, w1, h1), x2, y2, w2, h2)
         == SubBlock(img, x1 + x2, y1 + y2, w2, h2)
  {
    var inner := SubBlock(img, x1, y1, w1, h1);
    var twice := SubBlock(inner, x2, y2, w2, h2);
    var once := SubBlock(img, x1 + x2, y1 + y2, w2, h2);
    forall i | 0 <= i < h2
      ensures twice[i] == once[i]
    {
      forall j | 0 <= j < w2
        ensures twice[i][j] == once[i][j]
      {
        assert twice[i][j] == inner[y2 + i][x2 + j];
      }
    }
  }
}
