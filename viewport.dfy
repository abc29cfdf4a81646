/** Mapping a selection drawn over the preview back to pixels of the
    displayed bitmap. The preview shows the bitmap scaled to fit its area
    uniformly and centred, so one axis may carry empty margins. */
module Viewport {
  import opened Optional
  import opened Rounding
  import opened Selection

  /** The preview's on-screen size (`ActualWidth`, `ActualHeight`) and the
      displayed bitmap's size in pixels (`PixelWidth`, `PixelHeight`). */
  datatype Geometry = Geometry(dispW: real, dispH: real, imgW: int, imgH: int)

  /** A rectangle of bitmap pixels: corner column and row, width and height. */
  datatype PixelRect = PixelRect(x: int, y: int, w: int, h: int)

  /** A bitmap always has at least one pixel each way. */
  predicate HasPixels(g: Geometry) {
    g.imgW > 0 && g.imgH > 0
  }

  function RealMin(a: real, b: real): real {
    if a <= b then a else b
  }

  /** The factor by which the fit layout scales the bitmap. */
  function Ratio(g: Geometry): real
    requires HasPixels(g)
  {
    RealMin(g.dispW / g.imgW as real, g.dispH / g.imgH as real)
  }

  /** The left margin of the centred, scaled bitmap. */
  function OffsetX(g: Geometry): real
    requires HasPixels(g)
  {
    (g.dispW - g.imgW as real * Ratio(g)) / 2.0
  }

  /** The top margin of the centred, scaled bitmap. */
  function OffsetY(g: Geometry): real
    requires HasPixels(g)
  {
    (g.dispH - g.imgH as real * Ratio(g)) / 2.0
  }

  /** The displayed extents the inverse scales are taken from: the display
      size less both margins. */
  function ExtentX(g: Geometry): real
    requires HasPixels(g)
  {
    g.dispW - 2.0 * OffsetX(g)
  }

  function ExtentY(g: Geometry): real
    requires HasPixels(g)
  {
    g.dispH - 2.0 * OffsetY(g)
  }

  /** A geometry whose inverse scale would divide by zero. */
  predicate Degenerate(g: Geometry)
    requires HasPixels(g)
  {
    ExtentX(g) == 0.0 || ExtentY(g) == 0.0
  }

  function ScaleX(g: Geometry): real
    requires HasPixels(g) && !Degenerate(g)
  {
    g.imgW as real / ExtentX(g)
  }

  function ScaleY(g: Geometry): real
    requires HasPixels(g) && !Degenerate(g)
  {
    g.imgH as real / ExtentY(g)
  }

  /** The algebra of the fit layout: both margins are non-negative and at
      least one is zero; the display size less the margins is the scaled
      bitmap; so the geometry is degenerate exactly when the ratio is zero,
      and otherwise both inverse scales equal the reciprocal of the ratio. */
  lemma FitRatio(g: Geometry)
    requires HasPixels(g)
    ensures OffsetX(g) >= 0.0 && OffsetY(g) >= 0.0
    ensures OffsetX(g) == 0.0 || OffsetY(g) == 0.0
    ensures ExtentX(g) == g.imgW as real * Ratio(g)
    ensures ExtentY(g) == g.imgH as real * Ratio(g)
    ensures Degenerate(g) <==> Ratio(g) == 0.0
    ensures !Degenerate(g) ==> Ratio(g) != 0.0 && ScaleX(g) == 1.0 / Ratio(g) && ScaleY(g) == 1.0 / Ratio(g)
  {
    var w, h, r := g.imgW as real, g.imgH as real, Ratio(g);
    assert w * (g.dispW / w) == g.dispW;
    assert h * (g.dispH / h) == g.dispH;
    if r != 0.0 {
      assert ScaleX(g) == w / (w * r);
      assert ScaleY(g) == h / (h * r);
    }
  }

  /** The numbers of the fit layout that the mapping uses: the ratio, the
      two margins and the two inverse scales. */
  datatype Layout = Layout(ratio: real, offsetX: real, offsetY: real, scaleX: real, scaleY: real)

  function LayoutOf(g: Geometry): Layout
    requires HasPixels(g) && !Degenerate(g)
  {
    Layout(Ratio(g), OffsetX(g), OffsetY(g), ScaleX(g), ScaleY(g))
  }

  /** Both inverse scales are the reciprocal of a non-zero ratio. */
  predicate Reciprocal(l: Layout) {
    l.ratio != 0.0 && l.scaleX == 1.0 / l.ratio && l.scaleY == 1.0 / l.ratio
  }

  /** A non-degenerate geometry has reciprocal scales. */
  lemma LayoutReciprocal(g: Geometry)
    requires HasPixels(g) && !Degenerate(g)
    ensures Reciprocal(LayoutOf(g))
  {
    FitRatio(g);
  }

  /** Where a layout draws the pixel rectangle `p` on screen. */
  function Place(p: PixelRect, l: Layout): Rect {
    Rect(l.offsetX + p.x as real * l.ratio, l.offsetY + p.y as real * l.ratio,
         p.w as real * l.ratio, p.h as real * l.ratio)
  }

  /** One size taken back to bitmap pixels: the inverse scale applied and
      the result rounded. */
  function BackSize(size: real, scale: real): int {
    Round(size * scale)
  }

  /** One coordinate taken back to bitmap pixels: the margin removed, then
      the same as a size. */
  function Back(placed: real, offset: real, scale: real): int {
    BackSize(placed - offset, scale)
  }

  /** Lines 203–206 for a given layout: the selection taken back to bitmap
      pixels and rounded. */
  function Unplace(sel: Rect, l: Layout): PixelRect {
    PixelRect(Back(sel.left, l.offsetX, l.scaleX),
              Back(sel.top, l.offsetY, l.scaleY),
              BackSize(sel.width, l.scaleX),
              BackSize(sel.height, l.scaleY))
  }

  /** The selection taken back to bitmap pixels, before clamping; `None`
      stands for a degenerate geometry, where the source's floating-point
      division by zero has no real-number counterpart. */
  function MapToPixels(sel: Rect, g: Geometry): (r: Option<PixelRect>)
    requires HasPixels(g)
    ensures r.None? <==> Degenerate(g)
  {
    if Degenerate(g) then None else Some(Unplace(sel, LayoutOf(g)))
  }

  /** Where the preview draws the pixel rectangle `p` of the bitmap. */
  function Displayed(p: PixelRect, g: Geometry): Rect
    requires HasPixels(g) && !Degenerate(g)
  {
    Place(p, LayoutOf(g))
  }

  /** Multiplying by the reciprocal of a non-zero ratio undoes multiplying
      by the ratio. */
  lemma CancelRatio(x: real, ratio: real, scale: real)
    requires ratio != 0.0 && scale == 1.0 / ratio
    ensures (x * ratio) * scale == x
  {
    assert ratio * scale == 1.0;
    assert (x * ratio) * scale == x * (ratio * scale);
  }

  /** On one axis: a size placed as `v * ratio` and taken back with the
      reciprocal scale is `v` again. */
  lemma BackSizePlaced(placed: real, v: int, ratio: real, scale: real)
    requires ratio != 0.0 && scale == 1.0 / ratio
    requires placed == v as real * ratio
    ensures BackSize(placed, scale) == v
  {
    var t := placed * scale;
    assert t == v as real by { CancelRatio(v as real, ratio, scale); }
    RoundUnique(t, v);
  }

  /** On one axis: a coordinate placed at `offset + v * ratio` and taken
      back with the reciprocal scale is `v` again. */
  lemma BackPlaced(placed: real, offset: real, v: int, ratio: real, scale: real)
    requires ratio != 0.0 && scale == 1.0 / ratio
    requires placed == offset + v as real * ratio
    ensures Back(placed, offset, scale) == v
  {
    BackSizePlaced(placed - offset, v, ratio, scale);
  }

  /** Taking a placed rectangle back through a layout with reciprocal
      scales gives the rectangle again. */
  lemma UnplacePlace(p: PixelRect, l: Layout)
    requires Reciprocal(l)
    ensures Unplace(Place(p, l), l) == p
  {
    var sel := Place(p, l);
    BackPlaced(sel.left, l.offsetX, p.x, l.ratio, l.scaleX);
    BackPlaced(sel.top, l.offsetY, p.y, l.ratio, l.scaleY);
    BackSizePlaced(sel.width, p.w, l.ratio, l.scaleX);
    BackSizePlaced(sel.height, p.h, l.ratio, l.scaleY);
  }

  /** Mapping inverts the fit layout: a selection that is exactly the
      on-screen image of a pixel rectangle maps back to that rectangle. */
  lemma MapInvertsFit(p: PixelRect, g: Geometry)
    requires HasPixels(g) && !Degenerate(g)
    ensures MapToPixels(Displayed(p, g), g) == Some(p)
  {
    LayoutReciprocal(g);
    UnplacePlace(p, LayoutOf(g));
  }

  /** On a layout with non-negative scales a selection of non-negative
      size comes back with non-negative sizes. */
  lemma UnplaceSizeNonNegative(sel: Rect, l: Layout)
    requires l.scaleX >= 0.0 && l.scaleY >= 0.0
    requires sel.width >= 0.0 && sel.height >= 0.0
    ensures Unplace(sel, l).w >= 0 && Unplace(sel, l).h >= 0
  {
    var tw, th := sel.width * l.scaleX, sel.height * l.scaleY;
    assert tw >= 0.0 && th >= 0.0;
    RoundInt(0);
    RoundMonotone(0.0, tw);
    RoundMonotone(0.0, th);
  }

  /** A selection of non-negative size maps to a pixel rectangle of
      non-negative size whenever the preview is laid out at all. */
  lemma MapKeepsSizeNonNegative(sel: Rect, g: Geometry)
    requires HasPixels(g) && g.dispW >= 0.0 && g.dispH >= 0.0 && !Degenerate(g)
    requires sel.width >= 0.0 && sel.height >= 0.0
    ensures MapToPixels(sel, g).Some?
    ensures MapToPixels(sel, g).value.w >= 0 && MapToPixels(sel, g).value.h >= 0
  {
    FitRatio(g);
    var l := LayoutOf(g);
    assert l.ratio > 0.0 by {
      assert g.dispW / g.imgW as real >= 0.0 && g.dispH / g.imgH as real >= 0.0;
    }
    assert l.scaleX > 0.0 && l.scaleY > 0.0;
    UnplaceSizeNonNegative(sel, l);
  }

  /** A preview of 200 by 100 showing a 400 by 200 bitmap, and the selection
      at (10, 10) of size 50 by 50: it maps to the pixel rectangle at
      (20, 20) of size 100 by 100. */
  lemma MapExample()
    ensures MapToPixels(Rect(10.0, 10.0, 50.0, 50.0), Geometry(200.0, 100.0, 400, 200))
         == Some(PixelRect(20, 20, 100, 100))
  {
    var g := Geometry(200.0, 100.0, 400, 200);
    assert Ratio(g) == 0.5;
    assert OffsetX(g) == 0.0 && OffsetY(g) == 0.0;
    assert ExtentX(g) == 200.0 && ExtentY(g) == 100.0;
    assert LayoutOf(g) == Layout(0.5, 0.0, 0.0, 2.0, 2.0);
    RoundInt(20);
    RoundInt(100);
  }

  function IntMax(a: int, b: int): int {
    if a >= b then a else b
  }

  /** The clamp as a value: the corner is moved to non-negative coordinates,
      then a size that would reach past the bitmap's edge is cut back to it. */
  function Clamp(p: PixelRect, imgW: int, imgH: int): PixelRect {
    var x := IntMax(0, p.x);
    var y := IntMax(0, p.y);
    PixelRect(x, y,
              if x + p.w > imgW then imgW - x else p.w,
              if y + p.h > imgH then imgH - y else p.h)
  }

  /** The clamp of lines 209–212, one conditional reassignment after
      another. The corner is clamped first, and the clamped corner is what
      the size checks use. */
  method ApplyLimits(p: PixelRect, imgW: int, imgH: int) returns (c: PixelRect)
    ensures c.x >= 0 && c.y >= 0 && c.x + c.w <= imgW && c.y + c.h <= imgH
    ensures c == Clamp(p, imgW, imgH)
  {
    var cropX, cropY, cropW, cropH := p.x, p.y, p.w, p.h;
    if cropX < 0 { cropX := 0; }
    if cropY < 0 { cropY := 0; }
    if cropX + cropW > imgW { cropW := imgW - cropX; }
    if cropY + cropH > imgH { cropH := imgH - cropY; }
    c := PixelRect(cropX, cropY, cropW, cropH);
  }

  /** After the clamp the rectangle starts inside the first quadrant and
      ends no further than the bitmap's right and bottom edges. */
  lemma ClampBounds(p: PixelRect, imgW: int, imgH: int)
    ensures Clamp(p, imgW, imgH).x >= 0 && Clamp(p, imgW, imgH).y >= 0
    ensures Clamp(p, imgW, imgH).x + Clamp(p, imgW, imgH).w <= imgW
    ensures Clamp(p, imgW, imgH).y + Clamp(p, imgW, imgH).h <= imgH
  {
  }

  /** A size is changed exactly when it reached past the edge, and then it
      only shrinks; a rectangle already inside the bitmap is left alone. */
  lemma ClampShrinksOnlyPastEdge(p: PixelRect, imgW: int, imgH: int)
    ensures Clamp(p, imgW, imgH).w == p.w <==> IntMax(0, p.x) + p.w <= imgW
    ensures Clamp(p, imgW, imgH).h == p.h <==> IntMax(0, p.y) + p.h <= imgH
    ensures Clamp(p, imgW, imgH).w <= p.w && Clamp(p, imgW, imgH).h <= p.h
    ensures 0 <= p.x && 0 <= p.y && p.x + p.w <= imgW && p.y + p.h <= imgH ==> Clamp(p, imgW, imgH) == p
  {
  }

  /** A rectangle the library's crop accepts: non-empty and inside the bitmap. */
  predicate Fits(c: PixelRect, imgW: int, imgH: int) {
    0 <= c.x && 0 <= c.y && 0 < c.w && 0 < c.h && c.x + c.w <= imgW && c.y + c.h <= imgH
  }

  /** The clamped rectangle is accepted exactly when its corner lies inside
      the bitmap and the rounded sizes were positive: the clamp cannot repair
      a selection that starts right of or below the bitmap. */
  lemma ClampFitsIff(p: PixelRect, imgW: int, imgH: int)
    ensures Fits(Clamp(p, imgW, imgH), imgW, imgH) <==>
      IntMax(0, p.x) < imgW && IntMax(0, p.y) < imgH && 0 < p.w && 0 < p.h
  {
  }

  /** A selection overhanging the bitmap's left edge is shifted, not
      trimmed: its width is kept, so the crop reaches `-p.x` columns further
      right than the selection did (and likewise at the top edge). */
  lemma ClampShiftsLeftOverhang(p: PixelRect, imgW: int, imgH: int)
    requires p.x < 0 && 0 < p.w <= imgW
    ensures Clamp(p, imgW, imgH).x == 0 && Clamp(p, imgW, imgH).w == p.w
  {
  }
}
