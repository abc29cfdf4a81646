/** The selection rectangle the user drags on the crop canvas, in display
    coordinates. */
module Selection {

  /** A pointer position on the crop canvas. */
  datatype Point = Point(x: real, y: real)

  /** The crop rectangle's `Canvas.Left`, `Canvas.Top`, `Width` and `Height`. */
  datatype Rect = Rect(left: real, top: real, width: real, height: real)

  function Min(a: real, b: real): real {
    if a <= b then a else b
  }

  function Abs(a: real): real {
    if a < 0.0 then -a else a
  }

  /** `p` lies on or inside `r`. */
  predicate Encloses(r: Rect, p: Point) {
    r.left <= p.x <= r.left + r.width && r.top <= p.y <= r.top + r.height
  }

  /** `inner` lies on or inside `outer`. */
  predicate Covers(outer: Rect, inner: Rect) {
    outer.left <= inner.left && inner.left + inner.width <= outer.left + outer.width &&
    outer.top <= inner.top && inner.top + inner.height <= outer.top + outer.height
  }

  /** The rectangle drawn for a drag from `start` to `pos`: its size is never
      negative, and of its two vertical edges one passes through `start` and
      the other through `pos` (likewise the horizontal edges). */
  function Normalize(start: Point, pos: Point): (r: Rect)
    ensures r.width >= 0.0 && r.height >= 0.0
    ensures (r.left == start.x && r.left + r.width == pos.x) ||
            (r.left == pos.x && r.left + r.width == start.x)
    ensures (r.top == start.y && r.top + r.height == pos.y) ||
            (r.top == pos.y && r.top + r.height == start.y)
  {
    Rect(Min(pos.x, start.x), Min(pos.y, start.y), Abs(pos.x - start.x), Abs(pos.y - start.y))
  }

  /** The drawn rectangle sits at the smaller coordinates and spans their distance. */
  lemma NormalizeMinAbs(start: Point, pos: Point)
    ensures Normalize(start, pos).left == Min(start.x, pos.x)
    ensures Normalize(start, pos).top == Min(start.y, pos.y)
    ensures Normalize(start, pos).width == Abs(pos.x - start.x)
    ensures Normalize(start, pos).height == Abs(pos.y - start.y)
  {
  }

  /** The drawn rectangle is the smallest one holding both ends of the drag:
      a rectangle encloses both points exactly when it covers it. */
  lemma NormalizeSmallest(start: Point, pos: Point, outer: Rect)
    ensures Encloses(outer, start) && Encloses(outer, pos) <==> Covers(outer, Normalize(start, pos))
  {
  }

  /** Dragging from `a` to `b` or from `b` to `a` draws the same rectangle. */
  lemma NormalizeSymmetric(a: Point, b: Point)
    ensures Normalize(a, b) == Normalize(b, a)
  {
  }

  /** A drag that has not moved yet is the empty rectangle at the press point,
      which is what a mouse press sets up. */
  lemma NormalizeAtPress(p: Point)
    ensures Normalize(p, p) == Rect(p.x, p.y, 0.0, 0.0)
  {
  }
}
