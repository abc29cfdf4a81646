/** The edit session of the main window: the loaded image and its edited
    copy, the pending slider update, and the crop selection dragged over the
    preview. */
module Session {
  import opened Optional
  import opened Images
  import opened Selection
  import opened Viewport
  import opened Adjustments

  /** What pressing the crop button does. */
  datatype CropOutcome =
    | NoSelection            // no image, or the selection is hidden
    | TooSmall               // the selection is under 5 display units one way
    | Failed                 // the library refused the crop rectangle
    | Cropped(region: PixelRect)

  /** The smallest selection, in display units, that may be cropped. */
  const MinSelection: real := 5.0

  /** The preview's layout for the bitmap of `img`. */
  function DisplayGeometry(img: Image, dispW: real, dispH: real): (g: Geometry)
    requires WellFormed(img)
    ensures HasPixels(g)
  {
    Geometry(dispW, dispH, Width(img), Height(img))
  }

  /** The decision of lines 162–217: the guards, then the mapping, the
      clamp, and the library's acceptance of the clamped rectangle. A crop
      that happens lies inside the image; the first two outcomes are
      exactly the guards. */
  function CropPlan(current: Option<Image>, visible: bool, sel: Rect, dispW: real, dispH: real): (r: CropOutcome)
    requires current.Some? ==> WellFormed(current.value)
    ensures r.Cropped? ==> current.Some? && Fits(r.region, Width(current.value), Height(current.value))
    ensures r == NoSelection <==> current.None? || !visible
    ensures r == TooSmall <==> current.Some? && visible && (sel.width < MinSelection || sel.height < MinSelection)
  {
    if current.None? || !visible then NoSelection
    else if sel.width < MinSelection || sel.height < MinSelection then TooSmall
    else
      var img := current.value;
      match MapToPixels(sel, DisplayGeometry(img, dispW, dispH))
      case None => Failed
      case Some(p) =>
        var c := Clamp(p, Width(img), Height(img));
        if Fits(c, Width(img), Height(img)) then Cropped(c) else Failed
  }

  /** Once the guards pass, the crop fails exactly when the layout is
      degenerate, or the rounded selection starts right of or below the
      bitmap, or one of its rounded sizes is not positive. */
  lemma CropPlanFailed(img: Image, sel: Rect, dispW: real, dispH: real)
    requires WellFormed(img)
    requires sel.width >= MinSelection && sel.height >= MinSelection
    ensures var g := DisplayGeometry(img, dispW, dispH);
      CropPlan(Some(img), true, sel, dispW, dispH) == Failed <==>
        Degenerate(g) ||
        var p := MapToPixels(sel, g).value;
        !(IntMax(0, p.x) < Width(img) && IntMax(0, p.y) < Height(img) && 0 < p.w && 0 < p.h)
  {
    var g := DisplayGeometry(img, dispW, dispH);
    if !Degenerate(g) {
      ClampFitsIff(MapToPixels(sel, g).value, Width(img), Height(img));
    }
  }

  /** End to end: a selection drawn exactly over a rectangle of pixels that
      lies inside the bitmap, and large enough to pass the guard, crops to
      that rectangle. */
  lemma CropOfDisplayed(img: Image, dispW: real, dispH: real, p: PixelRect)
    requires WellFormed(img)
    requires !Degenerate(DisplayGeometry(img, dispW, dispH))
    requires Fits(p, Width(img), Height(img))
    requires Displayed(p, DisplayGeometry(img, dispW, dispH)).width >= MinSelection
    requires Displayed(p, DisplayGeometry(img, dispW, dispH)).height >= MinSelection
    ensures CropPlan(Some(img), true, Displayed(p, DisplayGeometry(img, dispW, dispH)), dispW, dispH) == Cropped(p)
  {
    var g := DisplayGeometry(img, dispW, dispH);
    MapInvertsFit(p, g);
    ClampShrinksOnlyPastEdge(p, Width(img), Height(img));
  }

  /** The main window's editing state. */
  class MainWindow {
    /** The library's colour processors. */
    const filters: Filters

    var original: Option<Image>      // `_originalImage`
    var current: Option<Image>       // `_currentImage`
    var sliders: Sliders             // the four slider positions
    var pending: bool                // the debounce timer is armed
    var cropStart: Point             // `_cropStart`
    var isCropping: bool             // `_isCropping`
    var selection: Rect              // `CropRect`'s position and size
    var selectionVisible: bool       // `CropRect.Visibility == Visible`

    /** The pointer position of the last drag step. */
    ghost var dragPos: Point
    /** The slider positions the edited image was derived with, if it was. */
    ghost var applied: Option<Sliders>

    /** The edited image is either the original or the original adjusted;
        both images are present together and have the same size; a timer is
        only armed when there is an image; during a drag the selection is
        the rectangle spanned by the press point and the pointer. */
    ghost predicate Valid()
      reads this
    {
      Conforms(filters) &&
      (original.None? <==> current.None?) &&
      (original.Some? ==> SameSize(original.value, current.value)) &&
      (applied.None? ==> current == original) &&
      (applied.Some? ==> original.Some? && current == Some(AdjustBy(filters, original.value, applied.value))) &&
      (pending ==> original.Some?) &&
      (isCropping ==> current.Some? && selection == Normalize(cropStart, dragPos)) &&
      (selectionVisible ==> current.Some?) &&
      selection.width >= 0.0 && selection.height >= 0.0
    }

    /** A window with no image, no armed timer, and the hidden, empty crop
        rectangle; the sliders start at `initial`. */
    constructor(f: Filters, initial: Sliders)
      requires Conforms(f)
      ensures Valid()
      ensures filters == f && sliders == initial
      ensures original.None? && current.None? && !pending
      ensures !isCropping && !selectionVisible && selection == Rect(0.0, 0.0, 0.0, 0.0)
    {
      filters := f;
      original := None;
      current := None;
      sliders := initial;
      pending := false;
      cropStart := Point(0.0, 0.0);
      isCropping := false;
      selection := Rect(0.0, 0.0, 0.0, 0.0);
      selectionVisible := false;
      dragPos := Point(0.0, 0.0);
      applied := None;
    }

    /** Lines 34–38: a chosen file's image becomes both the original and the
        edited image; a cancelled dialog changes nothing. An armed timer and
        the crop rectangle are left as they are. */
    method SelectImage(chosen: Option<Image>)
      requires Valid()
      requires chosen.Some? ==> WellFormed(chosen.value)
      modifies this
      ensures Valid()
      ensures chosen.Some? ==> original == chosen && current == chosen && applied.None?
      ensures chosen.None? ==> original == old(original) && current == old(current) && applied == old(applied)
      ensures sliders == old(sliders) && pending == old(pending)
      ensures cropStart == old(cropStart) && isCropping == old(isCropping) && dragPos == old(dragPos)
      ensures selection == old(selection) && selectionVisible == old(selectionVisible)
    {
      if chosen.Some? {
        original := chosen;
        current := original;
        applied := None;
      }
    }

    /** Lines 72–81: a slider moves to a new position; with an image loaded
        this (re)arms the timer, replacing any update still pending. */
    method SliderValueChanged(s: Sliders)
      requires Valid()
      modifies this
      ensures Valid()
      ensures sliders == s && pending == original.Some?
      ensures original == old(original) && current == old(current) && applied == old(applied)
      ensures cropStart == old(cropStart) && isCropping == old(isCropping) && dragPos == old(dragPos)
      ensures selection == old(selection) && selectionVisible == old(selectionVisible)
    {
      sliders := s;
      if original.None? {
        return;
      }
      pending := true;
    }

    /** Lines 105–120: the edited image is derived afresh from the original
        with the sliders' current positions; the original is not touched.
        Without an image nothing happens. */
    method ApplyAdjustments()
      requires Valid()
      modifies this
      ensures Valid()
      ensures original == old(original)
      ensures old(original).None? ==> current == old(current) && applied == old(applied)
      ensures old(original).Some? ==>
        current == Some(AdjustBy(filters, original.value, sliders)) && applied == Some(sliders)
      ensures sliders == old(sliders) && pending == old(pending)
      ensures cropStart == old(cropStart) && isCropping == old(isCropping) && dragPos == old(dragPos)
      ensures selection == old(selection) && selectionVisible == old(selectionVisible)
    {
      if original.None? {
        return;
      }
      current := Some(AdjustBy(filters, original.value, sliders));
      applied := Some(sliders);
    }

    /** Line 79: the armed timer fires once and runs the adjustments; with
        no timer armed nothing happens. */
    method DebounceElapsed()
      requires Valid()
      modifies this
      ensures Valid()
      ensures !pending && original == old(original)
      ensures old(pending) ==> current == Some(AdjustBy(filters, original.value, sliders)) && applied == Some(sliders)
      ensures !old(pending) ==> current == old(current) && applied == old(applied)
      ensures sliders == old(sliders)
      ensures cropStart == old(cropStart) && isCropping == old(isCropping) && dragPos == old(dragPos)
      ensures selection == old(selection) && selectionVisible == old(selectionVisible)
    {
      if pending {
        pending := false;
        ApplyAdjustments();
      }
    }

    /** Lines 126–137: with an image shown, a press starts a drag and shows
        the empty rectangle at the press point. */
    method CropMouseDown(pos: Point)
      requires Valid()
      modifies this
      ensures Valid()
      ensures old(current).Some? ==>
        isCropping && cropStart == pos && selection == Rect(pos.x, pos.y, 0.0, 0.0) && selectionVisible
      ensures old(current).None? ==>
        isCropping == old(isCropping) && cropStart == old(cropStart) &&
        selection == old(selection) && selectionVisible == old(selectionVisible)
      ensures original == old(original) && current == old(current) && applied == old(applied)
      ensures sliders == old(sliders) && pending == old(pending)
    {
      if current.None? {
        return;
      }
      isCropping := true;
      cropStart := pos;
      selection := Rect(pos.x, pos.y, 0.0, 0.0);
      selectionVisible := true;
      dragPos := pos;
      NormalizeAtPress(pos);
    }

    /** Lines 139–153: during a drag the rectangle follows the pointer;
        outside a drag a move changes nothing. */
    method CropMouseMove(pos: Point)
      requires Valid()
      modifies this
      ensures Valid()
      ensures old(isCropping) ==> selection == Normalize(cropStart, pos)
      ensures !old(isCropping) ==> selection == old(selection)
      ensures isCropping == old(isCropping) && cropStart == old(cropStart)
      ensures selectionVisible == old(selectionVisible)
      ensures original == old(original) && current == old(current) && applied == old(applied)
      ensures sliders == old(sliders) && pending == old(pending)
    {
      if !isCropping {
        return;
      }
      selection := Normalize(cropStart, pos);
      dragPos := pos;
    }

    /** Lines 155–158: releasing the button ends the drag; the rectangle
        stays where it is. */
    method CropMouseUp()
      requires Valid()
      modifies this
      ensures Valid()
      ensures !isCropping
      ensures cropStart == old(cropStart) && selection == old(selection) && selectionVisible == old(selectionVisible)
      ensures original == old(original) && current == old(current) && applied == old(applied)
      ensures sliders == old(sliders) && pending == old(pending)
    {
      isCropping := false;
    }

    /** Lines 160–227: the crop button, for a preview of `dispW` by `dispH`
        display units. The outcome is the one `CropPlan` decides. A crop
        that happens replaces the edited image by the selected block of
        itself, commits that block as the new original (so the adjustments
        become part of it) and hides the selection; every other outcome
        leaves the state as it was. */
    method Crop(dispW: real, dispH: real) returns (outcome: CropOutcome)
      requires Valid()
      modifies this
      ensures Valid()
      ensures outcome == CropPlan(old(current), old(selectionVisible), old(selection), dispW, dispH)
      ensures outcome.Cropped? ==>
        var c := outcome.region;
        current == Some(SubBlock(old(current).value, c.x, c.y, c.w, c.h)) &&
        original == current && applied.None? && !selectionVisible
      ensures !outcome.Cropped? ==>
        current == old(current) && original == old(original) && applied == old(applied) &&
        selectionVisible == old(selectionVisible)
      ensures sliders == old(sliders) && pending == old(pending)
      ensures cropStart == old(cropStart) && isCropping == old(isCropping) && dragPos == old(dragPos)
      ensures selection == old(selection)
    {
      if current.None? || !selectionVisible {
        return NoSelection;
      }
      var rect := selection;
      if rect.width < MinSelection || rect.height < MinSelection {
        return TooSmall;
      }
      var img := current.value;
      var imgW, imgH := Width(img), Height(img);
      var mapped := MapToPixels(rect, Geometry(dispW, dispH, imgW, imgH));
      if mapped.None? {
        return Failed;
      }
      var c := ApplyLimits(mapped.value, imgW, imgH);
      if !Fits(c, imgW, imgH) {
        // the library throws; the catch branch only reports it
        return Failed;
      }
      current := Some(SubBlock(img, c.x, c.y, c.w, c.h));
      original := current;
      applied := None;
      selectionVisible := false;
      outcome := Cropped(c);
    }
  }
}
