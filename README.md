# print-optimizer: the crop and adjustment core of the main window

The main window of print-optimizer (`KirtasiyeApp.MainWindow`) is a small
photo editor for prints. A user loads a picture, moves sliders for
brightness, contrast, sharpness and overall strength, drags a crop rectangle
over the preview, and crops. This project models the three pieces of logic
inside its event handlers and proves properties about them.

- **Drag normalisation** (`selection.dfy`, module `Selection`). A drag from
  the press point to the pointer becomes a rectangle with its corner at the
  smaller coordinates and a non-negative size.
- **Display-to-pixel mapping and clamp** (`viewport.dfy`, module `Viewport`;
  `rounding.dfy`, module `Rounding`). The preview shows the bitmap scaled
  uniformly to fit and centred. The crop button inverts that layout, rounds
  with .NET's `Math.Round` (to nearest, ties to even, modelled exactly), and
  clamps the result to the bitmap one reassignment after another.
- **The edit session** (`session.dfy`, module `Session`, class `MainWindow`;
  `adjustments.dfy`, module `Adjustments`; `images.dfy`, module `Images`).
  It tracks the original and edited images, the armed debounce timer, the
  drag state, and the crop rectangle with its visibility. An adjustment
  always re-derives the edited image from the original. A crop replaces the
  edited image by a block of itself and commits that block as the new
  original.

The class invariant `MainWindow.Valid` holds in every state that each
operation leaves behind. It says:

- both images are present together and have the same size;
- the edited image is the original itself, or the original adjusted with
  some slider positions;
- a timer is armed only when there is an image;
- during a drag, the rectangle is the one spanned by the press point and
  the pointer.

Images are grids of RGBA pixels (`seq<seq<Rgba32>>`), and a crop is 2-D
slicing. The three ImageSharp processors (brightness, contrast, Gaussian
sharpen) are not written out. They are values of a `Filters` datatype, and
the model assumes only two things about them, stated as predicates:

- `Conforms`: they keep an image's size.
- `Neutral`: brightness and contrast at amount 1 leave an image unchanged.

The window's layout queries are inputs to the operations: the preview's
`ActualWidth` and `ActualHeight`, and the pointer positions.

Two places where a plain reading of the handlers is easy to get wrong:

- Loading a new image does not disarm a debounce timer that is already
  armed. `SelectImage` leaves `pending` alone, so a later
  `DebounceElapsed` adjusts the new image with the current slider
  positions.
- A crop commits the adjusted image as the new original, and the sliders
  keep their positions. The next adjustment therefore applies the sliders
  again on top of the committed adjustment. `MainWindow.Crop` states this:
  `original == current` with `applied.None?`.

## Model

| member | source | states |
|---|---|---|
| Selection.Normalize | print-optimizer/MainWindow.xaml.cs:144-147 | the drawn rectangle has non-negative width and height, and on each axis one edge passes through the press point and the other through the pointer |
| Selection.NormalizeMinAbs | print-optimizer/MainWindow.xaml.cs:144-147 | the corner is at the smaller of the two coordinates on each axis, and the size is their distance |
| Selection.NormalizeSmallest | print-optimizer/MainWindow.xaml.cs:144-152 | a rectangle encloses both ends of the drag exactly when it covers the drawn rectangle, so the drawn rectangle is the smallest holding both points |
| Selection.NormalizeSymmetric | print-optimizer/MainWindow.xaml.cs:144-147 | swapping the press point and the pointer draws the same rectangle |
| Selection.NormalizeAtPress | print-optimizer/MainWindow.xaml.cs:130-135 | the empty rectangle a press sets up is the drag rectangle of a drag that has not moved |
| Rounding.Round | print-optimizer/MainWindow.xaml.cs:203-206 | the result is within one half of the argument, and an exact tie goes to the even integer (.NET `Math.Round`) |
| Rounding.RoundUnique | print-optimizer/MainWindow.xaml.cs:203-206 | only one integer is a correct rounding, so that specification determines `Round` completely |
| Rounding.RoundInt | print-optimizer/MainWindow.xaml.cs:203-206 | an integer rounds to itself |
| Rounding.RoundMonotone | print-optimizer/MainWindow.xaml.cs:203-206 | rounding preserves order |
| Viewport.FitRatio | print-optimizer/MainWindow.xaml.cs:192-200 | both margins are non-negative and at least one is zero; display size less both margins is bitmap size times ratio; the geometry is degenerate exactly when the ratio is 0; otherwise both inverse scales equal 1/ratio |
| Viewport.LayoutReciprocal | print-optimizer/MainWindow.xaml.cs:192-200 | in a non-degenerate geometry, both inverse scales are the reciprocal of a non-zero ratio |
| Viewport.MapToPixels | print-optimizer/MainWindow.xaml.cs:192-206 | the mapping gives no rectangle exactly when the geometry is degenerate (the source divides by zero there) |
| Viewport.BackSizePlaced | print-optimizer/MainWindow.xaml.cs:205-206 | a size drawn at the ratio and scaled back by the reciprocal rounds to the original pixel size |
| Viewport.BackPlaced | print-optimizer/MainWindow.xaml.cs:203-204 | a coordinate drawn at margin plus ratio times v, with the margin removed and scaled back by the reciprocal, rounds to v |
| Viewport.UnplacePlace | print-optimizer/MainWindow.xaml.cs:203-206 | taking a drawn rectangle back through a layout with reciprocal scales gives the pixel rectangle again |
| Viewport.MapInvertsFit | print-optimizer/MainWindow.xaml.cs:192-206 | the mapping inverts the fit layout: the on-screen image of any pixel rectangle maps back to exactly that rectangle |
| Viewport.UnplaceSizeNonNegative | print-optimizer/MainWindow.xaml.cs:205-206 | at non-negative scales a selection of non-negative size comes back with non-negative sizes |
| Viewport.MapKeepsSizeNonNegative | print-optimizer/MainWindow.xaml.cs:192-206 | in a non-degenerate layout of a non-negative display, a selection of non-negative size maps to a rectangle of non-negative size |
| Viewport.MapExample | print-optimizer/MainWindow.xaml.cs:192-206 | a 400×200 bitmap in a 200×100 preview maps the selection (10, 10, 50, 50) to the pixel rectangle (20, 20, 100, 100) |
| Viewport.ApplyLimits | print-optimizer/MainWindow.xaml.cs:209-212 | the four conditional reassignments compute `Clamp`: the corner is non-negative and the far edges lie within the bitmap |
| Viewport.ClampBounds | print-optimizer/MainWindow.xaml.cs:209-212 | after the clamp, the corner is in the first quadrant and the rectangle ends no further than the right and bottom edges |
| Viewport.ClampShrinksOnlyPastEdge | print-optimizer/MainWindow.xaml.cs:209-212 | a size is kept exactly when the clamped corner plus that size stays within the edge; a size only ever shrinks; an in-bounds rectangle is left unchanged |
| Viewport.ClampFitsIff | print-optimizer/MainWindow.xaml.cs:209-217 | the clamped rectangle is non-empty and inside the bitmap exactly when the clamped corner lies inside and both rounded sizes are positive |
| Viewport.ClampShiftsLeftOverhang | print-optimizer/MainWindow.xaml.cs:209-211 | a selection overhanging the left edge is moved to column 0 and keeps its width, so it is shifted, not trimmed |
| Images.SubBlock | print-optimizer/MainWindow.xaml.cs:216-217 | the crop is the h-by-w block whose pixel (i, j) is the source pixel (y+i, x+j) |
| Images.SubBlockWhole | print-optimizer/MainWindow.xaml.cs:216-217 | cropping to the whole image gives the image back |
| Images.SubBlockCompose | print-optimizer/MainWindow.xaml.cs:216-218 | cropping a committed crop again is one crop from the first image, at the sum of the two corners |
| Adjustments.Adjust | print-optimizer/MainWindow.xaml.cs:114-120 | with processors that keep sizes, the adjusted image has the size of its input |
| Adjustments.SharpenOnlyWhenPositive | print-optimizer/MainWindow.xaml.cs:118-119 | for a sharpness ≤ 0 the sharpen processor plays no part; for a positive one it is applied last, to the unsharpened result |
| Adjustments.AdjustNeutral | print-optimizer/MainWindow.xaml.cs:114-119 | brightness and contrast at 1 with no sharpening give the input image back |
| Adjustments.AdjustBy | print-optimizer/MainWindow.xaml.cs:109-120 | the slider-driven adjustment keeps the image's size |
| Adjustments.AdjustByNeutral | print-optimizer/MainWindow.xaml.cs:109-119 | sliders whose brightness and contrast, each scaled by the overall strength, are 1, with a sharpness ≤ 0, restore the original image |
| Session.DisplayGeometry | print-optimizer/MainWindow.xaml.cs:184-189 | the geometry of a decoded bitmap always has at least one pixel each way |
| Session.CropPlan | print-optimizer/MainWindow.xaml.cs:162-217 | the outcome is "no selection" exactly when there is no image or the rectangle is hidden, and "too small" exactly when the guards otherwise pass but a side is under 5; a crop that happens lies inside the image |
| Session.CropPlanFailed | print-optimizer/MainWindow.xaml.cs:192-226 | once the guards pass, the crop fails exactly when the layout is degenerate, or the rounded rectangle starts right of or below the bitmap, or a rounded size is not positive |
| Session.CropOfDisplayed | print-optimizer/MainWindow.xaml.cs:168-217 | a selection drawn exactly over an in-bounds pixel rectangle and large enough for the guard crops to exactly that rectangle |
| Session.MainWindow.constructor | print-optimizer/MainWindow.xaml.cs:19-29 | the window starts with no image, no armed timer, no drag and a hidden crop rectangle, and satisfies the invariant |
| Session.MainWindow.SelectImage | print-optimizer/MainWindow.xaml.cs:34-38 | a chosen image becomes both the original and the edited image; a cancelled dialog changes nothing; the timer and the crop rectangle are left alone |
| Session.MainWindow.SliderValueChanged | print-optimizer/MainWindow.xaml.cs:72-81 | the slider takes its new position; the timer is armed exactly when an image is loaded, replacing any earlier one; the images are unchanged |
| Session.MainWindow.ApplyAdjustments | print-optimizer/MainWindow.xaml.cs:105-120 | with an image, the edited image becomes the original adjusted with the current sliders; the original never changes; without an image nothing changes |
| Session.MainWindow.DebounceElapsed | print-optimizer/MainWindow.xaml.cs:76-80 | an armed timer fires once and runs the adjustment; with no timer armed the images are unchanged |
| Session.MainWindow.CropMouseDown | print-optimizer/MainWindow.xaml.cs:126-137 | with an image, a drag starts at the press point and the empty rectangle there is shown; without one, nothing changes |
| Session.MainWindow.CropMouseMove | print-optimizer/MainWindow.xaml.cs:139-153 | during a drag the rectangle becomes the one spanned by the press point and the pointer; outside a drag nothing changes |
| Session.MainWindow.CropMouseUp | print-optimizer/MainWindow.xaml.cs:155-158 | the drag ends and the rectangle stays where it is |
| Session.MainWindow.Crop | print-optimizer/MainWindow.xaml.cs:160-227 | the outcome is the one `CropPlan` decides. A crop replaces the edited image by the block of itself at the clamped rectangle, commits it as the original and hides the rectangle. Every other outcome leaves both images and the rectangle's visibility as they were |

## Left out

- Loading and saving files: the file dialogs, `MessageBox`, `TxtFilePath`, PNG encoding and `FileStream` (lines 31–70) are I/O. A chosen file's decoded image is an input of `SelectImage`, and a decode failure (an unhandled exception in the source) is not modelled.
- `ShowPreview` and `ConvertToBitmap` (lines 83–103) only render. The model takes the preview bitmap's pixel size to be the edited image's size.
- The pixel arithmetic of ImageSharp's `Brightness`, `Contrast` and `GaussianSharpen` lives in a library that is not shown. The model assumes only `Conforms` and `Neutral`.
- The library's `Crop` is assumed to succeed exactly when the rectangle is non-empty and lies inside the image (`Viewport.Fits`). Otherwise it throws, and the catch branch at lines 223–226 only shows a message.
- Floating point. Display coordinates are reals, so rounding error in the layout arithmetic and the `float` casts of the adjustment amounts are not modelled. Neither is the 32-bit range of the `(int)` casts: the rounded values are unbounded integers.
- Viewport.MapToPixels: on a degenerate geometry (the preview laid out with zero size), the source divides by zero in `double`, and the outcome depends on how infinities and NaN convert to `int`. The model treats this case as a failed crop.
- The timer's thread and `Dispatcher.Invoke` marshalling (lines 76–80) are reduced to one `pending` flag. A new slider event replaces that flag, and `DebounceElapsed` consumes it.
- The check at lines 181–182, that the preview holds a bitmap, is not modelled. Whenever an image is loaded the preview holds its bitmap, so the check never fires.
- The window's XAML is not part of this model. The crop rectangle is taken to start hidden, empty and at the origin, and the sliders' initial positions are a constructor parameter.
