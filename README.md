# Image viewer geometry

A Dafny model of the integer geometry behind the desktop image viewer's
full-screen view. It covers:

- **The gesture-to-crop mapper.** It turns a scale factor and an
  accumulated drag into the visible window of the image. When the window hits
  an edge of the image, it overwrites the drag (the rubber-band stop).
- **The conversion of the mapper's result into a crop region.**
- **The swipe decision.** At rest, a long horizontal drag moves to the next or
  the previous image.
- **The size arithmetic of the image utilities:**
  - aspect-fit scaling;
  - the "100 %" display bounds;
  - the grayscale, pixelate and blur filters;
  - the crop;
  - the preferred window size.

Only sizes and positions are modelled, never pixel content.

Modules:

- `Rounding`: `roundToInt` (nearest integer, a half rounding up) and `toInt`
  (truncation toward zero) over exact reals. It also has the clamp used as a
  reference definition of the mapper's offsets.
- `Raster`: sizes, rectangles, and the two ways an image operation of the
  raster library fails: allocating an empty buffer, and taking a sub-image
  outside its parent. They are results (`Ok`/`Err`), since the code lets
  those exceptions escape. An `Image` is a size with positive extents.
- `GraphicsMath`: the functions of `GraphicsMath.kt`. The blur kernel fill is
  an imperative `for` loop over an `array`.
- `FullImageScreen`:
  - the mapper as a specification function, `CropBounds`;
  - the mapper as the code runs it: method `CropBitmapByBounds` reassigns its
    locals step by step and rewrites the fields of a `DragHandler` object in
    place, and is proved equal to `CropBounds`;
  - `cropBitmapByScale` and `imageByGesture` as methods over the same object.

The effective zoom `scaleFactor^1.4` is passed in as `effScale`. The display
and screen sizes are passed in instead of being read from window state.

## Model

| member | source | states |
|---|---|---|
| Rounding.RoundIsNearest | examples/imageviewer/common/src/desktopMain/kotlin/example/imageviewer/view/FullImageScreen.kt:266-267 | `roundToInt` gives an integer within one half of its argument, rounding halves upward |
| Rounding.Trunc | examples/imageviewer/common/src/desktopMain/kotlin/example/imageviewer/utils/GraphicsMath.kt:45-46 | `toInt` drops the fractional part toward zero: for a non-negative argument the result is at most it and more than it minus one; for a negative argument, the mirror image |
| Raster.Allocate | examples/imageviewer/common/src/desktopMain/kotlin/example/imageviewer/utils/GraphicsMath.kt:48 | a buffer exists exactly when both extents are positive, and has exactly the requested size |
| Raster.SubImage | examples/imageviewer/common/src/desktopMain/kotlin/example/imageviewer/utils/GraphicsMath.kt:118-123 | a sub-image exists exactly when the region is non-empty and inside the parent, and has the region's extents |
| GraphicsMath.FitRatio | examples/imageviewer/common/src/desktopMain/kotlin/example/imageviewer/utils/GraphicsMath.kt:38-43 | the aspect-fit ratio is the smaller of the two axis ratios: at most each, equal to one |
| GraphicsMath.AspectFitSize | examples/imageviewer/common/src/desktopMain/kotlin/example/imageviewer/utils/GraphicsMath.kt:45-46 | the truncated scaled size meets the target exactly in one axis; for a non-negative target it is non-negative, fits inside it, and keeps the bitmap's aspect ratio to within one pixel of truncation |
| GraphicsMath.ScaledSizeTruncates | examples/imageviewer/common/src/desktopMain/kotlin/example/imageviewer/utils/GraphicsMath.kt:45-46 | each extent of the scaled size is the whole part of the bitmap extent times a non-negative ratio |
| GraphicsMath.ScaledKeepsAspect | examples/imageviewer/common/src/desktopMain/kotlin/example/imageviewer/utils/GraphicsMath.kt:45-46 | both extents truncated from one non-negative ratio keep the aspect ratio up to truncation (`-h < sw*h - sh*w < w`) |
| GraphicsMath.ScaleBitmapAspectRatio | examples/imageviewer/common/src/desktopMain/kotlin/example/imageviewer/utils/GraphicsMath.kt:33-54 | the scaled image exists exactly when the aspect-fit size is non-empty, has that size, and fits a non-negative target |
| GraphicsMath.CoverRatio | examples/imageviewer/common/src/desktopMain/kotlin/example/imageviewer/utils/GraphicsMath.kt:58-64 | the display-fit ratio is the larger of the two axis ratios |
| GraphicsMath.DisplayBounds | examples/imageviewer/common/src/desktopMain/kotlin/example/imageviewer/utils/GraphicsMath.kt:56-70 | the bounds sit at the origin, cover the bitmap in both axes, match it exactly in one, and keep the display's aspect ratio up to truncation |
| GraphicsMath.GrayScaleFilter | examples/imageviewer/common/src/desktopMain/kotlin/example/imageviewer/utils/GraphicsMath.kt:72-84 | the grayscale copy always exists and has the input's size |
| GraphicsMath.PixelDownsample | examples/imageviewer/common/src/desktopMain/kotlin/example/imageviewer/utils/GraphicsMath.kt:88-91 | the first pass fails when an axis is shorter than 20 pixels; a result is at most a twentieth of the input in each axis and exactly the twentieth (rounded down) in one of them |
| GraphicsMath.PixelFilter | examples/imageviewer/common/src/desktopMain/kotlin/example/imageviewer/utils/GraphicsMath.kt:86-95 | the filter fails exactly when the first pass does; a result fits inside the input, fills it in one axis and is at least 20 pixels in each |
| GraphicsMath.UpsampleFits | examples/imageviewer/common/src/desktopMain/kotlin/example/imageviewer/utils/GraphicsMath.kt:92 | fitting an image at most a twentieth of the target back into it gives at least 20 pixels in each axis |
| GraphicsMath.PixelFilterLosesSize | examples/imageviewer/common/src/desktopMain/kotlin/example/imageviewer/utils/GraphicsMath.kt:91-92 | a 30 x 40 image is down-sampled to 1 x 1 and comes back as 30 x 30 |
| GraphicsMath.PixelFilterResized | examples/imageviewer/common/src/desktopMain/kotlin/example/imageviewer/utils/GraphicsMath.kt:86-95 | the corrected filter fails exactly when the first pass does, and otherwise has exactly the input's size |
| GraphicsMath.BlurKernel | examples/imageviewer/common/src/desktopMain/kotlin/example/imageviewer/utils/GraphicsMath.kt:105-112 | the fill loop gives a new array of 121 entries, each equal to 1/121 |
| GraphicsMath.BlurKernelIsNormalised | examples/imageviewer/common/src/desktopMain/kotlin/example/imageviewer/utils/GraphicsMath.kt:107-112 | the weights of such a kernel add up to one |
| GraphicsMath.BlurFilter | examples/imageviewer/common/src/desktopMain/kotlin/example/imageviewer/utils/GraphicsMath.kt:97-124 | the blurred image exists exactly when both extents exceed 22, and is then (w - 22) x (h - 22) |
| GraphicsMath.CropImage | examples/imageviewer/common/src/desktopMain/kotlin/example/imageviewer/utils/GraphicsMath.kt:148-153 | the cropped image exists exactly when the crop is non-empty, and has exactly the crop's extents |
| GraphicsMath.PreferredExtent | examples/imageviewer/common/src/desktopMain/kotlin/example/imageviewer/utils/GraphicsMath.kt:157-158 | 80 % of a screen extent, truncated, is the integer `screen * 4 / 5` |
| GraphicsMath.PreferredWindowSize | examples/imageviewer/common/src/desktopMain/kotlin/example/imageviewer/utils/GraphicsMath.kt:155-162 | each extent is the smaller of the desired extent and 80 % of the screen: at most both, equal to one |
| FullImageScreen.DragHandler.Cancel | examples/imageviewer/common/src/desktopMain/kotlin/example/imageviewer/view/FullImageScreen.kt:233 | cancelling puts the pan amount and the swipe distance back to rest |
| FullImageScreen.VisibleExtent | examples/imageviewer/common/src/desktopMain/kotlin/example/imageviewer/view/FullImageScreen.kt:266-279 | the window extent lies in `[0, image extent]`: the rounded shrunk bounds while below the cap, the image extent when the rounded value reaches it |
| FullImageScreen.ZoomingInShrinksWindow | examples/imageviewer/common/src/desktopMain/kotlin/example/imageviewer/view/FullImageScreen.kt:266-279 | a larger effective scale never gives a wider window |
| FullImageScreen.PanScale | examples/imageviewer/common/src/desktopMain/kotlin/example/imageviewer/view/FullImageScreen.kt:269 | the pan scale is positive, and times the 100 % bounds width gives the effective scale times the display width |
| FullImageScreen.StopDragIsNearest | examples/imageviewer/common/src/desktopMain/kotlin/example/imageviewer/view/FullImageScreen.kt:286 | the edge drag is within one half of the half slack converted to display pixels |
| FullImageScreen.PanAxis | examples/imageviewer/common/src/desktopMain/kotlin/example/imageviewer/view/FullImageScreen.kt:281-291 | the offset is the shifted centre clamped into `[0, invisible]`; the drag becomes minus the edge drag when the far clamp fires, the edge drag when the near one fires, and is otherwise unchanged |
| FullImageScreen.CropBounds | examples/imageviewer/common/src/desktopMain/kotlin/example/imageviewer/view/FullImageScreen.kt:253-306 | not zoomed: the whole image and the drag untouched; always a window inside the image; zoomed: the window has the visible extents; a drag component changes only when its window is at an edge |
| FullImageScreen.HalfCentredStopIsStable | examples/imageviewer/common/src/desktopMain/kotlin/example/imageviewer/view/FullImageScreen.kt:282-291 | at a pan scale of at least one, an axis centred at the exact half of its slack is a fixed point after its own rubber-band stop |
| FullImageScreen.HorizontalStopIsStable | examples/imageviewer/common/src/desktopMain/kotlin/example/imageviewer/view/FullImageScreen.kt:281-291 | at a pan scale of at least one, feeding the mapper the drag it left behind keeps the left edge and the horizontal drag |
| FullImageScreen.VerticalStopDrifts | examples/imageviewer/common/src/desktopMain/kotlin/example/imageviewer/view/FullImageScreen.kt:293-303 | for a 10 x 10 image on a 7 x 10 display at effective scale 2, the bottom stop puts the top at 3 and the drag at -2, and the next frame moves the top to 2 with the same drag |
| FullImageScreen.HorizontalStopDriftsBelowUnitScale | examples/imageviewer/common/src/desktopMain/kotlin/example/imageviewer/view/FullImageScreen.kt:281-291 | for a 100 x 10 image on a 10 x 10 display at effective scale 3.5, a pan scale of 0.35: the right stop puts the left edge at 71 with drag -12, and the next frame moves it to 70, with the corrected mapper too |
| FullImageScreen.CropBoundsCentred | examples/imageviewer/common/src/desktopMain/kotlin/example/imageviewer/view/FullImageScreen.kt:293-303 | the corrected mapper keeps every property of `CropBounds` (whole image when not zoomed, a window of the visible extents inside the image, a drag component changed only at an edge) and agrees with it horizontally |
| FullImageScreen.CentredStopIsStable | examples/imageviewer/common/src/desktopMain/kotlin/example/imageviewer/view/FullImageScreen.kt:281-303 | with both axes centred at the exact half and a pan scale of at least one, the next frame fed the drag the mapper left behind shows the same window and keeps the drag |
| FullImageScreen.CornersToRegion | examples/imageviewer/common/src/desktopMain/kotlin/example/imageviewer/view/FullImageScreen.kt:249 | the region keeps the origin, and origin plus extent gives back the right and bottom edges |
| FullImageScreen.RegionIsVisibleWindow | examples/imageviewer/common/src/desktopMain/kotlin/example/imageviewer/view/FullImageScreen.kt:249 | the converted crop is exactly the mapper's window: its offsets, the visible extents (the whole image when not zoomed), inside the image |
| FullImageScreen.PanStep | examples/imageviewer/common/src/desktopMain/kotlin/example/imageviewer/view/FullImageScreen.kt:282-291 | the round-then-two-clamps sequence of one axis gives exactly `PanAxis`'s offset and drag |
| FullImageScreen.CropBitmapByBounds | examples/imageviewer/common/src/desktopMain/kotlin/example/imageviewer/view/FullImageScreen.kt:253-306 | the step-by-step mapper returns `CropBounds`'s window, and leaves in the drag object exactly `CropBounds`'s drag |
| FullImageScreen.CropBitmapByScale | examples/imageviewer/common/src/desktopMain/kotlin/example/imageviewer/view/FullImageScreen.kt:239-251 | the shown image is the crop of the mapper's window over the display bounds, and the drag is the mapper's |
| FullImageScreen.SwipeDecision | examples/imageviewer/common/src/desktopMain/kotlin/example/imageviewer/view/FullImageScreen.kt:224-234 | zoomed: no navigation; at rest: navigation exactly when the horizontal drag is longer than a tenth of the display width; next only for a leftward drag, previous only for a rightward one |
| FullImageScreen.ImageByGesture | examples/imageviewer/common/src/desktopMain/kotlin/example/imageviewer/view/FullImageScreen.kt:217-237 | the shown image is the crop; the swipe is the decision on the drag before the call; a swipe resets the drag, so the same gesture cannot swipe again |

## Left out

- Floating point: `Float` and `Double` ratios are exact reals. IEEE rounding of the ratios, `pow`, Infinity and NaN are not modelled.
- Integer width: `toInt`, `roundToInt` and the Int arithmetic are unbounded. The saturation of `roundToInt` at the Int range is not modelled.
- `pow(1.4)` is not computed: the effective scale is a parameter, required positive when zoomed.
- Window and screen sizes: `displayWidth`, `displayHeight` and the toolkit's screen size are parameters. The fallback to 0 when no window is focused is still covered, because 0 is an allowed parameter value.
- CropBitmapByBounds: requires non-empty 100 % bounds and a realised display when zoomed. Without them the code divides by zero in floating point and `roundToInt` throws on NaN.
- CropBitmapByScale: requires a realised display when zoomed, for the same reason.
- DisplayBounds: requires a positive display. For a 0 display the code's Float division gives Infinity or NaN, which `toInt` turns into `Int.MAX_VALUE` or 0. `CropBitmapByScale` uses `Rect(0, 0, 0, 0)` in that case instead. The difference is harmless when not zoomed, because the bounds are then not read.
- CropBitmapByBounds: each axis's round and two clamps run in the helper method `PanStep`. It returns the drag value, and the caller writes that value to the drag object's field. The field ends with the same value as in the code, but it is written once per axis, not only in the branches that fire.
- Exceptions: AWT errors (an empty buffer, a sub-image outside its parent) are `Err` results. Their propagation through the callers is shown only as far as `CropImage` inside `CropBitmapByScale`.
- Pixel content: `drawImage`, the convolution, the grayscale conversion and the image types are foreign raster calls; only the sizes they produce are modelled. `cropImage` draws the whole bitmap scaled into the crop's extents at the crop's offset, rather than the cropped region; this affects content, not size.
- CropImage, BlurFilter: the code allocates with `BufferedImage(w, h, bitmap.type)`, which throws for `TYPE_CUSTOM`. The image type is not modelled, so "exists exactly when" holds only for the predefined image types.
- Codecs: PNG encoding in `toByteArray` and `Image.makeFromEncoded` are stream I/O.
- Other handlers: the sources of `DragHandler`, `ScaleHandler` and `ContentState` are not part of this model.
  - The drag handler is a class with the pan amount and the swipe distance.
  - Its cancel puts both back to zero.
  - `swipeNext` and `swipePrevious` are the returned `Swipe` value.
- Composable UI: the widget composition of the screen, the toolbar and the filter buttons is not modelled.
- Documented behaviour versus code: the model follows the code in both places where they differ.
  - Pixelate on an image under 20 pixels in an axis: the code throws; a clamp to at least one pixel would avoid the failure.
  - Pixelate output size: it is not the input size (see Findings).

## Findings

| source | as written | input that shows it | evidently intended | confidence | as-written member | corrected member |
|---|---|---|---|---|---|---|
| examples/imageviewer/common/src/desktopMain/kotlin/example/imageviewer/utils/GraphicsMath.kt:91-92 | the second pass aspect-fits the down-sampled image back into `(w, h)`, so the result keeps the shape of the rounded-down small image | a 30 x 40 image: first pass 1 x 1, result 30 x 30 | the pixelated image has the size of the original | not executed; medium | GraphicsMath.PixelFilterLosesSize | GraphicsMath.PixelFilterResized |
| examples/imageviewer/common/src/desktopMain/kotlin/example/imageviewer/view/FullImageScreen.kt:294 | the vertical centre is `invisibleH / 2` in integer division, while the edge drag at :298 and :301 uses `invisibleH / 2.0`; a second cause, in both axes, is that the edge drag is rounded to whole display pixels, which below a pan scale of one is finer than an image pixel | 10 x 10 image, 7 x 10 display, effective scale 2 (scale factor about 1.64), drag (0, -10): the stop leaves top 3 and drag -2; the next frame gives top 2 | the vertical centre is the exact half, as the horizontal one is, so that at a pan scale of at least one the rubber-band stop holds the window at the edge (below that scale the rounded edge drag still drifts, see FullImageScreen.HorizontalStopDriftsBelowUnitScale) | not executed; medium | FullImageScreen.VerticalStopDrifts | FullImageScreen.CentredStopIsStable |
