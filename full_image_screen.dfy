/** The gesture geometry of the full-screen image view: the mapper from zoom
    and drag state to the visible crop of the image, with its rubber-band stop
    that rewrites the drag at the image's edges, the conversion of its result
    into a crop region, and the swipe decision that navigates between images. */
module FullImageScreen {
  import opened Rounding
  import opened Raster
  import opened GraphicsMath

  /** The drag state of the view. `amount` is the accumulated pan that the
      mapper reads and rewrites; `distance` is the drag the swipe decision
      reads. */
  class DragHandler {
    var amountX: real
    var amountY: real
    var distanceX: real
    var distanceY: real

    constructor ()
      ensures amountX == 0.0 && amountY == 0.0 && distanceX == 0.0 && distanceY == 0.0
    {
      amountX, amountY := 0.0, 0.0;
      distanceX, distanceY := 0.0, 0.0;
    }

    /** Ends the drag: the accumulator returns to rest. */
    method Cancel()
      modifies this
      ensures amountX == 0.0 && amountY == 0.0 && distanceX == 0.0 && distanceY == 0.0
    {
      amountX, amountY := 0.0, 0.0;
      distanceX, distanceY := 0.0, 0.0;
    }
  }

  // ---------------------------------------------------------------------------
  // The gesture-to-crop mapper, as a specification

  /** What the zoomed branch of the mapper needs to divide safely: a positive
      effective scale (the scale factor raised to the power 1.4), non-empty
      100 % bounds and a realised display. */
  predicate ZoomReady(bounds: Rect, scaleFactor: real, effScale: real, displayW: int)
  {
    1.0 < scaleFactor ==> 0.0 < effScale && 0 < bounds.width && 0 <= bounds.height && 0 < displayW
  }

  /** One extent of the visible window: the 100 % extent shrunk by the
      effective scale and rounded, capped at the image's extent. */
  function VisibleExtent(boundsExtent: int, effScale: real, imageExtent: int): (n: int)
    requires 0 <= boundsExtent && 0.0 < effScale && 0 < imageExtent
    ensures 0 <= n <= imageExtent
    ensures n < imageExtent ==> n == Round(boundsExtent as real / effScale)
    ensures n == imageExtent ==> imageExtent <= Round(boundsExtent as real / effScale)
  {
    var n := Round(boundsExtent as real / effScale);
    if n > imageExtent then imageExtent else n
  }

  /** The factor converting a drag in display pixels into image pixels: the
      effective scale times the display width over the 100 % bounds width. */
  function PanScale(bounds: Rect, effScale: real, displayW: int): (s: real)
    requires 0.0 < effScale && 0 < bounds.width && 0 < displayW
    ensures 0.0 < s
    ensures s * bounds.width as real == effScale * displayW as real
  {
    effScale * (displayW as real / bounds.width as real)
  }

  /** Where one axis of the window sits and what the drag becomes. */
  datatype Pan = Pan(offset: int, drag: real)

  /** The drag that puts the window exactly at an edge of `invisible` slack. */
  function StopDrag(invisible: int, scale: real): int
  {
    Round(invisible as real / 2.0 * scale)
  }

  /** The stop drag is the half slack converted to display pixels, rounded
      to the nearest whole pixel. */
  lemma StopDragIsNearest(invisible: int, scale: real)
    ensures var half := invisible as real / 2.0 * scale;
      half - 0.5 < StopDrag(invisible, scale) as real <= half + 0.5
  {
  }

  /** One axis of the pan: the window starts at `centre` in the slack, is
      shifted by the drag converted to image pixels, and is clamped into
      `[0, invisible]`. When the clamp fires the drag is overwritten with the
      drag of that edge (the rubber-band stop); otherwise it is kept. */
  function PanAxis(invisible: int, centre: real, scale: real, drag: real): (p: Pan)
    requires 0 <= invisible && 0.0 < scale
    ensures 0 <= p.offset <= invisible
    ensures p.offset == Clamp(Round(centre - drag / scale), 0, invisible)
    ensures Round(centre - drag / scale) > invisible ==> p.drag == -(StopDrag(invisible, scale) as real)
    ensures Round(centre - drag / scale) < 0 ==> p.drag == StopDrag(invisible, scale) as real
    ensures 0 <= Round(centre - drag / scale) <= invisible ==> p.drag == drag
  {
    var offset := Round(centre - drag / scale);
    if offset > invisible then Pan(invisible, -(StopDrag(invisible, scale) as real))
    else if offset < 0 then Pan(0, StopDrag(invisible, scale) as real)
    else Pan(offset, drag)
  }

  /** The mapper's result: the crop in the `(x, y, right, bottom)` convention of
      `cropBitmapByBounds`, and the drag amount it leaves behind. */
  datatype CropOutcome = CropOutcome(crop: Rect, dragX: real, dragY: real)

  /** `cropBitmapByBounds`, as a function of the drag amount before the call.
      Not zoomed: the whole image, drag untouched. Zoomed: a window of the
      visible extents inside the image, each offset within its slack, and a
      drag component that changes only when that axis hits an edge. The
      horizontal window is centred at half the slack; the vertical one at half
      the slack rounded down to an integer, as the integer division there
      does. */
  function CropBounds(bitmap: Image, bounds: Rect, scaleFactor: real, effScale: real, displayW: int,
                      dragX: real, dragY: real): (r: CropOutcome)
    requires ZoomReady(bounds, scaleFactor, effScale, displayW)
    ensures scaleFactor <= 1.0 ==> r == CropOutcome(Rect(0, 0, bitmap.width, bitmap.height), dragX, dragY)
    ensures 0 <= r.crop.x <= r.crop.width <= bitmap.width
    ensures 0 <= r.crop.y <= r.crop.height <= bitmap.height
    ensures 1.0 < scaleFactor ==>
      r.crop.width - r.crop.x == VisibleExtent(bounds.width, effScale, bitmap.width) &&
      r.crop.height - r.crop.y == VisibleExtent(bounds.height, effScale, bitmap.height)
    ensures r.dragX != dragX ==> r.crop.x == 0 || r.crop.width == bitmap.width
    ensures r.dragY != dragY ==> r.crop.y == 0 || r.crop.height == bitmap.height
  {
    if scaleFactor <= 1.0 then
      CropOutcome(Rect(0, 0, bitmap.width, bitmap.height), dragX, dragY)
    else
      var boundW := VisibleExtent(bounds.width, effScale, bitmap.width);
      var boundH := VisibleExtent(bounds.height, effScale, bitmap.height);
      var scale := PanScale(bounds, effScale, displayW);
      var invisibleW := bitmap.width - boundW;
      var invisibleH := bitmap.height - boundH;
      var x := PanAxis(invisibleW, invisibleW as real / 2.0, scale, dragX);
      var y := PanAxis(invisibleH, (invisibleH / 2) as real, scale, dragY);
      CropOutcome(Rect(x.offset, y.offset, x.offset + boundW, y.offset + boundH), x.drag, y.drag)
  }

  /** The zoomed branch of `CropBounds`, axis by axis. */
  lemma CropBoundsZoomed(bitmap: Image, bounds: Rect, scaleFactor: real, effScale: real, displayW: int,
                         dragX: real, dragY: real, boundW: int, boundH: int, scale: real, x: Pan, y: Pan)
    requires ZoomReady(bounds, scaleFactor, effScale, displayW) && 1.0 < scaleFactor
    requires boundW == VisibleExtent(bounds.width, effScale, bitmap.width)
    requires boundH == VisibleExtent(bounds.height, effScale, bitmap.height)
    requires scale == PanScale(bounds, effScale, displayW)
    requires x == PanAxis(bitmap.width - boundW, (bitmap.width - boundW) as real / 2.0, scale, dragX)
    requires y == PanAxis(bitmap.height - boundH, ((bitmap.height - boundH) / 2) as real, scale, dragY)
    ensures CropBounds(bitmap, bounds, scaleFactor, effScale, displayW, dragX, dragY)
      == CropOutcome(Rect(x.offset, y.offset, x.offset + boundW, y.offset + boundH), x.drag, y.drag)
  {
  }

  /** Zooming in further never widens the window. */
  lemma ZoomingInShrinksWindow(boundsExtent: int, s1: real, s2: real, imageExtent: int)
    requires 0 <= boundsExtent && 0.0 < s1 <= s2 && 0 < imageExtent
    ensures VisibleExtent(boundsExtent, s2, imageExtent) <= VisibleExtent(boundsExtent, s1, imageExtent)
  {
    var e := boundsExtent as real;
    DivAntitone(e, s1, s2);
    RoundIsMonotone(e / s2, e / s1);
  }

  /** At a unit or larger pan scale the rubber-band stop of a half-centred
      axis is a fixed point: the next frame, fed the drag the stop wrote,
      keeps the window where the stop put it and the drag as it is. */
  lemma {:induction false} HalfCentredStopIsStable(invisible: int, scale: real, drag: real)
    requires 0 <= invisible && 1.0 <= scale
    ensures var p := PanAxis(invisible, invisible as real / 2.0, scale, drag);
      PanAxis(invisible, invisible as real / 2.0, scale, p.drag) == p
  {
    var c := invisible as real / 2.0;
    var raw := Round(c - drag / scale);
    StopNearCentre(invisible, scale);
    if raw > invisible {
      FarEdgeIsStable(invisible, scale);
    } else if raw < 0 {
      NearEdgeIsStable(invisible, scale);
    }
  }

  /** Fed the drag of the far edge, a half-centred axis stays at that edge. */
  lemma FarEdgeIsStable(invisible: int, scale: real)
    requires 0 <= invisible && 0.0 < scale
    requires invisible as real / 2.0 - 0.5 < StopDrag(invisible, scale) as real / scale
    ensures var stop := -(StopDrag(invisible, scale) as real);
      PanAxis(invisible, invisible as real / 2.0, scale, stop) == Pan(invisible, stop)
  {
    var c := invisible as real / 2.0;
    var stop := StopDrag(invisible, scale) as real;
    assert c - -stop / scale == c + stop / scale;
    RoundAtLeast(c + stop / scale, invisible);
  }

  /** Fed the drag of the near edge, a half-centred axis stays at that edge. */
  lemma NearEdgeIsStable(invisible: int, scale: real)
    requires 0 <= invisible && 0.0 < scale
    requires var c := invisible as real / 2.0;
      c - 0.5 < StopDrag(invisible, scale) as real / scale <= c + 0.5
    ensures var stop := StopDrag(invisible, scale) as real;
      PanAxis(invisible, invisible as real / 2.0, scale, stop) == Pan(0, stop)
  {
    var c := invisible as real / 2.0;
    RoundNearZero(c - StopDrag(invisible, scale) as real / scale);
  }

  /** The edge drag, converted back to image pixels, lands within half a
      pixel of the centre of the slack. */
  lemma StopNearCentre(invisible: int, scale: real)
    requires 0 <= invisible && 1.0 <= scale
    ensures var c := invisible as real / 2.0;
      c - 0.5 < StopDrag(invisible, scale) as real / scale <= c + 0.5
  {
    var c := invisible as real / 2.0;
    var stop := StopDrag(invisible, scale);
    RoundIsNearest(c * scale);
    StopOverScale(c, scale, stop as real);
    HalfOverScale(scale);
  }

  lemma HalfOverScale(scale: real)
    requires 1.0 <= scale
    ensures 0.0 < 0.5 / scale <= 0.5
  {
    DivAtLeast(0.5 / scale, 0.5, 1.0);
    assert 0.5 / scale * scale == 0.5;
    MulMono(0.5 / scale, 1.0, scale);
  }

  lemma StopOverScale(c: real, scale: real, stop: real)
    requires 0.0 < scale && c * scale - 0.5 < stop <= c * scale + 0.5
    ensures c - 0.5 / scale < stop / scale <= c + 0.5 / scale
  {
    assert (c * scale - 0.5) / scale == c - 0.5 / scale;
    assert (c * scale + 0.5) / scale == c + 0.5 / scale;
    DivMono(c * scale - 0.5, stop, scale);
    DivMono(stop, c * scale + 0.5, scale);
    assert (c * scale - 0.5) / scale != stop / scale by {
      assert (c * scale - 0.5) / scale * scale == c * scale - 0.5;
      assert stop / scale * scale == stop;
    }
  }

  lemma DivMono(x: real, y: real, k: real)
    requires 0.0 < k && x <= y
    ensures x / k <= y / k
  {
    var inv := 1.0 / k;
    assert 0.0 < inv;
    assert x / k == x * inv && y / k == y * inv;
    MulMono(inv, x, y);
  }

  lemma DivAntitone(e: real, s1: real, s2: real)
    requires 0.0 <= e && 0.0 < s1 <= s2
    ensures e / s2 <= e / s1
  {
    assert e / s2 == e * (1.0 / s2) && e / s1 == e * (1.0 / s1);
    assert 1.0 / s2 <= 1.0 / s1 by {
      assert 1.0 / s2 == (s1 / s2) * (1.0 / s1);
      assert s1 / s2 <= 1.0 by { DivMono(s1, s2, s2); }
      assert 0.0 < 1.0 / s1;
    }
  }

  /** The horizontal rubber-band stop of the mapper is stable at a unit or
      larger pan scale: calling the mapper again with the drag it left behind
      puts the window's left edge in the same place and leaves the horizontal
      drag as it is. */
  lemma HorizontalStopIsStable(bitmap: Image, bounds: Rect, scaleFactor: real, effScale: real, displayW: int,
                               dragX: real, dragY: real)
    requires ZoomReady(bounds, scaleFactor, effScale, displayW)
    requires 1.0 < scaleFactor ==> 1.0 <= PanScale(bounds, effScale, displayW)
    ensures var first := CropBounds(bitmap, bounds, scaleFactor, effScale, displayW, dragX, dragY);
      var next := CropBounds(bitmap, bounds, scaleFactor, effScale, displayW, first.dragX, first.dragY);
      next.crop.x == first.crop.x && next.dragX == first.dragX
  {
    if 1.0 < scaleFactor {
      var boundW := VisibleExtent(bounds.width, effScale, bitmap.width);
      HalfCentredStopIsStable(bitmap.width - boundW, PanScale(bounds, effScale, displayW), dragX);
    }
  }

  /** As written, the vertical rubber-band stop is not a fixed point even at a
      pan scale above one. A 10 x 10 image on a 7 x 10 display has 100 %
      bounds of 10 x 14; at an effective scale of 2 the window is 5 x 7 and
      the pan scale is 1.4. Dragged far up, the window stops at the bottom
      edge (top 3) and the drag becomes -2; the next frame, fed that drag,
      puts the window at top 2, because the vertical centre is the truncated
      half of the slack (1) while the edge drag was computed from the exact
      half (1.5). */
  lemma VerticalStopDrifts()
    ensures DisplayBounds(Size(10, 10), 7, 10) == Rect(0, 0, 10, 14)
    ensures var first := CropBounds(Size(10, 10), Rect(0, 0, 10, 14), 1.64, 2.0, 7, 0.0, -10.0);
      var next := CropBounds(Size(10, 10), Rect(0, 0, 10, 14), 1.64, 2.0, 7, first.dragX, first.dragY);
      first == CropOutcome(Rect(3, 3, 8, 10), 0.0, -2.0) &&
      next.crop.y == 2 && next.dragY == first.dragY
  {
    var image: Image := Size(10, 10);
    assert CoverRatio(image, 7, 10) == 10.0 / 7.0;
    assert Trunc(7.0 * (10.0 / 7.0)) == 10 by { TruncOfInteger(10); }
    assert Trunc(10.0 * (10.0 / 7.0)) == 14 by { TruncAtLeast(10.0 * (10.0 / 7.0), 14); }
    var bounds := Rect(0, 0, 10, 14);
    assert VisibleExtent(10, 2.0, 10) == 5;
    assert VisibleExtent(14, 2.0, 10) == 7;
    var scale := PanScale(bounds, 2.0, 7);
    assert scale == 1.4;
    assert PanAxis(5, 5 as real / 2.0, 1.4, 0.0) == Pan(3, 0.0);
    assert StopDrag(3, 1.4) == 2;
    assert PanAxis(3, 1.0, 1.4, -10.0) == Pan(3, -2.0);
    assert PanAxis(3, 1.0, 1.4, -2.0) == Pan(2, -2.0);
  }

  /** Below a unit pan scale the stop drifts on the exactly centred axis too,
      because the edge drag is rounded to a whole display pixel and one
      display pixel is then less than one image pixel. A 100 x 10 image on a
      10 x 10 display has 100 % bounds of 100 x 100; at an effective scale of
      3.5 the window is 29 x 10 and the pan scale 0.35. Dragged far left, the
      window stops at the right edge (left 71) with drag -12; the next frame
      puts it at left 70, in the code as written and in the corrected mapper
      alike. */
  lemma HorizontalStopDriftsBelowUnitScale()
    ensures DisplayBounds(Size(100, 10), 10, 10) == Rect(0, 0, 100, 100)
    ensures PanScale(Rect(0, 0, 100, 100), 3.5, 10) < 1.0
    ensures var first := CropBounds(Size(100, 10), Rect(0, 0, 100, 100), 2.45, 3.5, 10, -1000.0, 0.0);
      var next := CropBounds(Size(100, 10), Rect(0, 0, 100, 100), 2.45, 3.5, 10, first.dragX, first.dragY);
      first == CropOutcome(Rect(71, 0, 100, 10), -12.0, 0.0) &&
      next.crop.x == 70 && next.dragX == first.dragX
    ensures var first := CropBoundsCentred(Size(100, 10), Rect(0, 0, 100, 100), 2.45, 3.5, 10, -1000.0, 0.0);
      CropBoundsCentred(Size(100, 10), Rect(0, 0, 100, 100), 2.45, 3.5, 10, first.dragX, first.dragY).crop.x == 70
  {
    var image: Image := Size(100, 10);
    assert CoverRatio(image, 10, 10) == 10.0;
    TruncOfInteger(100);
    assert VisibleExtent(100, 3.5, 100) == 29;
    assert VisibleExtent(100, 3.5, 10) == 10;
    assert PanScale(Rect(0, 0, 100, 100), 3.5, 10) == 0.35;
    assert StopDrag(71, 0.35) == 12;
    assert PanAxis(71, 71 as real / 2.0, 0.35, -1000.0) == Pan(71, -12.0);
    assert PanAxis(71, 71 as real / 2.0, 0.35, -12.0) == Pan(70, -12.0);
    assert PanAxis(0, 0 as real / 2.0, 0.35, 0.0) == Pan(0, 0.0);
    assert PanAxis(0, (0 / 2) as real, 0.35, 0.0) == Pan(0, 0.0);
  }

  /** The mapper with both windows centred at the exact half of their slack,
      as the horizontal axis already is; it agrees with `CropBounds` except
      for the vertical centre. */
  function CropBoundsCentred(bitmap: Image, bounds: Rect, scaleFactor: real, effScale: real, displayW: int,
                             dragX: real, dragY: real): (r: CropOutcome)
    requires ZoomReady(bounds, scaleFactor, effScale, displayW)
    ensures scaleFactor <= 1.0 ==> r == CropOutcome(Rect(0, 0, bitmap.width, bitmap.height), dragX, dragY)
    ensures 0 <= r.crop.x <= r.crop.width <= bitmap.width
    ensures 0 <= r.crop.y <= r.crop.height <= bitmap.height
    ensures 1.0 < scaleFactor ==>
      r.crop.width - r.crop.x == VisibleExtent(bounds.width, effScale, bitmap.width) &&
      r.crop.height - r.crop.y == VisibleExtent(bounds.height, effScale, bitmap.height)
    ensures r.crop.x == CropBounds(bitmap, bounds, scaleFactor, effScale, displayW, dragX, dragY).crop.x
    ensures r.dragX != dragX ==> r.crop.x == 0 || r.crop.width == bitmap.width
    ensures r.dragY != dragY ==> r.crop.y == 0 || r.crop.height == bitmap.height
    ensures r.dragX == CropBounds(bitmap, bounds, scaleFactor, effScale, displayW, dragX, dragY).dragX
  {
    if scaleFactor <= 1.0 then
      CropOutcome(Rect(0, 0, bitmap.width, bitmap.height), dragX, dragY)
    else
      var boundW := VisibleExtent(bounds.width, effScale, bitmap.width);
      var boundH := VisibleExtent(bounds.height, effScale, bitmap.height);
      var scale := PanScale(bounds, effScale, displayW);
      var invisibleW := bitmap.width - boundW;
      var invisibleH := bitmap.height - boundH;
      var x := PanAxis(invisibleW, invisibleW as real / 2.0, scale, dragX);
      var y := PanAxis(invisibleH, invisibleH as real / 2.0, scale, dragY);
      CropOutcome(Rect(x.offset, y.offset, x.offset + boundW, y.offset + boundH), x.drag, y.drag)
  }

  /** With both axes centred at the exact half, the rubber-band stop is a
      fixed point of the whole mapper at a unit or larger pan scale: the next
      frame, fed the drag the stop left behind, shows the same window and
      keeps that drag. */
  lemma CentredStopIsStable(bitmap: Image, bounds: Rect, scaleFactor: real, effScale: real, displayW: int,
                            dragX: real, dragY: real)
    requires ZoomReady(bounds, scaleFactor, effScale, displayW)
    requires 1.0 < scaleFactor ==> 1.0 <= PanScale(bounds, effScale, displayW)
    ensures var first := CropBoundsCentred(bitmap, bounds, scaleFactor, effScale, displayW, dragX, dragY);
      CropBoundsCentred(bitmap, bounds, scaleFactor, effScale, displayW, first.dragX, first.dragY) == first
  {
    if 1.0 < scaleFactor {
      var boundW := VisibleExtent(bounds.width, effScale, bitmap.width);
      var boundH := VisibleExtent(bounds.height, effScale, bitmap.height);
      var scale := PanScale(bounds, effScale, displayW);
      HalfCentredStopIsStable(bitmap.width - boundW, scale, dragX);
      HalfCentredStopIsStable(bitmap.height - boundH, scale, dragY);
    }
  }

  /** `cropBitmapByScale` converts the mapper's `(x, y, right, bottom)` result
      back into an origin and two extents. */
  function CornersToRegion(corners: Rect): (region: Rect)
    ensures region.x == corners.x && region.y == corners.y
    ensures region.x + region.width == corners.width && region.y + region.height == corners.height
  {
    Rect(corners.x, corners.y, corners.width - corners.x, corners.height - corners.y)
  }

  /** The converted crop is exactly the visible window: its origin is the
      mapper's offsets, its extents the visible extents (the whole image when
      not zoomed), and it lies inside the image. */
  lemma RegionIsVisibleWindow(bitmap: Image, bounds: Rect, scaleFactor: real, effScale: real, displayW: int,
                              dragX: real, dragY: real)
    requires ZoomReady(bounds, scaleFactor, effScale, displayW)
    ensures var o := CropBounds(bitmap, bounds, scaleFactor, effScale, displayW, dragX, dragY);
      var region := CornersToRegion(o.crop);
      region.x == o.crop.x && region.y == o.crop.y &&
      Inside(region, bitmap) && 0 <= region.width && 0 <= region.height &&
      (scaleFactor <= 1.0 ==> region == Rect(0, 0, bitmap.width, bitmap.height)) &&
      (1.0 < scaleFactor ==>
        region.width == VisibleExtent(bounds.width, effScale, bitmap.width) &&
        region.height == VisibleExtent(bounds.height, effScale, bitmap.height))
  {
  }

  // ---------------------------------------------------------------------------
  // The mapper as the source runs it

  /** `cropBitmapByBounds`: the step-by-step computation, rewriting the drag
      amount in place where a clamp fires. */
  method CropBitmapByBounds(bitmap: Image, bounds: Rect, scaleFactor: real, effScale: real, displayW: int,
                            drag: DragHandler) returns (crop: Rect)
    requires ZoomReady(bounds, scaleFactor, effScale, displayW)
    modifies drag`amountX, drag`amountY
    ensures var o := CropBounds(bitmap, bounds, scaleFactor, effScale, displayW, old(drag.amountX), old(drag.amountY));
      crop == o.crop && drag.amountX == o.dragX && drag.amountY == o.dragY
  {
    if scaleFactor <= 1.0 {
      return Rect(0, 0, bitmap.width, bitmap.height);
    }

    var scale := effScale;

    var boundW := Round(bounds.width as real / scale);
    var boundH := Round(bounds.height as real / scale);

    scale := scale * (displayW as real / bounds.width as real);

    if boundW > bitmap.width {
      boundW := bitmap.width;
    }
    if boundH > bitmap.height {
      boundH := bitmap.height;
    }
    ghost var dragX, dragY := drag.amountX, drag.amountY;
    assert boundW == VisibleExtent(bounds.width, effScale, bitmap.width);
    assert boundH == VisibleExtent(bounds.height, effScale, bitmap.height);
    assert scale == PanScale(bounds, effScale, displayW);

    var invisibleW := bitmap.width - boundW;
    var leftOffset;
    leftOffset, drag.amountX := PanStep(invisibleW, invisibleW as real / 2.0, scale, drag.amountX);

    var invisibleH := bitmap.height - boundH;
    // integer division: the vertical centre is truncated (invisibleH is never negative)
    var topOffset;
    topOffset, drag.amountY := PanStep(invisibleH, (invisibleH / 2) as real, scale, drag.amountY);

    crop := Rect(leftOffset, topOffset, leftOffset + boundW, topOffset + boundH);
    CropBoundsZoomed(bitmap, bounds, scaleFactor, effScale, displayW, dragX, dragY, boundW, boundH, scale,
                     Pan(leftOffset, drag.amountX), Pan(topOffset, drag.amountY));
  }

  /** One axis of `cropBitmapByBounds` as the code runs it: the rounded
      shifted centre, then the far clamp, then the near clamp, each clamp
      replacing the drag with the edge drag. */
  method PanStep(invisible: int, centre: real, scale: real, drag: real) returns (offset: int, newDrag: real)
    requires 0 <= invisible && 0.0 < scale
    ensures Pan(offset, newDrag) == PanAxis(invisible, centre, scale, drag)
  {
    newDrag := drag;
    offset := Round(centre - drag / scale);
    ghost var p := PanAxis(invisible, centre, scale, drag);
    if offset > invisible {
      offset := invisible;
      newDrag := -(Round((invisible as real / 2.0) * scale) as real);
      assert p == Pan(offset, newDrag);
    }
    if offset < 0 {
      newDrag := Round((invisible as real / 2.0) * scale) as real;
      offset := 0;
      assert p == Pan(offset, newDrag);
    }
  }

  /** `cropBitmapByScale`: the 100 % bounds of the display, the mapper, the
      conversion to a region, and the crop of the image to that region. The
      bounds are only used when zoomed, so only then is a realised display
      needed. */
  method CropBitmapByScale(bitmap: Image, scaleFactor: real, effScale: real, displayW: int, displayH: int,
                           drag: DragHandler) returns (cropped: Result<Image>)
    requires 1.0 < scaleFactor ==> 0.0 < effScale && 0 < displayW && 0 < displayH
    modifies drag`amountX, drag`amountY
    ensures var bounds := if 0 < displayW && 0 < displayH then DisplayBounds(bitmap, displayW, displayH)
                          else Rect(0, 0, 0, 0);
      var o := CropBounds(bitmap, bounds, scaleFactor, effScale, displayW, old(drag.amountX), old(drag.amountY));
      cropped == CropImage(bitmap, CornersToRegion(o.crop)) &&
      drag.amountX == o.dragX && drag.amountY == o.dragY
  {
    // an unrealised display is never divided by: its bounds are not used
    var bounds := if 0 < displayW && 0 < displayH then DisplayBounds(bitmap, displayW, displayH)
                  else Rect(0, 0, 0, 0);
    var crop := CropBitmapByBounds(bitmap, bounds, scaleFactor, effScale, displayW, drag);
    cropped := CropImage(bitmap, CornersToRegion(crop));
  }

  // ---------------------------------------------------------------------------
  // Swipe navigation

  /** The navigation a gesture asks of the content: none, the next image or
      the previous one. */
  datatype Swipe = Stay | Next | Previous

  /** The swipe decision of `imageByGesture`: while zoomed nothing happens; at
      rest a horizontal drag longer than a tenth of the display width (integer
      division) goes to the next image when it points left and to the previous
      one when it points right. */
  function SwipeDecision(scaleFactor: real, distanceX: real, displayW: nat): (s: Swipe)
    ensures 1.0 < scaleFactor ==> s == Stay
    ensures scaleFactor <= 1.0 ==> (s != Stay <==> Abs(distanceX) > (displayW / 10) as real)
    ensures s == Next ==> distanceX < 0.0
    ensures s == Previous ==> 0.0 < distanceX
  {
    if 1.0 < scaleFactor then Stay
    else if Abs(distanceX) > (displayW / 10) as real then
      if distanceX < 0.0 then Next else Previous
    else Stay
  }

  /** `imageByGesture`: the crop for the current gesture, then the swipe
      decision; a swipe cancels the drag, so the swipe fires once per drag. */
  method ImageByGesture(bitmap: Image, scaleFactor: real, effScale: real, displayW: nat, displayH: nat,
                        drag: DragHandler) returns (shown: Result<Image>, swipe: Swipe)
    requires 1.0 < scaleFactor ==> 0.0 < effScale && 0 < displayW && 0 < displayH
    modifies drag
    ensures var bounds := if 0 < displayW && 0 < displayH then DisplayBounds(bitmap, displayW, displayH)
                          else Rect(0, 0, 0, 0);
      var o := CropBounds(bitmap, bounds, scaleFactor, effScale, displayW, old(drag.amountX), old(drag.amountY));
      shown == CropImage(bitmap, CornersToRegion(o.crop)) &&
      (swipe == Stay ==> drag.amountX == o.dragX && drag.amountY == o.dragY)
    ensures swipe == SwipeDecision(scaleFactor, old(drag.distanceX), displayW)
    ensures swipe == Stay ==> drag.distanceX == old(drag.distanceX) && drag.distanceY == old(drag.distanceY)
    ensures swipe != Stay ==>
      drag.amountX == 0.0 && drag.amountY == 0.0 && drag.distanceX == 0.0 && drag.distanceY == 0.0 &&
      SwipeDecision(scaleFactor, drag.distanceX, displayW) == Stay
  {
    shown := CropBitmapByScale(bitmap, scaleFactor, effScale, displayW, displayH, drag);
    if 1.0 < scaleFactor {
      return shown, Stay;
    }

    swipe := Stay;
    if Abs(drag.distanceX) > (displayW / 10) as real {
      if drag.distanceX < 0.0 {
        swipe := Next;
      } else {
        swipe := Previous;
      }
      drag.Cancel();
    }
  }
}
