/** The size arithmetic of the viewer's image utilities: aspect-preserving
    scaling, the display-fit bounds, the three filters and the crop, and the
    preferred window size. Floating-point ratios are exact reals here. */
module GraphicsMath {
  import opened Rounding
  import opened Raster

  // ---------------------------------------------------------------------------
  // Aspect-preserving scaling

  /** The factor that fits `bitmap` into `width` x `height`: the smaller of the
      two axis ratios. */
  function FitRatio(bitmap: Image, width: int, height: int): (ratio: real)
    ensures ratio <= width as real / bitmap.width as real
    ensures ratio <= height as real / bitmap.height as real
    ensures ratio == width as real / bitmap.width as real || ratio == height as real / bitmap.height as real
  {
    var ratioX := width as real / bitmap.width as real;
    var ratioY := height as real / bitmap.height as real;
    if ratioX < ratioY then ratioX else ratioY
  }

  /** The dimensions an aspect-preserving scale of `bitmap` into `width` x
      `height` produces: both extents scaled by the fit ratio, then truncated.
      The result fits the target, fills it in one axis, and keeps the bitmap's
      aspect ratio up to the truncation of each extent. */
  function AspectFitSize(bitmap: Image, width: int, height: int): (s: Size)
    ensures s.width == width || s.height == height
    ensures 0 <= width && 0 <= height ==>
      0 <= s.width <= width && 0 <= s.height <= height &&
      -bitmap.height < AspectSkew(s, bitmap.width, bitmap.height) < bitmap.width
  {
    var ratio := FitRatio(bitmap, width, height);
    var s := ScaledSize(bitmap, ratio);
    AspectFitFills(bitmap, width, height, ratio);
    if 0 <= width && 0 <= height then
      FitBelow(bitmap, width, height, ratio);
      ScaledWithin(bitmap, ratio, width, height);
      ScaledKeepsAspect(bitmap, ratio);
      s
    else s
  }

  /** How far the shape of `s` departs from the aspect ratio `w : h`, in
      units of one pixel of either: zero exactly when `s.width : s.height`
      equals `w : h`. */
  function AspectSkew(s: Size, w: int, h: int): int
  {
    s.width * h - s.height * w
  }

  /** Both extents of `bitmap` scaled by `ratio`, each truncated. */
  function ScaledSize(bitmap: Image, ratio: real): Size
  {
    Size(Trunc(bitmap.width as real * ratio), Trunc(bitmap.height as real * ratio))
  }

  /** For a non-negative ratio each scaled extent is the whole part of the
      scaled bitmap extent. */
  lemma ScaledSizeTruncates(bitmap: Image, ratio: real)
    requires 0.0 <= ratio
    ensures var s := ScaledSize(bitmap, ratio);
      s.width as real <= bitmap.width as real * ratio < s.width as real + 1.0 &&
      s.height as real <= bitmap.height as real * ratio < s.height as real + 1.0
  {
  }

  /** For a non-negative ratio the scaled size keeps the bitmap's aspect ratio
      up to the truncation of each extent. */
  lemma ScaledKeepsAspect(bitmap: Image, ratio: real)
    requires 0.0 <= ratio
    ensures 0 <= ScaledSize(bitmap, ratio).width && 0 <= ScaledSize(bitmap, ratio).height
    ensures -bitmap.height < AspectSkew(ScaledSize(bitmap, ratio), bitmap.width, bitmap.height) < bitmap.width
  {
    var s := ScaledSize(bitmap, ratio);
    AspectWithinTruncation(bitmap.width, bitmap.height, ratio, s.width, s.height);
  }

  /** The fit ratio is the ratio of one axis, which that axis then meets exactly. */
  lemma AspectFitFills(bitmap: Image, width: int, height: int, ratio: real)
    requires ratio == FitRatio(bitmap, width, height)
    ensures ScaledSize(bitmap, ratio).width == width || ScaledSize(bitmap, ratio).height == height
  {
    FitFacts(bitmap, width, height, ratio);
    if ratio == width as real / bitmap.width as real {
      TruncOfInteger(width);
    } else {
      TruncOfInteger(height);
    }
  }

  lemma FitBelow(bitmap: Image, width: int, height: int, ratio: real)
    requires ratio == FitRatio(bitmap, width, height)
    requires 0 <= width && 0 <= height
    ensures 0.0 <= ratio
    ensures bitmap.width as real * ratio <= width as real
    ensures bitmap.height as real * ratio <= height as real
  {
    FitFacts(bitmap, width, height, ratio);
  }

  /** A ratio that scales the bitmap into the target keeps its truncated
      extents inside the target. */
  lemma ScaledWithin(bitmap: Image, ratio: real, width: int, height: int)
    requires 0.0 <= ratio
    requires bitmap.width as real * ratio <= width as real && bitmap.height as real * ratio <= height as real
    ensures ScaledSize(bitmap, ratio).width <= width && ScaledSize(bitmap, ratio).height <= height
  {
    MulNonNegative(bitmap.width as real, ratio);
    MulNonNegative(bitmap.height as real, ratio);
    TruncWithin(bitmap.width as real * ratio, width);
    TruncWithin(bitmap.height as real * ratio, height);
  }

  lemma TruncWithin(x: real, bound: int)
    requires 0.0 <= x <= bound as real
    ensures 0 <= Trunc(x) <= bound
  {
  }

  lemma MulNonNegative(x: real, y: real)
    requires 0.0 <= x && 0.0 <= y
    ensures 0.0 <= x * y
  {
  }

  lemma FitFacts(bitmap: Image, width: int, height: int, ratio: real)
    requires ratio == FitRatio(bitmap, width, height)
    ensures ratio == width as real / bitmap.width as real ==> bitmap.width as real * ratio == width as real
    ensures ratio == height as real / bitmap.height as real ==> bitmap.height as real * ratio == height as real
    ensures bitmap.width as real * ratio <= width as real
    ensures bitmap.height as real * ratio <= height as real
    ensures 0 <= width && 0 <= height ==> 0.0 <= ratio
  {
    var bw, bh := bitmap.width as real, bitmap.height as real;
    assert bw * (width as real / bw) == width as real;
    assert bh * (height as real / bh) == height as real;
    MulMono(bw, ratio, width as real / bw);
    MulMono(bh, ratio, height as real / bh);
  }

  lemma MulMono(k: real, x: real, y: real)
    requires 0.0 < k && x <= y
    ensures k * x <= k * y
  {
  }

  /** Two extents truncated from `w * ratio` and `h * ratio` keep the aspect
      ratio `w : h` to within one pixel of each. */
  lemma AspectWithinTruncation(w: int, h: int, ratio: real, sw: int, sh: int)
    requires 0 < w && 0 < h && 0.0 <= ratio
    requires sw == Trunc(w as real * ratio) && sh == Trunc(h as real * ratio)
    ensures -h < sw * h - sh * w < w
  {
    MulNonNegative(w as real, ratio);
    MulNonNegative(h as real, ratio);
    CrossWithin(w, h, ratio, sw, sh);
  }

  /** The cross product difference of two extents, each within one below its
      scaled value, stays within one extent. */
  lemma CrossWithin(w: int, h: int, ratio: real, sw: int, sh: int)
    requires 0 < w && 0 < h
    requires 0.0 <= w as real * ratio - sw as real < 1.0
    requires 0.0 <= h as real * ratio - sh as real < 1.0
    ensures -h < sw * h - sh * w < w
  {
    var W, H := w as real, h as real;
    var a := W * ratio - sw as real;
    var b := H * ratio - sh as real;
    CrossDifference(W, H, ratio, a, b, sw as real, sh as real);
    FractionsBound(W, H, a, b);
    CastProduct(sw, h);
    CastProduct(sh, w);
  }

  lemma CrossDifference(W: real, H: real, ratio: real, a: real, b: real, x: real, y: real)
    requires x == W * ratio - a && y == H * ratio - b
    ensures x * H - y * W == W * b - H * a
  {
    assert x * H == W * ratio * H - a * H;
    assert y * W == H * ratio * W - b * W;
  }

  /** Two truncation remainders weighted by the two extents stay within the
      extents. */
  lemma FractionsBound(W: real, H: real, a: real, b: real)
    requires 0.0 < W && 0.0 < H && 0.0 <= a < 1.0 && 0.0 <= b < 1.0
    ensures -H < W * b - H * a < W
  {
    MulNonNegative(W, b);
    MulNonNegative(H, a);
    MulStrict(W, b, 1.0);
    MulStrict(H, a, 1.0);
    assert 0.0 <= W * b < W * 1.0;
    assert 0.0 <= H * a < H * 1.0;
    assert W * 1.0 == W;
  }

  lemma MulStrict(k: real, x: real, y: real)
    requires 0.0 < k && x < y
    ensures k * x < k * y
  {
  }

  lemma CastProduct(x: int, y: int)
    ensures (x * y) as real == x as real * y as real
  {
  }

  /** `k <= x / y` follows from `k * y <= x` for a positive `y`. */
  lemma DivAtLeast(k: real, x: real, y: real)
    requires 0.0 < y && k * y <= x
    ensures k <= x / y
  {
    assert x / y * y == x;
    if x / y < k {
      MulMono(y, x / y, k);
    }
  }

  /** `scaleBitmapAspectRatio`: a new image of the aspect-fit size, which
      fails when truncation leaves an empty axis. */
  function ScaleBitmapAspectRatio(bitmap: Image, width: int, height: int): (r: Result<Image>)
    ensures r.Ok? <==> 0 < AspectFitSize(bitmap, width, height).width && 0 < AspectFitSize(bitmap, width, height).height
    ensures r.Ok? ==> r.value == AspectFitSize(bitmap, width, height)
    ensures 0 <= width && 0 <= height && r.Ok? ==> r.value.width <= width && r.value.height <= height
  {
    var s := AspectFitSize(bitmap, width, height);
    Allocate(s.width, s.height)
  }

  // ---------------------------------------------------------------------------
  // Display-fit bounds

  /** The factor by which the display must be enlarged to cover `bitmap`: the
      larger of the two axis ratios. */
  function CoverRatio(bitmap: Image, displayW: int, displayH: int): (ratio: real)
    requires 0 < displayW && 0 < displayH
    ensures ratio >= bitmap.width as real / displayW as real
    ensures ratio >= bitmap.height as real / displayH as real
    ensures ratio == bitmap.width as real / displayW as real || ratio == bitmap.height as real / displayH as real
  {
    var ratioX := bitmap.width as real / displayW as real;
    var ratioY := bitmap.height as real / displayH as real;
    if ratioX > ratioY then ratioX else ratioY
  }

  /** `getDisplayBounds`: the region of the image seen at "100 %" zoom, the
      display's shape enlarged to cover the whole image, anchored at the
      origin. It covers the bitmap, matches it exactly in one axis and keeps
      the display's aspect ratio up to truncation. */
  function DisplayBounds(bitmap: Image, displayW: int, displayH: int): (r: Rect)
    requires 0 < displayW && 0 < displayH
    ensures r.x == 0 && r.y == 0
    ensures bitmap.width <= r.width && bitmap.height <= r.height
    ensures r.width == bitmap.width || r.height == bitmap.height
    ensures -displayH < r.width * displayH - r.height * displayW < displayW
  {
    var ratio := CoverRatio(bitmap, displayW, displayH);
    var r := Rect(0, 0, Trunc(displayW as real * ratio), Trunc(displayH as real * ratio));
    CoverFacts(bitmap, displayW, displayH, ratio);
    TruncAtLeast(displayW as real * ratio, bitmap.width);
    TruncAtLeast(displayH as real * ratio, bitmap.height);
    AspectWithinTruncation(displayW, displayH, ratio, r.width, r.height);
    r
  }

  lemma CoverFacts(bitmap: Image, displayW: int, displayH: int, ratio: real)
    requires 0 < displayW && 0 < displayH
    requires ratio == CoverRatio(bitmap, displayW, displayH)
    ensures ratio == bitmap.width as real / displayW as real ==> displayW as real * ratio == bitmap.width as real
    ensures ratio == bitmap.height as real / displayH as real ==> displayH as real * ratio == bitmap.height as real
    ensures bitmap.width as real <= displayW as real * ratio
    ensures bitmap.height as real <= displayH as real * ratio
    ensures 0.0 <= ratio
  {
    var dw, dh := displayW as real, displayH as real;
    assert dw * (bitmap.width as real / dw) == bitmap.width as real;
    assert dh * (bitmap.height as real / dh) == bitmap.height as real;
    MulMono(dw, bitmap.width as real / dw, ratio);
    MulMono(dh, bitmap.height as real / dh, ratio);
  }

  // ---------------------------------------------------------------------------
  // Filters

  /** `applyGrayScaleFilter`: a single-channel copy of the same size. */
  function GrayScaleFilter(bitmap: Image): (r: Result<Image>)
    ensures r == Ok(bitmap)
  {
    Allocate(bitmap.width, bitmap.height)
  }

  /** The down-sampling factor of the pixelate filter. */
  const PixelFactor := 20

  /** The first pass of `applyPixelFilter`: an aspect fit into a twentieth of
      each extent (integer division), which cannot succeed when an axis is
      shorter than 20 pixels. */
  function PixelDownsample(bitmap: Image): (r: Result<Image>)
    ensures bitmap.width < PixelFactor || bitmap.height < PixelFactor ==> r.Err?
    ensures r.Ok? ==> r.value.width * PixelFactor <= bitmap.width && r.value.height * PixelFactor <= bitmap.height
    ensures r.Ok? ==> r.value.width == bitmap.width / PixelFactor || r.value.height == bitmap.height / PixelFactor
  {
    ScaleBitmapAspectRatio(bitmap, bitmap.width / PixelFactor, bitmap.height / PixelFactor)
  }

  /** `applyPixelFilter`: down-sample, then aspect-fit the small image back into
      the original extents. It fails exactly when the down-sampling does; its
      result fits the original, fills it in one axis, and is at least 20
      pixels in each. */
  function PixelFilter(bitmap: Image): (r: Result<Image>)
    ensures r.Ok? <==> PixelDownsample(bitmap).Ok?
    ensures r.Ok? ==>
      r.value.width <= bitmap.width && r.value.height <= bitmap.height &&
      (r.value.width == bitmap.width || r.value.height == bitmap.height) &&
      PixelFactor <= r.value.width && PixelFactor <= r.value.height
  {
    match PixelDownsample(bitmap)
    case Err(e) => Err(e)
    case Ok(small) =>
      UpsampleFits(small, bitmap);
      ScaleBitmapAspectRatio(small, bitmap.width, bitmap.height)
  }

  /** As written, the pixelate filter does not give back an image of the
      size it was given: a 30 x 40 image is fitted into 1 x 2, which gives
      1 x 1, and fitting that square back into 30 x 40 gives 30 x 30. */
  lemma PixelFilterLosesSize()
    ensures PixelDownsample(Size(30, 40)) == Ok(Size(1, 1))
    ensures PixelFilter(Size(30, 40)) == Ok(Size(30, 30))
  {
    var image: Image := Size(30, 40);
    var small: Image := Size(1, 1);
    assert FitRatio(image, 1, 2) == 1.0 / 30.0;
    assert Trunc(30.0 * (1.0 / 30.0)) == 1 by { TruncOfInteger(1); }
    assert Trunc(40.0 * (1.0 / 30.0)) == 1 by { TruncAtLeast(40.0 * (1.0 / 30.0), 1); }
    assert FitRatio(small, 30, 40) == 30.0;
    TruncOfInteger(30);
  }

  /** The pixelate filter as its purpose asks: the down-sampled image is drawn
      back over the full extents of the original, so the result has exactly
      the size it was given. It fails exactly when the down-sampling does. */
  function PixelFilterResized(bitmap: Image): (r: Result<Image>)
    ensures r.Ok? <==> PixelDownsample(bitmap).Ok?
    ensures r.Ok? ==> r.value == bitmap
  {
    match PixelDownsample(bitmap)
    case Err(e) => Err(e)
    case Ok(_) => Allocate(bitmap.width, bitmap.height)
  }

  /** Aspect-fitting an image at most a twentieth of `target` back into
      `target` yields at least 20 pixels in each axis. */
  lemma UpsampleFits(small: Image, target: Image)
    requires small.width * PixelFactor <= target.width && small.height * PixelFactor <= target.height
    ensures var s := AspectFitSize(small, target.width, target.height);
      PixelFactor <= s.width && PixelFactor <= s.height
  {
    var ratio := FitRatio(small, target.width, target.height);
    AspectFitIsScaled(small, target.width, target.height);
    ScaledAtLeastTwenty(small, target, ratio);
  }

  /** The aspect-fit size is the bitmap scaled by the fit ratio. */
  lemma AspectFitIsScaled(bitmap: Image, width: int, height: int)
    ensures AspectFitSize(bitmap, width, height) == ScaledSize(bitmap, FitRatio(bitmap, width, height))
  {
  }

  /** Scaling by a fit ratio into at least twenty times the bitmap gives at
      least 20 pixels in each axis. */
  lemma ScaledAtLeastTwenty(small: Image, target: Image, ratio: real)
    requires small.width * PixelFactor <= target.width && small.height * PixelFactor <= target.height
    requires ratio == FitRatio(small, target.width, target.height)
    ensures PixelFactor <= ScaledSize(small, ratio).width && PixelFactor <= ScaledSize(small, ratio).height
  {
    FitAtLeastTwenty(small.width as real, small.height as real, target.width as real, target.height as real, ratio);
    ScaledAtLeast(small, ratio, PixelFactor);
  }

  /** Scaled extents of at least `k` truncate to at least `k`. */
  lemma ScaledAtLeast(bitmap: Image, ratio: real, k: int)
    requires 0 <= k && k as real <= bitmap.width as real * ratio && k as real <= bitmap.height as real * ratio
    ensures k <= ScaledSize(bitmap, ratio).width && k <= ScaledSize(bitmap, ratio).height
  {
    var s := ScaledSize(bitmap, ratio);
    assert s.width == Trunc(bitmap.width as real * ratio) && s.height == Trunc(bitmap.height as real * ratio);
    TruncAtLeast(bitmap.width as real * ratio, k);
    TruncAtLeast(bitmap.height as real * ratio, k);
  }

  /** The smaller of two ratios `tw / sw` and `th / sh`, each at least 20,
      scales both `sw` and `sh` to at least 20. */
  lemma FitAtLeastTwenty(sw: real, sh: real, tw: real, th: real, ratio: real)
    requires 1.0 <= sw && 1.0 <= sh && 20.0 * sw <= tw && 20.0 * sh <= th
    requires ratio <= tw / sw && ratio <= th / sh && (ratio == tw / sw || ratio == th / sh)
    ensures 20.0 <= sw * ratio && 20.0 <= sh * ratio
  {
    DivAtLeast(20.0, tw, sw);
    DivAtLeast(20.0, th, sh);
    MulMono(sw, 20.0, ratio);
    MulMono(sh, 20.0, ratio);
  }

  /** The side of the blur's square box kernel, and the border it crops away. */
  const BlurRadius := 11
  const BlurSize := 11

  /** The kernel of `applyBlurFilter`: `BlurSize * BlurSize` equal weights,
      filled one entry at a time. */
  method BlurKernel() returns (matrix: array<real>)
    ensures fresh(matrix)
    ensures matrix.Length == BlurSize * BlurSize
    ensures forall i :: 0 <= i < matrix.Length ==> matrix[i] == 1.0 / (BlurSize * BlurSize) as real
  {
    var weight := 1.0 / (BlurSize * BlurSize) as real;
    matrix := new real[BlurSize * BlurSize];
    for i := 0 to matrix.Length
      invariant forall k :: 0 <= k < i ==> matrix[k] == weight
    {
      matrix[i] := weight;
    }
  }

  function Sum(s: seq<real>): real
  {
    if s == [] then 0.0 else s[0] + Sum(s[1..])
  }

  lemma {:induction false} SumOfEqualWeights(s: seq<real>, w: real)
    requires forall i :: 0 <= i < |s| ==> s[i] == w
    ensures Sum(s) == |s| as real * w
  {
    if s != [] {
      SumOfEqualWeights(s[1..], w);
    }
  }

  /** The box kernel is normalised: its weights add up to one, so blurring
      keeps the average brightness. */
  lemma BlurKernelIsNormalised(matrix: seq<real>)
    requires |matrix| == BlurSize * BlurSize
    requires forall i :: 0 <= i < |matrix| ==> matrix[i] == 1.0 / (BlurSize * BlurSize) as real
    ensures Sum(matrix) == 1.0
  {
    SumOfEqualWeights(matrix, 1.0 / (BlurSize * BlurSize) as real);
  }

  /** `applyBlurFilter`: a same-size copy is convolved (the convolution keeps
      the size), then the sub-image inside a `BlurRadius` border is kept. It
      succeeds exactly when both extents exceed twice the radius. */
  function BlurFilter(bitmap: Image): (r: Result<Image>)
    ensures r.Ok? <==> 2 * BlurRadius < bitmap.width && 2 * BlurRadius < bitmap.height
    ensures r.Ok? ==> r.value == Size(bitmap.width - 2 * BlurRadius, bitmap.height - 2 * BlurRadius)
  {
    match Allocate(bitmap.width, bitmap.height)
    case Err(e) => Err(e)
    case Ok(copy) =>
      var convolved := copy;
      SubImage(convolved, Rect(BlurRadius, BlurRadius,
                               convolved.width - BlurRadius * 2, convolved.height - BlurRadius * 2))
  }

  // ---------------------------------------------------------------------------
  // Crop and window size

  /** `cropImage`: a new image of exactly the crop's extents; it fails when the
      crop is empty. */
  function CropImage(bitmap: Image, crop: Rect): (r: Result<Image>)
    ensures r.Ok? <==> 0 < crop.width && 0 < crop.height
    ensures r.Ok? ==> r.value == Size(crop.width, crop.height)
  {
    Allocate(crop.width, crop.height)
  }

  /** Eighty percent of a screen extent, truncated: for a real screen this is
      the integer `screen * 4 / 5`. */
  function PreferredExtent(screen: int): (p: int)
    ensures 0 <= screen ==> p == screen * 4 / 5
  {
    EightyPercent(screen);
    Trunc(screen as real * 0.8)
  }

  lemma EightyPercent(screen: int)
    ensures 0 <= screen ==> Trunc(screen as real * 0.8) == screen * 4 / 5
  {
    if 0 <= screen {
      var q := screen * 4 / 5;
      assert q as real <= screen as real * 0.8 < q as real + 1.0 by {
        assert q * 5 <= screen * 4 < q * 5 + 5;
      }
    }
  }

  /** `getPreferredWindowSize`: the desired size, shrunk per axis to eighty
      percent of the screen where it is larger: the component-wise minimum. */
  function PreferredWindowSize(desiredW: int, desiredH: int, screenW: int, screenH: int): (r: Size)
    ensures r.width <= desiredW && r.width <= PreferredExtent(screenW)
    ensures r.width == desiredW || r.width == PreferredExtent(screenW)
    ensures r.height <= desiredH && r.height <= PreferredExtent(screenH)
    ensures r.height == desiredH || r.height == PreferredExtent(screenH)
  {
    var preferredW := PreferredExtent(screenW);
    var preferredH := PreferredExtent(screenH);
    Size(if desiredW < preferredW then desiredW else preferredW,
         if desiredH < preferredH then desiredH else preferredH)
  }
}
