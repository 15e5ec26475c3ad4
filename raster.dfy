/** Sizes, rectangles and the allocation rules of the raster images the
    viewer works on. Only dimensions are modelled, never pixel content. */
module Raster {

  datatype Size = Size(width: int, height: int)

  /** The extents of an existing raster image: an image buffer cannot be
      allocated with a zero or negative width or height. */
  type Image = s: Size | s.width > 0 && s.height > 0 witness Size(1, 1)

  /** A rectangle as `java.awt.Rectangle` holds it: origin, then two extents. */
  datatype Rect = Rect(x: int, y: int, width: int, height: int)

  datatype RasterError =
    | NonPositiveSize(width: int, height: int)  // an image buffer of this size cannot exist
    | OutsideParent(region: Rect)               // a sub-image region not inside its parent

  datatype Result<+T> = Ok(value: T) | Err(error: RasterError)

  /** Allocating a new image buffer of the given size. */
  function Allocate(width: int, height: int): (r: Result<Image>)
    ensures r.Ok? <==> 0 < width && 0 < height
    ensures r.Ok? ==> r.value == Size(width, height)
  {
    if 0 < width && 0 < height then
      var image: Image := Size(width, height);
      Ok(image)
    else Err(NonPositiveSize(width, height))
  }

  predicate Inside(region: Rect, parent: Image)
  {
    0 <= region.x && 0 <= region.y &&
    region.x + region.width <= parent.width &&
    region.y + region.height <= parent.height
  }

  /** Taking the sub-image of `parent` that `region` covers: the region must be
      non-empty and lie inside the parent. */
  function SubImage(parent: Image, region: Rect): (r: Result<Image>)
    ensures r.Ok? <==> 0 < region.width && 0 < region.height && Inside(region, parent)
    ensures r.Ok? ==> r.value == Size(region.width, region.height)
  {
    if region.width <= 0 || region.height <= 0 then Err(NonPositiveSize(region.width, region.height))
    else if !Inside(region, parent) then Err(OutsideParent(region))
    else
      var image: Image := Size(region.width, region.height);
      Ok(image)
  }
}
