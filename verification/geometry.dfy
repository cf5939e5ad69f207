/**
  The converter's box normaliser: order each coordinate pair, clip the near
  edge into [0, dim-1] and the far edge into [0, dim], and drop the box when a
  side comes out empty.
 */
module Geometry {
  import opened Wrappers

  /** A COCO `bbox`: top-left corner, width and height. */
  datatype Box = Box(x: int, y: int, w: int, h: int)

  function Min(a: int, b: int): int {
    if a <= b then a else b
  }

  function Max(a: int, b: int): int {
    if a >= b then a else b
  }

  /** A box with positive sides lying inside a `width` by `height` image. */
  predicate InsideImage(b: Box, width: int, height: int) {
    0 <= b.x && 0 <= b.y && b.w > 0 && b.h > 0 && b.x + b.w <= width && b.y + b.h <= height
  }

  /**
    When one axis of a box survives clipping: the image has at least one pixel
    on that axis and either the box reaches past the origin with positive
    extent, or it starts at or beyond the far edge (then it is pinned there as
    a one-pixel sliver).
   */
  predicate KeptAxis(a: int, b: int, dim: int) {
    dim >= 1 && (Min(a, b) >= dim || (Max(a, b) > Min(a, b) && Max(a, b) > 0))
  }

  /**
    Where a kept axis lands: the overlap of [lo, hi] with [0, dim] when the
    box starts inside the image, the last pixel otherwise.
   */
  predicate AxisPlaced(a: int, b: int, dim: int, start: int, extent: int) {
    if Min(a, b) < dim then start == Max(Min(a, b), 0) && start + extent == Min(Max(a, b), dim)
    else start == dim - 1 && extent == 1
  }

  /**
    The converter orders a box's corners and clips them to the image; `None` is
    the skipped, degenerate box.
    Any integers are accepted, negative or beyond the image.
   */
  function NormalizeBox(xmin: int, ymin: int, xmax: int, ymax: int, width: int, height: int): (r: Option<Box>)
    ensures r.Some? ==> InsideImage(r.value, width, height)
    ensures r.Some? <==> KeptAxis(xmin, xmax, width) && KeptAxis(ymin, ymax, height)
    ensures r.Some? ==> AxisPlaced(xmin, xmax, width, r.value.x, r.value.w)
    ensures r.Some? ==> AxisPlaced(ymin, ymax, height, r.value.y, r.value.h)
  {
    var x1 := Min(xmin, xmax);
    var x2 := Max(xmin, xmax);
    var y1 := Min(ymin, ymax);
    var y2 := Max(ymin, ymax);
    var cx1 := Max(0, Min(x1, width - 1));
    var cy1 := Max(0, Min(y1, height - 1));
    var cx2 := Max(0, Min(x2, width));
    var cy2 := Max(0, Min(y2, height));
    var w := Max(0, cx2 - cx1);
    var h := Max(0, cy2 - cy1);
    if w <= 0 || h <= 0 then None else Some(Box(cx1, cy1, w, h))
  }

  /** Swapping min and max on either axis changes neither the box nor the skip decision. */
  lemma SwapInvariant(xmin: int, ymin: int, xmax: int, ymax: int, width: int, height: int)
    ensures NormalizeBox(xmax, ymin, xmin, ymax, width, height) == NormalizeBox(xmin, ymin, xmax, ymax, width, height)
    ensures NormalizeBox(xmin, ymax, xmax, ymin, width, height) == NormalizeBox(xmin, ymin, xmax, ymax, width, height)
    ensures NormalizeBox(xmax, ymax, xmin, ymin, width, height) == NormalizeBox(xmin, ymin, xmax, ymax, width, height)
  {
  }

  /** A box already ordered and inside the image comes out as itself. */
  lemma ValidBoxUnchanged(xmin: int, ymin: int, xmax: int, ymax: int, width: int, height: int)
    requires 0 <= xmin < xmax <= width
    requires 0 <= ymin < ymax <= height
    ensures NormalizeBox(xmin, ymin, xmax, ymax, width, height) == Some(Box(xmin, ymin, xmax - xmin, ymax - ymin))
  {
  }

  /** x from 700 to 750 on a 640-pixel-wide image is kept as a one-pixel box at x = 639. */
  lemma ThinBoxAtFarEdge()
    ensures NormalizeBox(700, 10, 750, 50, 640, 480) == Some(Box(639, 10, 1, 40))
  {
  }
}
