/**
 * Fitting the river into the drawing surface: a uniform scale leaving a
 * 10% margin on the tighter axis, and a translation that centres the
 * path's bounding box. The bounding box and the container size are inputs
 * (the browser measures them).
 */
module Viewport {
  import opened Reals

  /** `getBBox()` of the base path: the top-left corner and the extent. */
  datatype BBox = BBox(x: real, y: real, width: real, height: real)

  /** `translate(tx, ty) scale(s)` applied to the river group. */
  datatype Transform = Transform(tx: real, ty: real, scale: real)

  /** Either the transform is applied, or the step is skipped (with a console warning). */
  datatype Fit = Skipped | Applied(transform: Transform)

  /**
   * The fit of the path's bounding box into a `width` x `height` container.
   * It is applied exactly when the box has positive width and height; the
   * scale is 0.9 times the smaller of the two axis ratios, so the scaled box
   * fills at most 90% of the container on each axis and exactly 90% on the
   * tighter one, and the translation leaves equal margins left and right
   * and equal margins above and below.
   */
  function FitToViewport(width: real, height: real, box: BBox): (f: Fit)
    ensures f.Applied? <==> box.width > 0.0 && box.height > 0.0
    ensures f.Applied? ==>
      var t := f.transform;
      && t.scale == 0.9 * Min(width / box.width, height / box.height)
      && box.width * t.scale <= 0.9 * width
      && box.height * t.scale <= 0.9 * height
      && (box.width * t.scale == 0.9 * width || box.height * t.scale == 0.9 * height)
      && box.x * t.scale + t.tx == width - ((box.x + box.width) * t.scale + t.tx)
      && box.y * t.scale + t.ty == height - ((box.y + box.height) * t.scale + t.ty)
  {
    if box.width > 0.0 && box.height > 0.0 then
      var scaleFactor := Min(width / box.width, height / box.height) * 0.9;
      var translateX := (width - box.width * scaleFactor) / 2.0 - box.x * scaleFactor;
      var translateY := (height - box.height * scaleFactor) / 2.0 - box.y * scaleFactor;
      ScaledExtent(width, box.width, scaleFactor, Min(width / box.width, height / box.height));
      ScaledExtent(height, box.height, scaleFactor, Min(width / box.width, height / box.height));
      Applied(Transform(translateX, translateY, scaleFactor))
    else
      Skipped
  }

  /** One axis of the fit: the scaled extent is 0.9 * extent * ratio, which is at most 0.9 * size, with equality when the ratio is this axis's own. */
  lemma ScaledExtent(size: real, extent: real, s: real, ratio: real)
    requires extent > 0.0 && ratio <= size / extent && s == ratio * 0.9
    ensures extent * s <= 0.9 * size
    ensures ratio == size / extent ==> extent * s == 0.9 * size
  {
    assert extent * (size / extent) == size;
    assert extent * s == 0.9 * (extent * ratio);
    assert extent * ratio <= extent * (size / extent);
  }
}
