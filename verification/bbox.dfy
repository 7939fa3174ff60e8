/**
 `convert_bbox` of datasets_utils.py: a pixel box given by its corners becomes a
 centre-format box normalised by the image size. Values are exact reals; the
 source's floating-point rounding is not modelled.
 */
module BBox {

  /** Corner format, in pixels. */
  datatype Corners = Corners(left: real, top: real, right: real, bottom: real)

  /** Centre format, as fractions of the image width and height. */
  datatype Box = Box(x: real, y: real, w: real, h: real)

  /** The inverse conversion: a centre-format box back to pixel corners. */
  function ToCorners(b: Box, width: int, height: int): Corners
  {
    var W, H := width as real, height as real;
    Corners((b.x - b.w / 2.0) * W, (b.y - b.h / 2.0) * H, (b.x + b.w / 2.0) * W, (b.y + b.h / 2.0) * H)
  }

  /** Corner box to normalised centre box; the source raises on a zero image dimension. */
  function ConvertBox(c: Corners, width: int, height: int): (b: Box)
    requires width != 0 && height != 0
    ensures ToCorners(b, width, height) == c
  {
    var W, H := width as real, height as real;
    var b := Box((c.left + c.right) / 2.0 / W, (c.top + c.bottom) / 2.0 / H,
                 (c.right - c.left) / W, (c.bottom - c.top) / H);
    assert (b.x - b.w / 2.0) * W == c.left;
    assert (b.x + b.w / 2.0) * W == c.right;
    assert (b.y - b.h / 2.0) * H == c.top;
    assert (b.y + b.h / 2.0) * H == c.bottom;
    b
  }

  /** The other round trip: any centre box is the conversion of its own corners. */
  lemma ConvertToCorners(b: Box, width: int, height: int)
    requires width != 0 && height != 0
    ensures ConvertBox(ToCorners(b, width, height), width, height) == b
  {
    var W, H := width as real, height as real;
    var c := ToCorners(b, width, height);
    var r := ConvertBox(c, width, height);
    assert c.left + c.right == 2.0 * b.x * W;
    assert c.right - c.left == b.w * W;
    assert c.top + c.bottom == 2.0 * b.y * H;
    assert c.bottom - c.top == b.h * H;
  }

  /** A box inside the image has its centre, width and height in [0, 1]. */
  lemma ConvertInUnitRange(c: Corners, width: int, height: int)
    requires 0 < width && 0 < height
    requires 0.0 <= c.left <= c.right <= width as real
    requires 0.0 <= c.top <= c.bottom <= height as real
    ensures var b := ConvertBox(c, width, height);
            && 0.0 <= b.x <= 1.0 && 0.0 <= b.y <= 1.0
            && 0.0 <= b.w <= 1.0 && 0.0 <= b.h <= 1.0
  {
    var W, H := width as real, height as real;
    var b := ConvertBox(c, width, height);
    assert b.x * W == (c.left + c.right) / 2.0;
    assert b.y * H == (c.top + c.bottom) / 2.0;
    assert b.w * W == c.right - c.left;
    assert b.h * H == c.bottom - c.top;
  }

  /** The worked example at 1920 x 1080, exactly and to six decimals. */
  lemma ConvertExample()
    ensures var b := ConvertBox(Corners(100.0, 200.0, 400.0, 350.0), 1920, 1080);
            && b == Box(250.0 / 1920.0, 275.0 / 1080.0, 300.0 / 1920.0, 150.0 / 1080.0)
            && -0.00001 < b.x - 0.130208 < 0.00001
            && -0.00001 < b.y - 0.254630 < 0.00001
            && -0.00001 < b.w - 0.156250 < 0.00001
            && -0.00001 < b.h - 0.138889 < 0.00001
  {
  }
}
