/** Raster images as values: the contents of the canvas's pixel buffer at one
    instant (what getImageData returns and putImageData writes back), and the
    rectangle-clearing operation of the 2-D context that the eraser and the
    Clear button use. */
module Raster {

  /** A pixel's colour. The model never looks inside it. */
  type Colour = int

  /** What clearRect leaves behind: transparent black. A fresh canvas holds
      this colour everywhere. */
  const CLEARED: Colour := 0

  /** The eraser clears a square of this side, centred on the pointer. */
  const ERASER_SIZE: nat := 10
  const ERASER_HALF: nat := 5

  /** An image as a sequence of rows; `img[y][x]` is the pixel in column `x`
      of row `y`, the origin at the top left. */
  type Image = seq<seq<Colour>>

  /** `img` has `height` rows of `width` pixels each. */
  predicate IsGrid(img: Image, height: nat, width: nat) {
    |img| == height && forall y :: 0 <= y < |img| ==> |img[y]| == width
  }

  /** Pixel `(x, y)` lies in the rectangle with top-left corner `(left, top)`
      and the given extent. */
  predicate InRect(x: int, y: int, left: int, top: int, w: nat, h: nat) {
    left <= x < left + w && top <= y < top + h
  }

  /** A `height` by `width` image in which every pixel is cleared. */
  function Blank(height: nat, width: nat): (r: Image)
    ensures IsGrid(r, height, width)
  {
    seq(height, _ => seq(width, _ => CLEARED))
  }

  /** The context's clearRect(left, top, w, h): every pixel of the image that
      lies in the rectangle becomes CLEARED; the rectangle is clipped to the
      image, so parts of it outside the image have no effect. */
  function ClearedRect(img: Image, left: int, top: int, w: nat, h: nat): (r: Image)
    ensures |r| == |img|
    ensures forall y :: 0 <= y < |r| ==> |r[y]| == |img[y]|
  {
    seq(|img|, y requires 0 <= y < |img| =>
      seq(|img[y]|, x requires 0 <= x < |img[y]| =>
        if InRect(x, y, left, top, w, h) then CLEARED else img[y][x]))
  }

  /** One eraser move at `(px, py)`: clearRect(px - 5, py - 5, 10, 10). */
  function Erased(img: Image, px: int, py: int): Image {
    ClearedRect(img, px - ERASER_HALF, py - ERASER_HALF, ERASER_SIZE, ERASER_SIZE)
  }

  /** The eraser clears exactly the pixels in [px-5, px+5) x [py-5, py+5)
      that lie inside the image, and leaves every other pixel as it was. */
  lemma EraserClearsWindow(img: Image, px: int, py: int)
    ensures |Erased(img, px, py)| == |img|
    ensures forall y, x :: 0 <= y < |img| && 0 <= x < |img[y]| ==>
      |Erased(img, px, py)[y]| == |img[y]| &&
      Erased(img, px, py)[y][x] ==
        if px - 5 <= x < px + 5 && py - 5 <= y < py + 5 then CLEARED else img[y][x]
  {
  }

  /** Clearing the same rectangle twice gives the same image as clearing it
      once. */
  lemma ClearedRectIdempotent(img: Image, left: int, top: int, w: nat, h: nat)
    ensures ClearedRect(ClearedRect(img, left, top, w, h), left, top, w, h)
         == ClearedRect(img, left, top, w, h)
  {
    var once := ClearedRect(img, left, top, w, h);
    var twice := ClearedRect(once, left, top, w, h);
    assert |twice| == |once|;
    forall y | 0 <= y < |once|
      ensures twice[y] == once[y]
    {
      assert |twice[y]| == |once[y]|;
    }
  }

  /** Erasing twice at the same point is the same as erasing once there. */
  lemma EraseIdempotent(img: Image, px: int, py: int)
    ensures Erased(Erased(img, px, py), px, py) == Erased(img, px, py)
  {
    ClearedRectIdempotent(img, px - ERASER_HALF, py - ERASER_HALF, ERASER_SIZE, ERASER_SIZE);
  }

  /** clearRect(0, 0, width, height) on a `height` by `width` image blanks
      all of it. */
  lemma ClearWholeIsBlank(img: Image, height: nat, width: nat)
    requires IsGrid(img, height, width)
    ensures ClearedRect(img, 0, 0, width, height) == Blank(height, width)
  {
    var r := ClearedRect(img, 0, 0, width, height);
    var b := Blank(height, width);
    forall y | 0 <= y < height
      ensures r[y] == b[y]
    {
      assert |r[y]| == |b[y]|;
    }
  }
}
