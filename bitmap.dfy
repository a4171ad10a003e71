/**
 * The decoded image as the extractor sees it: its size and its buffer of
 * pixels, stored row after row, which pixel reads index into.
 */
module Bitmaps {
  import opened Colors

  /**
   * An image dimension. The PNG specification (section 11.2.2, IHDR) forbids
   * zero, and its four-byte unsigned integers are at most 2^31 - 1.
   */
  type Dim = n: int | 1 <= n < 0x8000_0000 witness 1

  /** A pixel coordinate. */
  datatype XY = XY(x: nat, y: nat)

  /**
   * An image: width, height and the first three bytes of every pixel of the
   * buffer, by pixel number. The buffer holds `height` rows of `width` pixels
   * one after another; `pixels` also gives a value past its end.
   */
  datatype Bitmap = Bitmap(width: Dim, height: Dim, pixels: nat -> Triad)

  /** The number of the pixel that a read at column `x`, row `y` lands on. */
  function PixelIndex(image: Bitmap, x: nat, y: nat): nat
  {
    y * image.width + x
  }

  /** The colour read at column `x`, row `y`; no bounds are checked. */
  function GetPixel(image: Bitmap, x: nat, y: nat): Rgb
  {
    Byte2Rgb(image.pixels(PixelIndex(image, x, y)))
  }

  /**
   * A column index one row-width further reads the same pixel as the next row
   * does. On a one-pixel-wide image, column 1 of row `y` is column 0 of row
   * `y + 1`.
   */
  lemma GetPixelWraps(image: Bitmap, x: nat, y: nat)
    ensures GetPixel(image, x + image.width, y) == GetPixel(image, x, y + 1)
  {
    assert (y + 1) * image.width == y * image.width + image.width;
  }

  /** Multiplying by a natural number keeps an ordering. */
  lemma MulLe(a: nat, b: nat, c: nat)
    requires a <= b
    ensures a * c <= b * c
  {
    assert b * c - a * c == (b - a) * c;
  }

  /** A read inside the image lands on a pixel of the buffer. */
  lemma PixelInBuffer(image: Bitmap, x: nat, y: nat)
    requires x < image.width && y < image.height
    ensures PixelIndex(image, x, y) < image.height * image.width
  {
    var w: nat, h: nat := image.width, image.height;
    MulLe(y + 1, h, w);
    assert (y + 1) * w == y * w + w;
  }

  /** On a one-pixel-high image, a read in row 1 lands past the end of the buffer. */
  lemma RowOneOutsideBuffer(image: Bitmap, x: nat)
    requires image.height == 1
    ensures PixelIndex(image, x, 1) >= image.height * image.width
  {
  }
}
