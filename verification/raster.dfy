/**
 Raster data shared by the skin-region locator and the tone classifier:
 8-bit channels, pixels in the decoder's native blue-green-red order,
 decoded images and the rectangles a face detector reports.
 */
module Raster {

  datatype Option<+T> = None | Some(value: T)

  /** One 8-bit colour channel. */
  type Byte = x: int | 0 <= x < 256

  /** Index of a channel inside a decoded pixel. */
  type ChannelIndex = k: int | 0 <= k < 3

  /** The decoder delivers pixels as (blue, green, red). */
  const Blue: ChannelIndex := 0
  const Green: ChannelIndex := 1
  const Red: ChannelIndex := 2

  /** A decoded pixel, channels in the decoder's order (`c0` is blue). */
  datatype Pixel = Pixel(c0: Byte, c1: Byte, c2: Byte) {
    function At(k: ChannelIndex): Byte {
      if k == 0 then c0 else if k == 1 then c1 else c2
    }

    /** The same colour in (red, green, blue) order. */
    function ToRgb(): Rgb {
      Rgb(c2, c1, c0)
    }
  }

  /** A colour in the standard (red, green, blue) order. */
  datatype Rgb = Rgb(red: Byte, green: Byte, blue: Byte)

  /** A decoded image: `height` rows of `width` pixels each. */
  datatype Image = Image(width: nat, height: nat, rows: seq<seq<Pixel>>) {
    predicate Valid() {
      |rows| == height && forall y :: 0 <= y < |rows| ==> |rows[y]| == width
    }
  }

  /** A rectangle `(x, y, w, h)` in pixel coordinates. */
  datatype Rect = Rect(x: int, y: int, w: int, h: int) {
    function Area(): int {
      w * h
    }

    predicate NonEmpty() {
      w > 0 && h > 0
    }

    /** The rectangle lies inside a `width` x `height` image. */
    predicate Within(width: int, height: int) {
      0 <= x && 0 <= y && x + w <= width && y + h <= height
    }
  }

  /** `n / 10` truncated toward zero, as Python's `int()` truncates a float
      holding `n` tenths. */
  function TruncTenths(n: int): (q: int)
    ensures n >= 0 ==> 0 <= q && q * 10 <= n < q * 10 + 10
    ensures n < 0 ==> q <= 0 && q * 10 - 10 < n <= q * 10
  {
    if n >= 0 then n / 10 else -((-n) / 10)
  }
}
