/** The threshold step of the grayscale preprocessing: `lambda x: 0 if x < 128 else 255`. */
module Binarize {

  /** An 8-bit grayscale pixel value. */
  type Pixel = x: int | 0 <= x < 256

  /** Values below 128 become black, the rest white; nothing else is produced. */
  function Threshold(x: Pixel): (r: Pixel)
    ensures r == 0 <==> x < 128
    ensures r == 255 <==> x >= 128
  {
    if x < 128 then 0 else 255
  }

  /** `image.point(threshold)`: the threshold applied to every pixel. */
  function Point(img: seq<Pixel>): (out: seq<Pixel>)
    ensures |out| == |img|
    ensures forall k | 0 <= k < |out| :: out[k] == 0 || out[k] == 255
    ensures forall k | 0 <= k < |out| :: (out[k] == 0 <==> img[k] < 128) && (out[k] == 255 <==> img[k] >= 128)
  {
    seq(|img|, k requires 0 <= k < |img| => Threshold(img[k]))
  }

  /** The threshold never reverses the order of two pixels. */
  lemma ThresholdMonotone(x: Pixel, y: Pixel)
    requires x <= y
    ensures Threshold(x) <= Threshold(y)
  {
  }

  /** Binarising a binarised image changes nothing. */
  lemma PointIdempotent(img: seq<Pixel>)
    ensures Point(Point(img)) == Point(img)
  {
  }
}
