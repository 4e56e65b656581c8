/** The pyramid builder: 4x4 RGBA blocks to one luminance pixel, and a
    further 2x2 halving of a luminance image (depthmap_c.c). */
module Pyramid {
  import opened Common

  /** Channel `c` (0 red, 1 green, 2 blue, 3 alpha) of pixel (px, py) of a
      packed RGBA image `w` pixels wide; 0 outside the buffer. */
  function Channel(img: seq<uint8>, w: int, px: int, py: int, c: int): int
  {
    var k := Flat(px, py, w) * 4 + c;
    if 0 <= k < |img| then img[k] else 0
  }

  /** Channel `c` summed over the first `n` pixels of the 4-pixel run that
      starts at column 4*x of row `row`. */
  function RunSum(img: seq<uint8>, w: int, x: int, row: int, c: int, n: nat): int
  {
    if n == 0 then 0 else RunSum(img, w, x, row, c, n - 1) + Channel(img, w, 4 * x + n - 1, row, c)
  }

  /** Channel `c` summed over the first `m` rows of the 4x4 block of output
      pixel (x, y). */
  function BlockSum(img: seq<uint8>, w: int, x: int, y: int, c: int, m: nat): int
  {
    if m == 0 then 0 else BlockSum(img, w, x, y, c, m - 1) + RunSum(img, w, x, 4 * y + m - 1, c, 4)
  }

  /** The 16-pixel channel average, `sum >> 4`. */
  function ChannelAverage(img: seq<uint8>, w: int, x: int, y: int, c: int): int
  {
    BlockSum(img, w, x, y, c, 4) / 16
  }

  /** Rec. 709 luminance weights applied to averaged channels. */
  function Luminance(r: int, g: int, b: int): real
  {
    0.2126 * r as real + 0.7152 * g as real + 0.0722 * b as real
  }

  /** The luminance of output pixel (x, y). */
  function Grey(img: seq<uint8>, w: int, x: int, y: int): real
  {
    Luminance(ChannelAverage(img, w, x, y, 0), ChannelAverage(img, w, x, y, 1),
              ChannelAverage(img, w, x, y, 2))
  }

  lemma {:induction false} RunSumBounds(img: seq<uint8>, w: int, x: int, row: int, c: int, n: nat)
    ensures 0 <= RunSum(img, w, x, row, c, n) <= 255 * n
  {
    if n > 0 {
      RunSumBounds(img, w, x, row, c, n - 1);
    }
  }

  lemma {:induction false} BlockSumBounds(img: seq<uint8>, w: int, x: int, y: int, c: int, m: nat)
    ensures 0 <= BlockSum(img, w, x, y, c, m) <= 1020 * m
  {
    if m > 0 {
      BlockSumBounds(img, w, x, y, c, m - 1);
      RunSumBounds(img, w, x, 4 * y + m - 1, c, 4);
    }
  }

  /** Dividing the sum of 16 channel values by 16 gives a channel value. */
  lemma ChannelAverageInRange(img: seq<uint8>, w: int, x: int, y: int, c: int)
    ensures 0 <= ChannelAverage(img, w, x, y, c) <= 255
  {
    BlockSumBounds(img, w, x, y, c, 4);
  }

  /** The weights sum to one, so luminance stays within the channel range. */
  lemma GreyInRange(img: seq<uint8>, w: int, x: int, y: int)
    ensures 0.0 <= Grey(img, w, x, y) <= 255.0
  {
    ChannelAverageInRange(img, w, x, y, 0);
    ChannelAverageInRange(img, w, x, y, 1);
    ChannelAverageInRange(img, w, x, y, 2);
  }

  /** An image whose every pixel has the same colour turns into a uniform
      luminance image of that colour's luminance. */
  lemma UniformBlockGrey(img: seq<uint8>, w: int, x: int, y: int, r: uint8, g: uint8, b: uint8)
    requires forall px, py :: Channel(img, w, px, py, 0) == r
    requires forall px, py :: Channel(img, w, px, py, 1) == g
    requires forall px, py :: Channel(img, w, px, py, 2) == b
    ensures Grey(img, w, x, y) == Luminance(r, g, b)
  {
    UniformChannelAverage(img, w, x, y, 0, r);
    UniformChannelAverage(img, w, x, y, 1, g);
    UniformChannelAverage(img, w, x, y, 2, b);
  }

  lemma UniformChannelAverage(img: seq<uint8>, w: int, x: int, y: int, c: int, v: int)
    requires forall px, py :: Channel(img, w, px, py, c) == v
    ensures ChannelAverage(img, w, x, y, c) == v
  {
    forall row ensures RunSum(img, w, x, row, c, 4) == 4 * v {
      RunSumConstant(img, w, x, row, c, 4, v);
    }
    assert BlockSum(img, w, x, y, c, 1) == 4 * v;
    assert BlockSum(img, w, x, y, c, 2) == 8 * v;
    assert BlockSum(img, w, x, y, c, 3) == 12 * v;
    assert BlockSum(img, w, x, y, c, 4) == 16 * v;
  }

  lemma {:induction false} RunSumConstant(img: seq<uint8>, w: int, x: int, row: int, c: int, n: nat, v: int)
    requires forall px, py :: Channel(img, w, px, py, c) == v
    ensures RunSum(img, w, x, row, c, n) == n * v
  {
    if n > 0 {
      RunSumConstant(img, w, x, row, c, n - 1, v);
    }
  }

  /** blend4x4_cnvrtToGreyscale: NULL unless both dimensions are multiples of
      four; otherwise each output pixel is the luminance of the channel
      averages of its 4x4 source block. */
  method Blend4x4ToGrey(image: array<uint8>, w: nat, h: nat) returns (result: Option<array<real>>)
    requires image.Length == 4 * w * h
    ensures result.None? <==> (w % 4 != 0 || h % 4 != 0)
    ensures result.Some? ==> result.value.Length == (w / 4) * (h / 4)
    ensures result.Some? ==>
      forall x, y | 0 <= x < w / 4 && 0 <= y < h / 4 ::
        Flat(x, y, w / 4) < result.value.Length && result.value[Flat(x, y, w / 4)] == Grey(image[..], w, x, y)
  {
    if w % 4 != 0 || h % 4 != 0 {
      return None;
    }
    var w4, h4 := w / 4, h / 4;
    var out := new real[w4 * h4];
    FlatInsideAll(w4, h4);
    var y := 0;
    while y < h4
      invariant 0 <= y <= h4
      invariant forall xx, yy | 0 <= xx < w4 && 0 <= yy < y :: out[Flat(xx, yy, w4)] == Grey(image[..], w, xx, yy)
    {
      var x := 0;
      while x < w4
        invariant 0 <= x <= w4
        invariant forall xx, yy | 0 <= xx < w4 && 0 <= yy < y :: out[Flat(xx, yy, w4)] == Grey(image[..], w, xx, yy)
        invariant forall xx | 0 <= xx < x :: out[Flat(xx, y, w4)] == Grey(image[..], w, xx, y)
      {
        var r, g, b := BlockChannels(image, w, h, x, y);
        FlatInside(x, y, w4, h4);
        forall xx, yy | 0 <= xx < w4 && 0 <= yy < y ensures Flat(xx, yy, w4) != Flat(x, y, w4) {
          FlatRowOrder(xx, yy, x, y, w4);
        }
        out[Flat(x, y, w4)] := Luminance(r / 16, g / 16, b / 16);
        x := x + 1;
      }
      y := y + 1;
    }
    return Some(out);
  }

  /** The inner `j`/`i` loops: the red, green and blue sums of one 4x4 block. */
  method BlockChannels(image: array<uint8>, w: nat, h: nat, x: nat, y: nat) returns (r: int, g: int, b: int)
    requires image.Length == 4 * w * h && w % 4 == 0 && h % 4 == 0
    requires x < w / 4 && y < h / 4
    ensures r == BlockSum(image[..], w, x, y, 0, 4)
    ensures g == BlockSum(image[..], w, x, y, 1, 4)
    ensures b == BlockSum(image[..], w, x, y, 2, 4)
  {
    r, g, b := 0, 0, 0;
    var j := 0;
    while j < 4
      invariant 0 <= j <= 4
      invariant r == BlockSum(image[..], w, x, y, 0, j)
      invariant g == BlockSum(image[..], w, x, y, 1, j)
      invariant b == BlockSum(image[..], w, x, y, 2, j)
    {
      var i := 0;
      while i < 4
        invariant 0 <= i <= 4
        invariant r == BlockSum(image[..], w, x, y, 0, j) + RunSum(image[..], w, x, 4 * y + j, 0, i)
        invariant g == BlockSum(image[..], w, x, y, 1, j) + RunSum(image[..], w, x, 4 * y + j, 1, i)
        invariant b == BlockSum(image[..], w, x, y, 2, j) + RunSum(image[..], w, x, 4 * y + j, 2, i)
      {
        var k := Flat(4 * x + i, 4 * y + j, w) * 4;
        RunSumStep(image[..], w, h, x, 4 * y + j, i, k);
        r := r + image[k];
        g := g + image[k + 1];
        b := b + image[k + 2];
        i := i + 1;
      }
      j := j + 1;
    }
  }

  /** The next pixel of a run, at flat index k/4, adds bytes k, k+1 and k+2
      to the red, green and blue sums. */
  lemma RunSumStep(img: seq<uint8>, w: int, h: int, x: int, row: int, i: nat, k: int)
    requires |img| == 4 * w * h && 0 <= 4 * x + i < w && 0 <= row < h && k == Flat(4 * x + i, row, w) * 4
    ensures 0 <= k && k + 2 < |img|
    ensures RunSum(img, w, x, row, 0, i + 1) == RunSum(img, w, x, row, 0, i) + img[k]
    ensures RunSum(img, w, x, row, 1, i + 1) == RunSum(img, w, x, row, 1, i) + img[k + 1]
    ensures RunSum(img, w, x, row, 2, i + 1) == RunSum(img, w, x, row, 2, i) + img[k + 2]
  {
    RgbaInside(4 * x + i, row, 2, w, h);
  }

  /** The sum of the 2x2 block of output pixel (x, y) of a luminance image
      `w` pixels wide, over its first `m` rows and `n` columns of the last. */
  function PairSum(img: seq<real>, w: int, x: int, y: int, m: nat, n: nat): real
    decreases m, n
  {
    if n > 0 then PairSum(img, w, x, y, m, n - 1) + Lum(img, Flat(2 * x + n - 1, 2 * y + m, w))
    else if m > 0 then PairSum(img, w, x, y, m - 1, 2)
    else 0.0
  }

  /** The plain mean of the 2x2 block of output pixel (x, y). */
  function Mean2x2(img: seq<real>, w: int, x: int, y: int): (m: real)
    ensures 4.0 * m == Lum(img, Flat(2 * x, 2 * y, w)) + Lum(img, Flat(2 * x + 1, 2 * y, w))
                     + Lum(img, Flat(2 * x, 2 * y + 1, w)) + Lum(img, Flat(2 * x + 1, 2 * y + 1, w))
  {
    PairSum(img, w, x, y, 2, 0) / 4.0
  }

  /** The 2x2 mean lies between the smallest and largest of its four samples. */
  lemma Mean2x2Between(img: seq<real>, w: int, x: int, y: int, lo: real, hi: real)
    requires forall px, py | 2 * x <= px <= 2 * x + 1 && 2 * y <= py <= 2 * y + 1 ::
      lo <= Lum(img, Flat(px, py, w)) <= hi
    ensures lo <= Mean2x2(img, w, x, y) <= hi
  {
    var m := Mean2x2(img, w, x, y);
    assert lo <= Lum(img, Flat(2 * x, 2 * y, w)) <= hi;
    assert lo <= Lum(img, Flat(2 * x + 1, 2 * y, w)) <= hi;
    assert lo <= Lum(img, Flat(2 * x, 2 * y + 1, w)) <= hi;
    assert lo <= Lum(img, Flat(2 * x + 1, 2 * y + 1, w)) <= hi;
  }

  /** The inner `j`/`i` loops of blend_2x2: the sum of one 2x2 block. */
  method PairSumOf(img: array<real>, w: nat, h: nat, x: nat, y: nat) returns (pixel: real)
    requires img.Length == w * h && x < w / 2 && y < h / 2
    ensures pixel == PairSum(img[..], w, x, y, 2, 0)
  {
    pixel := 0.0;
    var j := 0;
    while j < 2
      invariant 0 <= j <= 2
      invariant pixel == PairSum(img[..], w, x, y, j, 0)
    {
      var i := 0;
      while i < 2
        invariant 0 <= i <= 2
        invariant pixel == PairSum(img[..], w, x, y, j, i)
      {
        FlatInside(2 * x + i, 2 * y + j, w, h);
        pixel := pixel + img[Flat(2 * x + i, 2 * y + j, w)];
        i := i + 1;
      }
      j := j + 1;
    }
  }

  /** blend_2x2: every pixel of the half-size image is the plain mean of its
      2x2 source block. */
  method Blend2x2(img: array<real>, w: nat, h: nat) returns (resized: array<real>)
    requires img.Length == w * h
    ensures resized.Length == (w / 2) * (h / 2)
    ensures forall x, y | 0 <= x < w / 2 && 0 <= y < h / 2 ::
      Flat(x, y, w / 2) < resized.Length && resized[Flat(x, y, w / 2)] == Mean2x2(img[..], w, x, y)
  {
    var w2, h2 := w / 2, h / 2;
    resized := new real[w2 * h2];
    FlatInsideAll(w2, h2);
    var y := 0;
    while y < h2
      invariant 0 <= y <= h2
      invariant forall xx, yy | 0 <= xx < w2 && 0 <= yy < y :: resized[Flat(xx, yy, w2)] == Mean2x2(img[..], w, xx, yy)
    {
      var x := 0;
      while x < w2
        invariant 0 <= x <= w2
        invariant forall xx, yy | 0 <= xx < w2 && 0 <= yy < y :: resized[Flat(xx, yy, w2)] == Mean2x2(img[..], w, xx, yy)
        invariant forall xx | 0 <= xx < x :: resized[Flat(xx, y, w2)] == Mean2x2(img[..], w, xx, y)
      {
        var pixel := PairSumOf(img, w, h, x, y);
        pixel := pixel / 4.0;
        FlatInside(x, y, w2, h2);
        forall xx, yy | 0 <= xx < w2 && 0 <= yy < y ensures Flat(xx, yy, w2) != Flat(x, y, w2) {
          FlatRowOrder(xx, yy, x, y, w2);
        }
        resized[Flat(x, y, w2)] := pixel;
        x := x + 1;
      }
      y := y + 1;
    }
  }
}
