/** Machine types, flat-image indexing and the index arithmetic shared by
    every stage of the depth-map pipeline. */
module Common {

  /** `unsigned char`: RGBA channels and depth-map pixels. */
  type uint8 = x: int | 0 <= x < 0x100

  /** `unsigned short`: entries of a disparity-range table. */
  type uint16 = x: int | 0 <= x < 0x1_0000

  datatype Option<T> = None | Some(value: T)

  /** Storing an `int` into an `unsigned char` keeps its low eight bits. */
  function Trunc8(v: int): (r: uint8)
    ensures 0 <= v < 0x100 ==> r == v
    ensures 0 <= v ==> r <= v
    ensures (v - r) % 0x100 == 0
  {
    v % 0x100
  }

  /** Storing an `int` into an `unsigned short` keeps its low sixteen bits. */
  function Trunc16(v: int): (r: uint16)
    ensures 0 <= v < 0x1_0000 ==> r == v
    ensures 0 <= v ==> r <= v
    ensures (v - r) % 0x1_0000 == 0
  {
    v % 0x1_0000
  }

  /** Sample `k` of a luminance image; 0 outside the buffer. */
  function Lum(img: seq<real>, k: int): real
  {
    if 0 <= k < |img| then img[k] else 0.0
  }

  /** Row-major position of pixel (x, y) in an image `w` pixels wide:
      the source's `y*width + x`. */
  function Flat(x: int, y: int, w: int): int
  {
    y * w + x
  }

  lemma MulMono(a: int, b: int, n: int)
    requires a <= b && 0 <= n
    ensures a * n <= b * n
  {
    assert b * n - a * n == (b - a) * n;
  }

  lemma MulAssoc(a: int, b: int, c: int)
    ensures a * b * c == a * (b * c)
  {
  }

  /** A pixel inside a w-by-h image has a flat index inside the buffer. */
  lemma FlatInside(x: int, y: int, w: int, h: int)
    requires 0 <= x < w && 0 <= y < h
    ensures 0 <= Flat(x, y, w) < w * h
    ensures Flat(x, y, w) < (y + 1) * w
  {
    MulMono(y + 1, h, w);
    assert (y + 1) * w == y * w + w;
  }

  /** FlatInside for every pixel at once. */
  lemma FlatInsideAll(w: int, h: int)
    ensures forall x, y | 0 <= x < w && 0 <= y < h :: 0 <= Flat(x, y, w) < w * h
  {
    forall x, y | 0 <= x < w && 0 <= y < h ensures 0 <= Flat(x, y, w) < w * h {
      FlatInside(x, y, w, h);
    }
  }

  /** Channel `c` of a pixel inside a w-by-h packed RGBA image lies inside
      the 4*w*h-byte buffer. */
  lemma RgbaInside(x: int, y: int, c: int, w: int, h: int)
    requires 0 <= x < w && 0 <= y < h && 0 <= c < 4
    ensures 0 <= Flat(x, y, w) * 4 + c < 4 * w * h
  {
    FlatInside(x, y, w, h);
    assert 4 * w * h == (w * h) * 4;
  }

  /** Pixels of an earlier row come before every pixel of a later row. */
  lemma FlatRowOrder(x1: int, y1: int, x2: int, y2: int, w: int)
    requires 0 <= x1 < w && 0 <= x2 && y1 < y2
    ensures Flat(x1, y1, w) < Flat(x2, y2, w)
  {
    MulMono(y1 + 1, y2, w);
    assert (y1 + 1) * w == y1 * w + w;
  }

  /** Distinct pixels of a row-major image have distinct flat indices. */
  lemma FlatInjective(x1: int, y1: int, x2: int, y2: int, w: int)
    requires 0 <= x1 < w && 0 <= x2 < w && (x1, y1) != (x2, y2)
    ensures Flat(x1, y1, w) != Flat(x2, y2, w)
  {
    if y1 < y2 {
      FlatRowOrder(x1, y1, x2, y2, w);
    } else if y2 < y1 {
      FlatRowOrder(x2, y2, x1, y1, w);
    }
  }

  /** Position `k` of a row-major run of `bh` rows of `bw` samples. */
  lemma RowMajorSplit(yy: int, xx: int, bw: int, bh: int)
    requires 0 <= yy < bh && 0 <= xx < bw
    ensures 0 <= yy * bw + xx < bw * bh
    ensures (yy * bw + xx) / bw == yy && (yy * bw + xx) % bw == xx
  {
    FlatInside(xx, yy, bw, bh);
    assert bw * bh == bh * bw;
    var k := yy * bw + xx;
    var q, r := k / bw, k % bw;
    assert q * bw + r == k && 0 <= r < bw;
    assert (q - yy) * bw == xx - r;
    if q > yy {
      MulMono(1, q - yy, bw);
    } else if q < yy {
      MulMono(1, yy - q, bw);
    }
  }

  /** Slot `k` of block `b` in a serialised layout of `n`-sample blocks. */
  function Slot(b: int, k: int, n: int): int
  {
    b * n + k
  }

  /** Slots of earlier blocks lie below every slot of block `c`. */
  lemma SlotBelow(b: int, k: int, n: int, c: int)
    requires 0 <= k < n && b < c
    ensures Slot(b, k, n) < c * n
  {
    MulMono(b + 1, c, n);
    assert (b + 1) * n == b * n + n;
  }
}
