/** postProcess: the left/right consistency check with rescaling, then two
    hole-filling passes over the image interior. */
module Postprocessing {
  import opened Common

  /** Number of fill passes. */
  const Passes: nat := 2

  function Abs(v: int): nat
  {
    if v < 0 then -v else v
  }

  /** `dMap1[k] * 255.5f / dispLimit` stored into an `unsigned char`: the
      quotient truncated toward zero, then its low eight bits. The quotient
      is l*511 / (2*limit) exactly, so its truncation is that integer
      division. */
  function Rescale(l: uint8, limit: int): uint8
    requires 1 <= limit
  {
    Trunc8((l * 511) / (2 * limit))
  }

  /** A disparity within the limit rescales without wrapping onto 0..255:
      0 stays black, the limit itself becomes white, and the scale keeps
      the order of disparities. */
  lemma RescaleWithinLimit(l1: uint8, l2: uint8, limit: int)
    requires 1 <= limit && l1 <= l2 <= limit
    ensures Rescale(l1, limit) == (l1 * 511) / (2 * limit)
    ensures Rescale(l1, limit) <= Rescale(l2, limit)
    ensures Rescale(0, limit) == 0
    ensures l2 == limit ==> Rescale(l2, limit) == 255
  {
    var q1, q2 := (l1 * 511) / (2 * limit), (l2 * 511) / (2 * limit);
    MulMono(l2, limit, 511);
    DivBelow(l2 * 511, 2 * limit, 255);
    DivMono(l1 * 511, l2 * 511, 2 * limit);
    DivAbove(l1 * 511, 2 * limit, 0);
    assert 0 <= q1 <= q2 <= 255;
    assert (0 * 511) / (2 * limit) == 0;
    if l2 == limit {
      DivAbove(l2 * 511, 2 * limit, 255);
    }
  }

  /** The consistency check at pixel k: the left map's disparity l is kept,
      rescaled, when the right map at k - l agrees with it to within 1, and
      the pixel is blacked out otherwise. */
  function CheckAt(m1: seq<uint8>, m2: seq<uint8>, k: int, limit: int): uint8
    requires 0 <= k < |m1| == |m2| && m1[k] <= k && 1 <= limit
  {
    var l := m1[k];
    if Abs(l as int - m2[k - l]) > 1 then 0 else Rescale(l, limit)
  }

  /** Every pixel's disparity reaches no further left than the buffer's
      start, so the right map is read inside it. */
  ghost predicate InBuffer(m1: seq<uint8>)
  {
    forall k | 0 <= k < |m1| :: m1[k] <= k
  }

  /** The checked image. */
  function CheckMap(m1: seq<uint8>, m2: seq<uint8>, limit: int): (c: seq<uint8>)
    requires |m1| == |m2| && InBuffer(m1) && 1 <= limit
  {
    seq(|m1|, k requires 0 <= k < |m1| => CheckAt(m1, m2, k, limit))
  }

  /** A checked pixel is non-zero only where both maps agree on a non-zero
      disparity; a zero disparity gives a black pixel. */
  lemma CheckedMeaning(m1: seq<uint8>, m2: seq<uint8>, limit: int, k: int)
    requires |m1| == |m2| && InBuffer(m1) && 1 <= limit && 0 <= k < |m1|
    ensures m1[k] == 0 ==> CheckMap(m1, m2, limit)[k] == 0
    ensures CheckMap(m1, m2, limit)[k] != 0 ==> m1[k] != 0 && Abs(m1[k] as int - m2[k - m1[k]]) <= 1
    ensures Abs(m1[k] as int - m2[k - m1[k]]) <= 1 && m1[k] <= limit ==>
      CheckMap(m1, m2, limit)[k] == (m1[k] * 511) / (2 * limit)
  {
    RescaleWithinLimit(0, 0, limit);
    if m1[k] <= limit {
      RescaleWithinLimit(m1[k], m1[k], limit);
    }
  }

  /** The average of the non-zero values among four neighbours, as an
      integer: their sum divided by their count. The sum of all four equals
      the sum of the non-zero ones. With no non-zero neighbour the source
      divides 0 by 0.0f; that value is taken to be 0. */
  function Average4(a: uint8, b: uint8, c: uint8, d: uint8): (r: uint8)
  {
    var n := Count(a) + Count(b) + Count(c) + Count(d);
    var s := a + b + c + d;
    if n == 0 then 0 else SumBound(a, b, c, d); s / n
  }

  function Count(v: int): nat
  {
    if v != 0 then 1 else 0
  }

  lemma SumBound(a: uint8, b: uint8, c: uint8, d: uint8)
    ensures a + b + c + d <= 255 * (Count(a) + Count(b) + Count(c) + Count(d))
    ensures a + b + c + d >= Count(a) + Count(b) + Count(c) + Count(d)
    ensures Count(a) + Count(b) + Count(c) + Count(d) > 0 ==>
      (a + b + c + d) / (Count(a) + Count(b) + Count(c) + Count(d)) <= 255
  {
    var n := Count(a) + Count(b) + Count(c) + Count(d);
    CountBetween(a, 1, 255); CountBetween(b, 1, 255);
    CountBetween(c, 1, 255); CountBetween(d, 1, 255);
    Distribute(255, Count(a), Count(b), Count(c), Count(d));
    if n > 0 {
      DivBelow(a + b + c + d, n, 255);
    }
  }

  /** s < (m+1)*n gives s / n <= m. */
  lemma DivBelow(s: int, n: int, m: int)
    requires 0 <= s && 0 < n && s < (m + 1) * n
    ensures s / n <= m
  {
    if s / n > m {
      MulMono(m + 1, s / n, n);
    }
  }

  /** m*n <= s gives m <= s / n. */
  lemma DivAbove(s: int, n: int, m: int)
    requires 0 <= s && 0 < n && m * n <= s
    ensures m <= s / n
  {
    if s / n < m {
      assert (s / n + 1) * n == (s / n) * n + n;
      MulMono(s / n + 1, m, n);
    }
  }

  /** Division by a positive number keeps the order. */
  lemma DivMono(s1: int, s2: int, n: int)
    requires 0 <= s1 <= s2 && 0 < n
    ensures s1 / n <= s2 / n
  {
    DivAbove(s2, n, s1 / n);
  }

  /** The average of the neighbours is black exactly when all four are
      black. */
  lemma Average4Zero(a: uint8, b: uint8, c: uint8, d: uint8)
    ensures Average4(a, b, c, d) == 0 <==> a == b == c == d == 0
  {
    var n := Count(a) + Count(b) + Count(c) + Count(d);
    if n > 0 {
      SumBound(a, b, c, d);
      DivAbove(a as int + b + c + d, n, 1);
    }
  }

  /** A non-zero average of the neighbours lies between the smallest and
      the largest of the non-zero ones. */
  lemma Average4Between(a: uint8, b: uint8, c: uint8, d: uint8, lo: int, hi: int)
    requires a != 0 ==> lo <= a <= hi
    requires b != 0 ==> lo <= b <= hi
    requires c != 0 ==> lo <= c <= hi
    requires d != 0 ==> lo <= d <= hi
    ensures Average4(a, b, c, d) != 0 ==> lo <= Average4(a, b, c, d) <= hi
  {
    var n := Count(a) + Count(b) + Count(c) + Count(d);
    var s := a as int + b + c + d;
    if n > 0 {
      CountBetween(a, lo, hi);
      CountBetween(b, lo, hi);
      CountBetween(c, lo, hi);
      CountBetween(d, lo, hi);
      Distribute(lo, Count(a), Count(b), Count(c), Count(d));
      Distribute(hi, Count(a), Count(b), Count(c), Count(d));
      QuotientBetween(s, n, lo, hi);
    }
  }

  /** A positive sum of n values, each between lo and hi, divided by n. */
  lemma QuotientBetween(s: int, n: int, lo: int, hi: int)
    requires 0 < n && 0 <= s && lo * n <= s <= hi * n
    ensures lo <= s / n <= hi
  {
    if lo > 0 {
      DivAbove(s, n, lo);
    }
    assert (hi + 1) * n == hi * n + n;
    DivBelow(s, n, hi);
  }

  lemma CountBetween(v: int, lo: int, hi: int)
    requires v != 0 ==> lo <= v <= hi
    ensures lo * Count(v) <= v * Count(v) == v <= hi * Count(v)
  {
  }

  lemma Distribute(m: int, p: int, q: int, r: int, t: int)
    ensures m * (p + q + r + t) == m * p + m * q + m * r + m * t
  {
  }

  /** Pixel (x, y) is one the fill loops visit: not on the image's
      one-pixel border. */
  predicate InFill(x: int, y: int, w: int, h: int)
  {
    1 <= x < w - 1 && 1 <= y < h - 1
  }

  /** The fill at pixel k of a row-major image `w` wide: a non-zero pixel
      is kept, a black one becomes the average of its four neighbours. */
  function FillAt(src: seq<uint8>, w: int, k: int): uint8
    requires 1 <= w <= k && k + w < |src|
  {
    if src[k] != 0 then src[k]
    else Average4(src[k - w], src[k - 1], src[k + 1], src[k + w])
  }

  /** One fill pass: it reads `src` and writes the interior of `dst`,
      whose border keeps what it held. */
  function FillPass(src: seq<uint8>, dst: seq<uint8>, w: int, h: int): (r: seq<uint8>)
    requires 1 <= w && 0 <= h && |src| == |dst| == w * h
    ensures |r| == |dst|
  {
    seq(|dst|, k requires 0 <= k < |dst| =>
      if InFill(k % w, k / w, w, h) then (InFillInside(k % w, k / w, w, h); FillAt(src, w, k)) else dst[k])
  }

  lemma InFillInside(x: int, y: int, w: int, h: int)
    requires InFill(x, y, w, h)
    ensures 1 <= w <= Flat(x, y, w) && Flat(x, y, w) + w < w * h
  {
    FlatInside(x, y + 1, w, h);
    assert Flat(x, y + 1, w) == Flat(x, y, w) + w;
    MulMono(1, y, w);
  }

  /** A fill pass at pixel (x, y). */
  lemma FillPassAt(src: seq<uint8>, dst: seq<uint8>, w: int, h: int, x: int, y: int)
    requires 1 <= w && 0 <= h && |src| == |dst| == w * h && 0 <= x < w && 0 <= y < h
    ensures 0 <= Flat(x, y, w) < |dst|
    ensures InFill(x, y, w, h) ==> 1 <= w <= Flat(x, y, w) && Flat(x, y, w) + w < |src|
    ensures FillPass(src, dst, w, h)[Flat(x, y, w)] ==
      if InFill(x, y, w, h) then FillAt(src, w, Flat(x, y, w)) else dst[Flat(x, y, w)]
  {
    RowMajorSplit(y, x, w, h);
    if InFill(x, y, w, h) {
      InFillInside(x, y, w, h);
    }
  }

  /** A fill pass keeps the border of its destination and every non-zero
      interior pixel of its source, and leaves a black interior pixel black
      only when its four neighbours (the pixels at k - w, k - 1, k + 1 and
      k + w) are black as well. */
  lemma FillPassMeaning(src: seq<uint8>, dst: seq<uint8>, w: int, h: int, x: int, y: int)
    requires 1 <= w && 0 <= h && |src| == |dst| == w * h && 0 <= x < w && 0 <= y < h
    ensures 0 <= Flat(x, y, w) < |dst| == |FillPass(src, dst, w, h)|
    ensures InFill(x, y, w, h) ==> 1 <= w <= Flat(x, y, w) && Flat(x, y, w) + w < |src|
    ensures !InFill(x, y, w, h) ==> FillPass(src, dst, w, h)[Flat(x, y, w)] == dst[Flat(x, y, w)]
    ensures InFill(x, y, w, h) && src[Flat(x, y, w)] != 0 ==>
      FillPass(src, dst, w, h)[Flat(x, y, w)] == src[Flat(x, y, w)]
    ensures InFill(x, y, w, h) && src[Flat(x, y, w)] == 0 ==>
      var k := Flat(x, y, w);
      FillPass(src, dst, w, h)[k] == 0 <==> src[k - w] == src[k - 1] == src[k + 1] == src[k + w] == 0
  {
    FillPassAt(src, dst, w, h, x, y);
    if InFill(x, y, w, h) {
      var k := Flat(x, y, w);
      Average4Zero(src[k - w], src[k - 1], src[k + 1], src[k + w]);
    }
  }

  /** The non-zero ones among the four neighbours of pixel k lie in
      [lo, hi]. */
  ghost predicate NeighboursWithin(src: seq<uint8>, w: int, k: int, lo: int, hi: int)
  {
    && 1 <= w <= k && k + w < |src|
    && (src[k - w] != 0 ==> lo <= src[k - w] <= hi)
    && (src[k - 1] != 0 ==> lo <= src[k - 1] <= hi)
    && (src[k + 1] != 0 ==> lo <= src[k + 1] <= hi)
    && (src[k + w] != 0 ==> lo <= src[k + w] <= hi)
  }

  /** A pixel a fill pass fills lies between the smallest and the largest
      of its non-zero neighbours. */
  lemma FillBetween(src: seq<uint8>, dst: seq<uint8>, w: int, h: int, x: int, y: int, lo: int, hi: int)
    requires 1 <= w && 0 <= h && |src| == |dst| == w * h && 0 <= x < w && 0 <= y < h
    requires InFill(x, y, w, h) && NeighboursWithin(src, w, Flat(x, y, w), lo, hi)
    ensures 0 <= Flat(x, y, w) < |dst| == |FillPass(src, dst, w, h)|
    ensures src[Flat(x, y, w)] == 0 && FillPass(src, dst, w, h)[Flat(x, y, w)] != 0 ==>
      lo <= FillPass(src, dst, w, h)[Flat(x, y, w)] <= hi
  {
    FillPassAt(src, dst, w, h, x, y);
    var k := Flat(x, y, w);
    Average4Between(src[k - w], src[k - 1], src[k + 1], src[k + w], lo, hi);
  }

  /** The buffers after `p` passes, starting from `result` and `fill`: each
      pass fills `fill` from `result`, then the two swap. */
  function AfterPasses(result: seq<uint8>, fill: seq<uint8>, w: int, h: int, p: nat): (r: (seq<uint8>, seq<uint8>))
    requires 1 <= w && 0 <= h && |result| == |fill| == w * h
    ensures |r.0| == |r.1| == w * h
  {
    if p == 0 then (result, fill)
    else
      var prev := AfterPasses(result, fill, w, h, p - 1);
      (FillPass(prev.0, prev.1, w, h), prev.0)
  }

  function Zeros(n: nat): (z: seq<uint8>)
  {
    seq(n, _ => 0)
  }

  /** postProcess's image: the checked image after two passes, the first
      writing into a zeroed buffer, the second back into the checked one. */
  function PostProcessed(m1: seq<uint8>, m2: seq<uint8>, w: int, h: int, limit: int): (r: seq<uint8>)
    requires 1 <= w && 0 <= h && |m1| == |m2| == w * h && InBuffer(m1) && 1 <= limit
    ensures |r| == w * h
  {
    AfterPasses(CheckMap(m1, m2, limit), Zeros(w * h), w, h, Passes).0
  }

  /** The returned image holds the checked values on its one-pixel border
      and at every interior pixel the check kept; an interior pixel the
      check blacked out stays black only when all four of its neighbours
      were blacked out too and the first pass left them black. */
  lemma PostProcessedMeaning(m1: seq<uint8>, m2: seq<uint8>, w: int, h: int, limit: int, x: int, y: int)
    requires 1 <= w && 0 <= h && |m1| == |m2| == w * h && InBuffer(m1) && 1 <= limit
    requires 0 <= x < w && 0 <= y < h
    ensures 0 <= Flat(x, y, w) < w * h
    ensures InFill(x, y, w, h) ==> 1 <= w <= Flat(x, y, w) && Flat(x, y, w) + w < w * h
    ensures !InFill(x, y, w, h) ==>
      PostProcessed(m1, m2, w, h, limit)[Flat(x, y, w)] == CheckMap(m1, m2, limit)[Flat(x, y, w)]
    ensures InFill(x, y, w, h) && CheckMap(m1, m2, limit)[Flat(x, y, w)] != 0 ==>
      PostProcessed(m1, m2, w, h, limit)[Flat(x, y, w)] == CheckMap(m1, m2, limit)[Flat(x, y, w)]
    ensures InFill(x, y, w, h) && PostProcessed(m1, m2, w, h, limit)[Flat(x, y, w)] == 0 ==>
      var k, c := Flat(x, y, w), CheckMap(m1, m2, limit);
      var f1 := FillPass(c, Zeros(w * h), w, h);
      && c[k - w] == c[k - 1] == c[k + 1] == c[k + w] == 0
      && f1[k - w] == f1[k - 1] == f1[k + 1] == f1[k + w] == 0
  {
    var c := CheckMap(m1, m2, limit);
    var z := Zeros(w * h);
    var f1 := FillPass(c, z, w, h);
    assert AfterPasses(c, z, w, h, 1) == (f1, c);
    assert PostProcessed(m1, m2, w, h, limit) == FillPass(f1, c, w, h);
    FillPassMeaning(c, z, w, h, x, y);
    FillPassMeaning(f1, c, w, h, x, y);
  }

  /** Every index of a w-by-h image is the flat index of one of its pixels. */
  lemma PixelOf(k: int, w: int, h: int)
    requires 1 <= w && 0 <= k < w * h
    ensures 0 <= k % w < w && 0 <= k / w < h && Flat(k % w, k / w, w) == k
  {
    if k / w >= h {
      MulMono(h, k / w, w);
    }
  }

  /** The left/right check loops of postProcess: every pixel of `result`
      gets its checked value. */
  method CheckMaps(dMap1: array<uint8>, dMap2: array<uint8>, result: array<uint8>, w: nat, h: nat, limit: int)
    requires dMap1.Length == dMap2.Length == result.Length == w * h
    requires result != dMap1 && result != dMap2
    requires InBuffer(dMap1[..]) && 1 <= limit
    modifies result
    ensures result[..] == CheckMap(dMap1[..], dMap2[..], limit)
  {
    ghost var l1, l2 := dMap1[..], dMap2[..];
    var y := 0;
    while y < h
      invariant 0 <= y <= h
      invariant dMap1[..] == l1 && dMap2[..] == l2
      invariant forall k | 0 <= k < Flat(0, y, w) && k < w * h :: result[k] == CheckAt(l1, l2, k, limit)
    {
      var x := 0;
      while x < w
        invariant 0 <= x <= w
        invariant dMap1[..] == l1 && dMap2[..] == l2
        invariant forall k | 0 <= k < Flat(x, y, w) && k < w * h :: result[k] == CheckAt(l1, l2, k, limit)
      {
        FlatInside(x, y, w, h);
        var k := Flat(x, y, w);
        result[k] := CheckPixel(dMap1, dMap2, k, limit);
        var next := x + 1;
        assert Flat(next, y, w) == k + 1;
        x := next;
      }
      var next := y + 1;
      assert Flat(0, next, w) == Flat(x, y, w);
      y := next;
    }
    assert Flat(0, y, w) == w * h;
  }

  /** One pixel of the check loop: the left disparity, the right map's
      disparity at the matched pixel, and the rescaled or blacked-out
      value. */
  method CheckPixel(dMap1: array<uint8>, dMap2: array<uint8>, k: int, limit: int) returns (v: uint8)
    requires 0 <= k < dMap1.Length == dMap2.Length && dMap1[k] <= k && 1 <= limit
    ensures v == CheckAt(dMap1[..], dMap2[..], k, limit)
  {
    var pixelL := dMap1[k];
    var pixelR := dMap2[k - pixelL];
    var diff := Abs(pixelL as int - pixelR);
    if diff > 1 {
      v := 0;
    } else {
      v := Rescale(pixelL, limit);
    }
  }

  /** Pixels of `d` that a fill pass from `src` into `d0` has reached by
      (x, y), in the loops' order, hold the pass's values; the others still
      hold `d0`'s. */
  ghost predicate FilledBefore(d: seq<uint8>, src: seq<uint8>, d0: seq<uint8>, w: int, h: int, y: int, x: int)
    requires 1 <= w && 0 <= h && |src| == |d0| == w * h
  {
    && |d| == w * h
    && forall x', y' | 0 <= x' < w && 0 <= y' < h ::
         0 <= Flat(x', y', w) < w * h &&
         d[Flat(x', y', w)] ==
           if InFill(x', y', w, h) && (y' < y || (y' == y && x' < x))
           then FillPass(src, d0, w, h)[Flat(x', y', w)] else d0[Flat(x', y', w)]
  }

  lemma FillStart(src: seq<uint8>, d0: seq<uint8>, w: int, h: int)
    requires 1 <= w && 0 <= h && |src| == |d0| == w * h
    ensures FilledBefore(d0, src, d0, w, h, 1, 1)
  {
    FlatInsideAll(w, h);
  }

  /** Writing the pass's value at (x, y) moves the frontier one pixel on. */
  lemma FillStep(d: seq<uint8>, src: seq<uint8>, d0: seq<uint8>, w: int, h: int, y: int, x: int, next: int, v: uint8)
    requires 1 <= w && 0 <= h && |src| == |d0| == w * h
    requires FilledBefore(d, src, d0, w, h, y, x) && InFill(x, y, w, h) && next == x + 1
    requires 0 <= Flat(x, y, w) < w * h && v == FillPass(src, d0, w, h)[Flat(x, y, w)]
    ensures FilledBefore(d[Flat(x, y, w) := v], src, d0, w, h, y, next)
  {
    var d' := d[Flat(x, y, w) := v];
    forall x', y' | 0 <= x' < w && 0 <= y' < h && (x', y') != (x, y)
      ensures Flat(x', y', w) != Flat(x, y, w)
    {
      FlatInjective(x', y', x, y, w);
    }
  }

  /** Once the x loop has passed column w - 2, the next row starts. */
  lemma FillRowDone(d: seq<uint8>, src: seq<uint8>, d0: seq<uint8>, w: int, h: int, y: int, x: int, next: int)
    requires 1 <= w && 0 <= h && |src| == |d0| == w * h
    requires FilledBefore(d, src, d0, w, h, y, x) && w - 1 <= x && next == y + 1
    ensures FilledBefore(d, src, d0, w, h, next, 1)
  {
  }

  /** Once the y loop has passed row h - 2, the pass is complete. */
  lemma FillDone(d: seq<uint8>, src: seq<uint8>, d0: seq<uint8>, w: int, h: int, y: int)
    requires 1 <= w && 0 <= h && |src| == |d0| == w * h
    requires FilledBefore(d, src, d0, w, h, y, 1) && h - 1 <= y
    ensures d == FillPass(src, d0, w, h)
  {
    forall k | 0 <= k < w * h ensures d[k] == FillPass(src, d0, w, h)[k] {
      PixelOf(k, w, h);
      FillPassAt(src, d0, w, h, k % w, k / w);
    }
  }

  /** One pass of the fill loops: every interior pixel of `fill` gets the
      fill of the same pixel of `result`; the border of `fill` is left
      alone. */
  method FillImage(result: array<uint8>, fill: array<uint8>, w: nat, h: nat)
    requires 1 <= w && result.Length == fill.Length == w * h && result != fill
    modifies fill
    ensures fill[..] == FillPass(result[..], old(fill[..]), w, h)
  {
    ghost var d0 := fill[..];
    FillStart(result[..], d0, w, h);
    var y := 1;
    while y < h - 1
      invariant 1 <= y && (y <= h - 1 || y == 1)
      invariant FilledBefore(fill[..], result[..], d0, w, h, y, 1)
    {
      FillRow(result, fill, w, h, y, d0);
      var next := y + 1;
      FillRowDone(fill[..], result[..], d0, w, h, y, w - 1, next);
      y := next;
    }
    FillDone(fill[..], result[..], d0, w, h, y);
  }

  /** The x loop of a fill pass over row y. */
  method FillRow(result: array<uint8>, fill: array<uint8>, w: nat, h: nat, y: nat, ghost d0: seq<uint8>)
    requires 1 <= w && result.Length == fill.Length == |d0| == w * h && result != fill
    requires 1 <= y < h - 1 && FilledBefore(fill[..], result[..], d0, w, h, y, 1)
    modifies fill
    ensures FilledBefore(fill[..], result[..], d0, w, h, y, w - 1)
  {
    var x := 1;
    while x < w - 1
      invariant 1 <= x && (x <= w - 1 || x == 1)
      invariant FilledBefore(fill[..], result[..], d0, w, h, y, x)
    {
      FlatInside(x, y, w, h);
      var k := Flat(x, y, w);
      FillPassAt(result[..], d0, w, h, x, y);
      var v: uint8;
      if result[k] == 0 {
        v := NeighbourAverage(result[k - w], result[k - 1], result[k + 1], result[k + w]);
      } else {
        v := result[k];
      }
      ghost var before := fill[..];
      fill[k] := v;
      assert fill[..] == before[k := v];
      FillStep(before, result[..], d0, w, h, y, x, x + 1, v);
      x := x + 1;
    }
  }

  /** The sum and count of the non-zero neighbours, accumulated as the fill
      loop does, and their quotient. */
  method NeighbourAverage(val1: uint8, val2: uint8, val3: uint8, val4: uint8) returns (v: uint8)
    ensures v == Average4(val1, val2, val3, val4)
  {
    var val: int, i: int := 0, 0;
    if val1 != 0 { val, i := val + val1, i + 1; }
    assert val == val1 && i == Count(val1);
    if val2 != 0 { val, i := val + val2, i + 1; }
    assert val == val1 + val2 && i == Count(val1) + Count(val2);
    if val3 != 0 { val, i := val + val3, i + 1; }
    assert val == val1 + val2 + val3 && i == Count(val1) + Count(val2) + Count(val3);
    if val4 != 0 { val, i := val + val4, i + 1; }
    assert val == val1 as int + val2 + val3 + val4;
    assert i == Count(val1) + Count(val2) + Count(val3) + Count(val4);
    SumBound(val1, val2, val3, val4);
    v := if i == 0 then 0 else val / i;
  }

  /** postProcess: the checked image, then two fill passes that swap the
      result and fill buffers; the fill buffer starts zeroed. */
  method PostProcess(dMap1: array<uint8>, dMap2: array<uint8>, w: nat, h: nat, dispLimit: int)
    returns (result: array<uint8>)
    requires 1 <= w && 1 <= h && dMap1.Length == dMap2.Length == w * h
    requires InBuffer(dMap1[..]) && 1 <= dispLimit
    ensures fresh(result)
    ensures result[..] == PostProcessed(dMap1[..], dMap2[..], w, h, dispLimit)
  {
    result := new uint8[w * h];
    CheckMaps(dMap1, dMap2, result, w, h, dispLimit);
    var fill := new uint8[w * h](_ => 0);
    ghost var checked, zeros := result[..], fill[..];
    assert zeros == Zeros(w * h);
    var pass := 0;
    while pass < Passes
      invariant 0 <= pass <= Passes
      invariant fresh(result) && fresh(fill) && result != fill
      invariant result.Length == fill.Length == w * h
      invariant (result[..], fill[..]) == AfterPasses(checked, zeros, w, h, pass)
    {
      FillImage(result, fill, w, h);
      result, fill := fill, result;
      pass := pass + 1;
    }
  }
}
