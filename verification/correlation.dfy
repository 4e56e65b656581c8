/** The zero-mean normalised cross-correlation score of one candidate
    disparity (zncc2way in depthmap_c.c): the dot product of the two
    mean-subtracted blocks over the product of their deviation norms, and
    the unrolled loop that computes it from the two scanline caches. */
module Correlation {
  import opened Common
  import opened Scores
  import opened BlockCache

  /** A matching problem: the two luminance images, the image and block
      dimensions, and the square root the deviations use. */
  datatype Scene = Scene(left: seq<real>, right: seq<real>,
                         w: nat, h: nat, bw: nat, bh: nat, sqrt: real -> real)

  /** Sum of the products of corresponding elements, accumulated from the
      first element on. */
  function Dot(a: seq<real>, b: seq<real>): real
    requires |a| == |b|
  {
    if |a| == 0 then 0.0 else Dot(a[..|a| - 1], b[..|a| - 1]) + a[|a| - 1] * b[|a| - 1]
  }

  /** The products r[j - shift] * l[j] for j from lo up to hi, added in
      that order: the running sum of the dot-product loops over two
      scanline caches. */
  function RunDot(l: seq<real>, r: seq<real>, lo: int, hi: int, shift: int): real
    requires 0 <= shift <= lo <= hi <= |l| && hi - shift <= |r|
    decreases hi - lo
  {
    if hi == lo then 0.0 else RunDot(l, r, lo, hi - 1, shift) + r[hi - 1 - shift] * l[hi - 1]
  }

  lemma RunDotStep(l: seq<real>, r: seq<real>, lo: int, i: int, shift: int)
    requires 0 <= shift <= lo <= i < |l| && i + 1 - shift <= |r|
    ensures RunDot(l, r, lo, i + 1, shift) == RunDot(l, r, lo, i, shift) + r[i - shift] * l[i]
  {
  }

  /** The running sum over the whole run is the dot product of the two
      runs it pairs. */
  lemma {:induction false} RunDotIsDot(l: seq<real>, r: seq<real>, lo: int, hi: int, shift: int)
    requires 0 <= shift <= lo <= hi <= |l| && hi - shift <= |r|
    ensures RunDot(l, r, lo, hi, shift) == Dot(l[lo..hi], r[lo - shift..hi - shift])
    decreases hi - lo
  {
    if hi > lo {
      RunDotIsDot(l, r, lo, hi - 1, shift);
      var a, b := l[lo..hi], r[lo - shift..hi - shift];
      assert a[..|a| - 1] == l[lo..hi - 1];
      assert b[..|a| - 1] == r[lo - shift..hi - 1 - shift];
    }
  }

  /** A block correlated with itself gives its sum of squares. */
  lemma {:induction false} DotSelf(a: seq<real>)
    ensures Dot(a, a) == SquareSum(a)
  {
    if |a| > 0 {
      DotSelf(a[..|a| - 1]);
    }
  }

  /** Correlation is symmetric in its two blocks. */
  lemma {:induction false} DotSymmetric(a: seq<real>, b: seq<real>)
    requires |a| == |b|
    ensures Dot(a, b) == Dot(b, a)
  {
    if |a| > 0 {
      DotSymmetric(a[..|a| - 1], b[..|a| - 1]);
    }
  }

  /** The score of disparity d at block centre x of scanline y: the dot
      product of the two mean-subtracted blocks over the product of their
      deviation norms. */
  function CandidateScore(s: Scene, y: int, x: int, d: int): Score
  {
    BlockScore(BlockSamples(s.left, s.w, y - s.bh / 2, s.bw, s.bh, x),
               BlockSamples(s.right, s.w, y - s.bh / 2, s.bw, s.bh, x - d),
               Deviation(s.left, s.w, y - s.bh / 2, s.bw, s.bh, x, s.sqrt),
               Deviation(s.right, s.w, y - s.bh / 2, s.bw, s.bh, x - d, s.sqrt))
  }

  /** `summed / (deviations_left * deviations_right)` for two blocks. */
  function BlockScore(a: seq<real>, b: seq<real>, devA: real, devB: real): Score
    requires |a| == |b|
  {
    Quotient(Dot(a, b), devA * devB)
  }

  /** A score assembled from the candidate's two blocks, their dot product
      and their two deviation norms is the candidate's score. */
  lemma ScoreOfParts(s: Scene, y: int, x: int, d: int, devA: real, devB: real, sum: real)
    requires sum == Dot(BlockSamples(s.left, s.w, y - s.bh / 2, s.bw, s.bh, x),
                        BlockSamples(s.right, s.w, y - s.bh / 2, s.bw, s.bh, x - d))
    requires devA == Deviation(s.left, s.w, y - s.bh / 2, s.bw, s.bh, x, s.sqrt)
    requires devB == Deviation(s.right, s.w, y - s.bh / 2, s.bw, s.bh, x - d, s.sqrt)
    ensures Quotient(sum, devA * devB) == CandidateScore(s, y, x, d)
  {
    var top := y - s.bh / 2;
    BlockScoreOfDot(BlockSamples(s.left, s.w, top, s.bw, s.bh, x), BlockSamples(s.right, s.w, top, s.bw, s.bh, x - d),
                    devA, devB, sum);
  }

  /** A quotient of a dot product is the score of the two blocks. */
  lemma BlockScoreOfDot(a: seq<real>, b: seq<real>, devA: real, devB: real, sum: real)
    requires |a| == |b| && sum == Dot(a, b)
    ensures Quotient(sum, devA * devB) == BlockScore(a, b, devA, devB)
  {
  }

  /** The score of every candidate (y, x, d) of a scene. */
  function SceneScores(s: Scene): (int, int, int) -> Score
  {
    (y, x, d) => CandidateScore(s, y, x, d)
  }

  /** The unrolled dot-product loop: products of cl[i] and cr[i - shift]
      for i from base to base + n - 1, added into four partial sums four at a
      time while at least four remain, the partial sums combined, and the
      remaining products added one by one. Over exact arithmetic this is the
      plain dot product of the two runs. */
  method DotProduct(cl: array<real>, cr: array<real>, base: nat, n: nat, shift: nat) returns (sum: real)
    requires 3 <= n && shift <= base && base + n <= cl.Length && base - shift + n <= cr.Length
    ensures sum == Dot(cl[base..base + n], cr[base - shift..base - shift + n])
  {
    var i, summed0 := QuadSums(cl, cr, base, n, shift);
    while i < base + n
      invariant base <= i <= base + n
      invariant summed0 == RunDot(cl[..], cr[..], base, i, shift)
    {
      RunDotStep(cl[..], cr[..], base, i, shift);
      var temp1, temp2 := cr[i - shift], cl[i];
      summed0 := summed0 + temp1 * temp2;
      i := i + 1;
    }
    RunDotIsDot(cl[..], cr[..], base, base + n, shift);
    sum := summed0;
  }

  /** The four-way unrolled part of the dot-product loop and the combining
      of its four partial sums: the running sum up to the first of the at
      most three products left over. */
  method QuadSums(cl: array<real>, cr: array<real>, base: nat, n: nat, shift: nat) returns (i: nat, sum: real)
    requires 3 <= n && shift <= base && base + n <= cl.Length && base - shift + n <= cr.Length
    ensures base <= i <= base + n && base + n - 3 <= i
    ensures sum == RunDot(cl[..], cr[..], base, i, shift)
  {
    ghost var l, r := cl[..], cr[..];
    var summed0, summed1, summed2, summed3 := 0.0, 0.0, 0.0, 0.0;
    i := base;
    while i < base + n - 3
      invariant base <= i <= base + n
      invariant summed0 + summed1 + summed2 + summed3 == RunDot(l, r, base, i, shift)
    {
      RunDotStep(l, r, base, i, shift);
      RunDotStep(l, r, base, i + 1, shift);
      RunDotStep(l, r, base, i + 2, shift);
      RunDotStep(l, r, base, i + 3, shift);
      var temp1, temp2 := cr[i - shift], cl[i];
      summed0 := summed0 + temp1 * temp2;
      temp1, temp2 := cr[i + 1 - shift], cl[i + 1];
      summed1 := summed1 + temp1 * temp2;
      temp1, temp2 := cr[i + 2 - shift], cl[i + 2];
      summed2 := summed2 + temp1 * temp2;
      temp1, temp2 := cr[i + 3 - shift], cl[i + 3];
      summed3 := summed3 + temp1 * temp2;
      i := i + 4;
    }
    summed0 := summed0 + summed1;
    summed2 := summed2 + summed3;
    sum := summed0 + summed2;
  }

  /** Where the matcher finds the two blocks of candidate (x, d) and their
      deviation norms in the two scanline caches: the left block in the n
      cells from `base` = (x-bx/2)*bx*by on, the right block `shift` = d*bx*by
      cells earlier, the norms in the tail cells of x and x - d. */
  lemma CachedCandidate(cl: seq<real>, cr: seq<real>, s: Scene, y: int, x: int, d: int,
                        n: int, base: int, shift: int, tail: int)
    requires 1 <= s.bw && 1 <= s.bh
    requires CachedScanline(cl, s.left, s.w, y - s.bh / 2, s.bw, s.bh, s.sqrt)
    requires CachedScanline(cr, s.right, s.w, y - s.bh / 2, s.bw, s.bh, s.sqrt)
    requires s.bw / 2 <= x < s.w - s.bw / 2 && 0 <= d <= x - s.bw / 2
    requires n == s.bw * s.bh && base == (x - s.bw / 2) * s.bw * s.bh && shift == d * n
    requires tail == Tail(s.w, s.bw, s.bh)
    ensures 0 <= shift <= base && base + n <= |cl| && base - shift + n <= |cr|
    ensures 0 <= tail + x - d && tail + x < |cl| == |cr|
    ensures cl[base..base + n] == BlockSamples(s.left, s.w, y - s.bh / 2, s.bw, s.bh, x)
    ensures cr[base - shift..base - shift + n] == BlockSamples(s.right, s.w, y - s.bh / 2, s.bw, s.bh, x - d)
    ensures cl[tail + x] == Deviation(s.left, s.w, y - s.bh / 2, s.bw, s.bh, x, s.sqrt)
    ensures cr[tail + x - d] == Deviation(s.right, s.w, y - s.bh / 2, s.bw, s.bh, x - d, s.sqrt)
  {
    CandidateOffsets(s.bw, s.bh, x, d, n, base, shift);
    CachedBlock(cl, s.left, s.w, y - s.bh / 2, s.bw, s.bh, s.sqrt, x);
    CachedBlock(cr, s.right, s.w, y - s.bh / 2, s.bw, s.bh, s.sqrt, x - d);
  }

  /** The right block of candidate (x, d) starts `d` whole blocks before
      the left one. */
  lemma CandidateOffsets(bw: int, bh: int, x: int, d: int, n: int, base: int, shift: int)
    requires 1 <= bw && 1 <= bh && 0 <= d <= x - bw / 2
    requires n == bw * bh && base == (x - bw / 2) * bw * bh && shift == d * n
    ensures 0 <= shift <= base
    ensures base == (x - bw / 2) * n && base - shift == (x - d - bw / 2) * n
  {
    MulMono(d, x - bw / 2, n);
    MulMono(0, d, n);
    MulAssoc(x - bw / 2, bw, bh);
  }

  /** One candidate's score from the two scanline caches, the body of the
      `d` loop up to `val`: the right block's deviation norm is read from the
      tail, the unrolled dot product of the two blocks is divided by the
      product of the two norms (`devL` is the left one, read once per block
      centre). */
  method ScoreCandidate(cl: array<real>, cr: array<real>, ghost s: Scene, w: nat, bw: nat, bh: nat,
                        y: nat, x: nat, d: nat, tail: nat, devL: real) returns (val: Score)
    requires s.w == w && s.bw == bw && s.bh == bh && 1 <= bw && 1 <= bh && 3 <= bw * bh
    requires CachedScanline(cl[..], s.left, w, y - bh / 2, bw, bh, s.sqrt)
    requires CachedScanline(cr[..], s.right, w, y - bh / 2, bw, bh, s.sqrt)
    requires bw / 2 <= x < w - bw / 2 && d <= x - bw / 2
    requires tail == Tail(w, bw, bh) && tail + x < cl.Length && devL == cl[tail + x]
    ensures val == CandidateScore(s, y, x, d)
  {
    var n := bw * bh;
    var base := (x - bw / 2) * bw * bh;
    var shift := d * n;
    ghost var lc, rc := cl[..], cr[..];
    CachedCandidate(lc, rc, s, y, x, d, n, base, shift, tail);
    ghost var a, b := lc[base..base + n], rc[base - shift..base - shift + n];
    assert a == cl[base..base + n] && b == cr[base - shift..base - shift + n];
    var devR := cr[tail + x - d];
    assert devL == lc[tail + x] && devR == rc[tail + x - d];
    var sum := DotProduct(cl, cr, base, n, shift);
    val := Quotient(sum, devL * devR);
    ScoreOfParts(s, y, x, d, devL, devR, sum);
  }
}
