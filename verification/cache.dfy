/** The per-scanline block cache (scanline_cacheBlkData in depthmap_c.c).
    For every block centre x of a scanline it holds the bw*bh samples of the
    block around x minus the block mean, serialised block after block, and
    in a tail region past them the block's deviation norm. */
module BlockCache {
  import opened Common

  /** Sum of column x over the `n` rows starting at `top`. */
  function ColumnSum(img: seq<real>, w: int, x: int, top: int, n: nat): real
  {
    if n == 0 then 0.0 else ColumnSum(img, w, x, top, n - 1) + Lum(img, Flat(x, top + n - 1, w))
  }

  /** Sum of the column sums of the `n` columns starting at x0. */
  function WindowSum(img: seq<real>, w: int, x0: int, top: int, bh: nat, n: nat): real
  {
    if n == 0 then 0.0 else WindowSum(img, w, x0, top, bh, n - 1) + ColumnSum(img, w, x0 + n - 1, top, bh)
  }

  /** `1.0f/(float)(bx*by)`. */
  function Recip(n: int): real
  {
    if n == 0 then 0.0 else 1.0 / n as real
  }

  /** Mean of the bw-by-bh block centred on column x whose first row is `top`. */
  function BlockMean(img: seq<real>, w: int, top: int, bw: nat, bh: nat, x: int): real
  {
    WindowSum(img, w, x - bw / 2, top, bh, bw) * Recip(bw * bh)
  }

  /** The block's samples in row-major order, each minus the block mean. */
  function BlockSamples(img: seq<real>, w: int, top: int, bw: nat, bh: nat, x: int): (s: seq<real>)
    ensures |s| == bw * bh
  {
    seq(bw * bh, k requires 0 <= k < bw * bh =>
      Lum(img, Flat(x - bw / 2 + k % bw, top + k / bw, w)) - BlockMean(img, w, top, bw, bh, x))
  }

  /** Sum of squares, accumulated from the first element on. */
  function SquareSum(a: seq<real>): real
  {
    if |a| == 0 then 0.0 else SquareSum(a[..|a| - 1]) + a[|a| - 1] * a[|a| - 1]
  }

  lemma SquareSumStep(a: seq<real>, k: int)
    requires 0 <= k < |a|
    ensures SquareSum(a[..k + 1]) == SquareSum(a[..k]) + a[k] * a[k]
  {
    assert a[..k + 1][..k] == a[..k];
    assert a[..k + 1][k] == a[k];
  }

  /** The deviation norm of the block: the square root of its squared
      deviations from the mean. `sqrt` stands for `sqrtf`. */
  function Deviation(img: seq<real>, w: int, top: int, bw: nat, bh: nat, x: int, sqrt: real -> real): real
  {
    sqrt(SquareSum(BlockSamples(img, w, top, bw, bh, x)))
  }

  /** Start of the tail region: `(width-(bx-1))*bx*by`, one slot of bw*bh
      samples per possible block position. */
  function Tail(w: int, bw: int, bh: int): int
  {
    (w - (bw - 1)) * (bw * bh)
  }

  /** Number of cells the cache needs. */
  function CacheSize(w: int, bw: int, bh: int): int
  {
    Tail(w, bw, bh) + w
  }

  /** Where sample k of the block centred on column x is serialised. */
  function SampleSlot(bw: int, bh: int, x: int, k: int): int
  {
    Slot(x - bw / 2, k, bw * bh)
  }

  /** The tail region starts past the column sums, so the block means
      stored there never overwrite a column sum that is still to be read. */
  lemma TailPastColumnSums(w: int, bw: int, bh: int)
    requires 1 <= bw <= w && 1 <= bh
    ensures w <= Tail(w, bw, bh)
  {
    MulMono(1, bh, bw);
    assert bw * bh == bh * bw;
    MulMono(bw, bw * bh, w - (bw - 1));
    assert (w - (bw - 1)) * bw - w == (bw - 1) * (w - bw);
    MulMono(0, w - bw, bw - 1);
  }

  /** A block at most one column wider than the image leaves room for the
      column sums: the tail region has a non-negative start. */
  lemma CacheHoldsColumnSums(w: int, bw: int, bh: int)
    requires 0 <= bw <= w + 1 && 0 <= bh
    ensures 0 <= Tail(w, bw, bh) && w <= CacheSize(w, bw, bh)
  {
    MulMono(0, bh, bw);
    MulMono(0, bw * bh, w - (bw - 1));
  }

  /** Every sample slot of every block centre lies below the tail region,
      so samples never overwrite a block mean or deviation. */
  lemma SampleSlotBelowTail(w: int, bw: int, bh: int, x: int, k: int)
    requires 1 <= bw && 0 <= k < bw * bh && bw / 2 <= x < w - bw / 2
    ensures 0 <= SampleSlot(bw, bh, x, k) < Tail(w, bw, bh)
  {
    SlotBelow(x - bw / 2, k, bw * bh, w - (bw - 1));
    MulMono(0, x - bw / 2, bw * bh);
  }

  /** The slots of the block centred on x form the run of bw*bh cells from
      `(x-bw/2)*bx*by` on, below the tail region. */
  lemma BlockBase(w: int, bw: int, bh: int, x: int)
    requires 1 <= bw && 1 <= bh && bw / 2 <= x < w - bw / 2
    ensures var base := (x - bw / 2) * bw * bh;
      && base == Slot(x - bw / 2, 0, bw * bh)
      && base + bw * bh == Slot(x - bw / 2, bw * bh, bw * bh)
      && 0 <= base && base + bw * bh <= Tail(w, bw, bh)
      && forall k | 0 <= k < bw * bh :: SampleSlot(bw, bh, x, k) == base + k
  {
    MulAssoc(x - bw / 2, bw, bh);
    SampleSlotBelowTail(w, bw, bh, x, bw * bh - 1);
  }

  /** Different block centres, or different samples of one block, occupy
      different slots. */
  lemma SlotsDisjoint(b1: int, k1: int, b2: int, k2: int, n: int)
    requires 0 <= k1 < n && 0 <= k2 < n && (b1, k1) != (b2, k2)
    ensures Slot(b1, k1, n) != Slot(b2, k2, n)
  {
    if b1 < b2 {
      SlotBelow(b1, k1, n, b2);
      MulMono(0, k2, 1);
    } else if b2 < b1 {
      SlotBelow(b2, k2, n, b1);
    }
  }

  /** Sample (xx, yy) of the block around x is slot yy*bw + xx of its
      serialised samples: the pixel in column x - bw/2 + xx of row top + yy,
      minus the block mean. */
  lemma SampleAt(img: seq<real>, w: nat, h: nat, top: nat, bw: nat, bh: nat, x: nat, yy: nat, xx: nat)
    requires |img| == w * h && top + bh <= h && 1 <= bw && bw / 2 <= x < w - bw / 2
    requires yy < bh && xx < bw
    ensures 0 <= yy * bw + xx < bw * bh
    ensures 0 <= Flat(x - bw / 2 + xx, top + yy, w) < |img|
    ensures BlockSamples(img, w, top, bw, bh, x)[yy * bw + xx] ==
      img[Flat(x - bw / 2 + xx, top + yy, w)] - BlockMean(img, w, top, bw, bh, x)
  {
    RowMajorSplit(yy, xx, bw, bh);
    FlatInside(x - bw / 2 + xx, top + yy, w, h);
  }

  /** Row yy of the block around x: samples yy*bw .. yy*bw+bw-1 are the bw
      pixels from flat index (top+yy)*w + x - bw/2 on, minus the mean. */
  lemma RowOfBlock(img: seq<real>, w: nat, h: nat, top: nat, bw: nat, bh: nat, x: nat, yy: nat)
    requires |img| == w * h && top + bh <= h && 1 <= bw && bw / 2 <= x < w - bw / 2 && yy < bh
    ensures var rowStart := (top + yy) * w + (x - bw / 2);
      && 0 <= rowStart && rowStart + bw <= |img|
      && yy * bw + bw <= bw * bh
      && forall k' | yy * bw <= k' < yy * bw + bw ::
           BlockSamples(img, w, top, bw, bh, x)[k'] == img[rowStart + (k' - yy * bw)] - BlockMean(img, w, top, bw, bh, x)
  {
    var rowStart := (top + yy) * w + (x - bw / 2);
    RowBounds(w, h, top, bw, bh, x, yy);
    forall k' | yy * bw <= k' < yy * bw + bw
      ensures BlockSamples(img, w, top, bw, bh, x)[k'] == img[rowStart + (k' - yy * bw)] - BlockMean(img, w, top, bw, bh, x)
    {
      SampleAt(img, w, h, top, bw, bh, x, yy, k' - yy * bw);
    }
  }

  /** Row yy of the block around x lies inside the image, and its samples
      inside the block. */
  lemma RowBounds(w: nat, h: nat, top: nat, bw: nat, bh: nat, x: nat, yy: nat)
    requires top + bh <= h && 1 <= bw && bw / 2 <= x < w - bw / 2 && yy < bh
    ensures 0 <= (top + yy) * w + (x - bw / 2) && (top + yy) * w + (x - bw / 2) + bw <= w * h
    ensures yy * bw + bw <= bw * bh
  {
    FlatInside(x - bw / 2 + bw - 1, top + yy, w, h);
    MulMono(0, top + yy, w);
    MulMono(yy + 1, bh, bw);
    assert bh * bw == bw * bh;
  }

  /** The cache after phases one and two: the first `w` cells hold the
      column sums of the bh rows starting at `top`. */
  ghost predicate HoldsColumnSums(c: seq<real>, img: seq<real>, w: int, top: int, bh: nat)
  {
    w <= |c| && forall x | 0 <= x < w :: c[x] == ColumnSum(img, w, x, top, bh)
  }

  /** memset and the column-sum loops: the first `width` cells become the
      column sums over rows top .. top+bh-1; the rest is untouched. */
  method SumColumns(img: array<real>, cache: array<real>, w: nat, h: nat, top: nat, bh: nat)
    requires img.Length == w * h && top + bh <= h && w <= cache.Length && img != cache
    modifies cache
    ensures HoldsColumnSums(cache[..], img[..], w, top, bh)
    ensures forall j | w <= j < cache.Length :: cache[j] == old(cache[j])
  {
    var x := 0;
    while x < w
      invariant 0 <= x <= w
      invariant forall x' | 0 <= x' < x :: cache[x'] == 0.0
      invariant forall j | w <= j < cache.Length :: cache[j] == old(cache[j])
    {
      cache[x] := 0.0;
      x := x + 1;
    }
    var y := top;
    while y < top + bh
      invariant top <= y <= top + bh
      invariant forall x' | 0 <= x' < w :: cache[x'] == ColumnSum(img[..], w, x', top, y - top)
      invariant forall j | w <= j < cache.Length :: cache[j] == old(cache[j])
    {
      SumRow(img, cache, w, h, top, y);
      y := y + 1;
    }
  }

  /** The `x` loop adding row y to every column sum. */
  method SumRow(img: array<real>, cache: array<real>, w: nat, h: nat, top: nat, y: nat)
    requires img.Length == w * h && top <= y < h && w <= cache.Length && img != cache
    requires forall x' | 0 <= x' < w :: cache[x'] == ColumnSum(img[..], w, x', top, y - top)
    modifies cache
    ensures forall x' | 0 <= x' < w :: cache[x'] == ColumnSum(img[..], w, x', top, y + 1 - top)
    ensures forall j | w <= j < cache.Length :: cache[j] == old(cache[j])
  {
    var x := 0;
    while x < w
      invariant 0 <= x <= w
      invariant forall x' | 0 <= x' < x :: cache[x'] == ColumnSum(img[..], w, x', top, y + 1 - top)
      invariant forall x' | x <= x' < w :: cache[x'] == ColumnSum(img[..], w, x', top, y - top)
      invariant forall j | w <= j < cache.Length :: cache[j] == old(cache[j])
    {
      FlatInside(x, y, w, h);
      assert ColumnSum(img[..], w, x, top, y + 1 - top) == ColumnSum(img[..], w, x, top, y - top) + img[Flat(x, y, w)];
      cache[x] := cache[x] + img[Flat(x, y, w)];
      x := x + 1;
    }
  }

  /** The `i` loop adding up the column sums of one block. */
  method SumWindow(cache: array<real>, ghost img: seq<real>, w: nat, top: nat, bh: nat, x0: nat, n: nat)
      returns (sum: real)
    requires x0 + n <= w && HoldsColumnSums(cache[..], img, w, top, bh)
    ensures sum == WindowSum(img, w, x0, top, bh, n)
  {
    sum := 0.0;
    var i := 0;
    while i < n
      invariant 0 <= i <= n
      invariant sum == WindowSum(img, w, x0, top, bh, i)
    {
      sum := sum + cache[x0 + i];
      i := i + 1;
    }
  }

  /** The mean loop: the tail cell of every block centre gets the block
      mean; every other cell is untouched. `tail` is the start of the tail
      region, `Tail(w, bw, bh)`. */
  method StoreBlockMeans(img: array<real>, cache: array<real>, w: nat, top: nat, bw: nat, bh: nat, tail: nat)
    requires w <= tail && cache.Length == tail + w && img != cache
    requires HoldsColumnSums(cache[..], img[..], w, top, bh)
    modifies cache
    ensures forall x | bw / 2 <= x < w - bw / 2 :: cache[tail + x] == BlockMean(img[..], w, top, bw, bh, x)
    ensures forall j | 0 <= j < cache.Length && !(tail + bw / 2 <= j < tail + w - bw / 2) ::
      cache[j] == old(cache[j])
  {
    var rcp := Recip(bw * bh);
    var x := bw / 2;
    while x < w - bw / 2
      invariant bw / 2 <= x && (x <= w - bw / 2 || x == bw / 2)
      invariant HoldsColumnSums(cache[..], img[..], w, top, bh)
      invariant forall x' | bw / 2 <= x' < x :: cache[tail + x'] == BlockMean(img[..], w, top, bw, bh, x')
      invariant forall j | 0 <= j < cache.Length && !(tail + bw / 2 <= j < tail + x) :: cache[j] == old(cache[j])
    {
      var mean := SumWindow(cache, img[..], w, top, bh, x - bw / 2, bw);
      ghost var before := cache[..];
      cache[tail + x] := mean * rcp;
      assert cache[tail + x] == BlockMean(img[..], w, top, bw, bh, x);
      assert forall j | 0 <= j < cache.Length && j != tail + x :: cache[j] == before[j];
      assert HoldsColumnSums(cache[..], img[..], w, top, bh);
      x := x + 1;
    }
  }

  /** The `y`/`x` loops for block centre x: its samples minus `mean`, written
      to its slots, and the sum of their squares. Only those slots change. */
  method SerialiseBlock(img: array<real>, cache: array<real>, w: nat, h: nat, top: nat, bw: nat, bh: nat,
                        x: nat, mean: real) returns (squares: real)
    requires img.Length == w * h && top + bh <= h && 1 <= bw && 1 <= bh && bw / 2 <= x < w - bw / 2
    requires cache.Length == CacheSize(w, bw, bh) && img != cache
    requires mean == BlockMean(img[..], w, top, bw, bh, x)
    modifies cache
    ensures forall k | 0 <= k < bw * bh ::
      0 <= SampleSlot(bw, bh, x, k) < cache.Length &&
      cache[SampleSlot(bw, bh, x, k)] == BlockSamples(img[..], w, top, bw, bh, x)[k]
    ensures squares == SquareSum(BlockSamples(img[..], w, top, bw, bh, x))
    ensures forall j | 0 <= j < cache.Length &&
      !(Slot(x - bw / 2, 0, bw * bh) <= j < Slot(x - bw / 2, bw * bh, bw * bh)) :: cache[j] == old(cache[j])
  {
    ghost var s := BlockSamples(img[..], w, top, bw, bh, x);
    ghost var n := bw * bh;
    var b := x - bw / 2;
    var base := (x - bw / 2) * bw * bh;
    BlockBase(w, bw, bh, x);
    squares := 0.0;
    var k := 0;
    var yy := 0;
    while yy < bh
      invariant 0 <= yy <= bh && k == yy * bw && k <= n
      invariant squares == SquareSum(s[..k])
      invariant forall k' | 0 <= k' < k :: cache[base + k'] == s[k']
      invariant forall j | 0 <= j < cache.Length && !(base <= j < base + n) :: cache[j] == old(cache[j])
    {
      RowOfBlock(img[..], w, h, top, bw, bh, x, yy);
      var rowStart := (top + yy) * w + b;
      squares := SerialiseRow(img, cache, bw, mean, s, base, k, rowStart, squares);
      assert (yy + 1) * bw == k + bw;
      k := k + bw;
      yy := yy + 1;
    }
    assert k == n by {
      assert bh * bw == bw * bh;
    }
    assert s[..n] == s;
  }

  /** The `x` loop for one row of a block: samples k0 .. k0+bw-1, which are
      the pixels from `rowStart` on minus `mean`, go to the cells from
      base + k0 on, and their squares are added to the running sum. Only
      those cells change. */
  method SerialiseRow(img: array<real>, cache: array<real>, bw: nat, mean: real, ghost s: seq<real>,
                      base: nat, k0: nat, rowStart: nat, squares0: real) returns (squares: real)
    requires img != cache && k0 + bw <= |s| && base + |s| <= cache.Length
    requires rowStart + bw <= img.Length
    requires forall k' | k0 <= k' < k0 + bw :: s[k'] == img[rowStart + (k' - k0)] - mean
    requires squares0 == SquareSum(s[..k0])
    modifies cache
    ensures squares == SquareSum(s[..k0 + bw])
    ensures forall k' | k0 <= k' < k0 + bw :: cache[base + k'] == s[k']
    ensures forall j | 0 <= j < cache.Length && !(base + k0 <= j < base + k0 + bw) :: cache[j] == old(cache[j])
  {
    squares := squares0;
    var xx := 0;
    while xx < bw
      invariant 0 <= xx <= bw
      invariant squares == SquareSum(s[..k0 + xx])
      invariant forall k' | k0 <= k' < k0 + xx :: cache[base + k'] == s[k']
      invariant forall j | 0 <= j < cache.Length && !(base + k0 <= j < base + k0 + xx) :: cache[j] == old(cache[j])
    {
      assert s[k0 + xx] == img[rowStart + xx] - mean;
      var subtracted := img[rowStart + xx] - mean;
      cache[base + (k0 + xx)] := subtracted;
      SquareSumStep(s, k0 + xx);
      squares := squares + subtracted * subtracted;
      xx := xx + 1;
    }
  }

  /** The samples of the block around x sit in its slots. */
  ghost predicate BlockCached(c: seq<real>, img: seq<real>, w: int, top: int, bw: nat, bh: nat, x: int)
  {
    0 < bw &&
    forall k | 0 <= k < bw * bh ::
      0 <= SampleSlot(bw, bh, x, k) < |c| && c[SampleSlot(bw, bh, x, k)] == BlockSamples(img, w, top, bw, bh, x)[k]
  }

  /** A cached block is the run of bw*bh cells from its first slot on. */
  lemma CachedRun(c: seq<real>, img: seq<real>, w: int, top: int, bw: nat, bh: nat, x: int)
    requires BlockCached(c, img, w, top, bw, bh, x)
    ensures var b := SampleSlot(bw, bh, x, 0);
      0 <= b && b + bw * bh <= |c| && c[b..b + bw * bh] == BlockSamples(img, w, top, bw, bh, x)
  {
    var b := SampleSlot(bw, bh, x, 0);
    var n := bw * bh;
    assert forall k | 0 <= k < n :: SampleSlot(bw, bh, x, k) == b + k;
    assert 0 <= SampleSlot(bw, bh, x, 0) && SampleSlot(bw, bh, x, n - 1) < |c|;
    assert c[b..b + n] == BlockSamples(img, w, top, bw, bh, x);
  }

  /** The finished cache of a scanline whose blocks start at row `top`,
      centre by centre: every block centre's samples in its slots and its
      deviation norm in its tail cell. */
  ghost predicate CacheFilled(c: seq<real>, img: seq<real>, w: int, top: int, bw: nat, bh: nat, sqrt: real -> real)
  {
    && 0 < bw
    && |c| == CacheSize(w, bw, bh)
    && forall x | bw / 2 <= x < w - bw / 2 ::
         BlockCached(c, img, w, top, bw, bh, x) &&
         0 <= Tail(w, bw, bh) + x < |c| && c[Tail(w, bw, bh) + x] == Deviation(img, w, top, bw, bh, x, sqrt)
  }

  /** Number of block centres on a scanline, bw/2 <= x < w - bw/2. */
  function Centres(w: int, bw: int): nat
  {
    if bw / 2 < w - bw / 2 then w - bw / 2 - bw / 2 else 0
  }

  /** The blocks of a scanline, in the order of their centres. */
  function ScanlineBlocks(img: seq<real>, w: int, top: int, bw: nat, bh: nat): (b: seq<seq<real>>)
    ensures |b| == Centres(w, bw)
  {
    seq(Centres(w, bw), i => BlockSamples(img, w, top, bw, bh, bw / 2 + i))
  }

  /** The deviation norms of the blocks of a scanline. */
  function ScanlineDeviations(img: seq<real>, w: int, top: int, bw: nat, bh: nat, sqrt: real -> real): (d: seq<real>)
    ensures |d| == Centres(w, bw)
  {
    seq(Centres(w, bw), i => Deviation(img, w, top, bw, bh, bw / 2 + i, sqrt))
  }

  /** The runs of bw*bh cells a cache holds, one per block centre
      (empty where a run would not fit). */
  function CachedBlocks(c: seq<real>, w: int, bw: nat, bh: nat): (b: seq<seq<real>>)
    ensures |b| == Centres(w, bw)
  {
    seq(Centres(w, bw), i =>
      if 0 <= i * (bw * bh) && i * (bw * bh) + bw * bh <= |c| then c[i * (bw * bh)..i * (bw * bh) + bw * bh] else [])
  }

  /** The tail cells of the block centres (0 where a cell would not fit). */
  function CachedDeviations(c: seq<real>, w: int, bw: nat, bh: nat): (d: seq<real>)
    ensures |d| == Centres(w, bw)
  {
    seq(Centres(w, bw), i => var k := Tail(w, bw, bh) + bw / 2 + i; if 0 <= k < |c| then c[k] else 0.0)
  }

  /** The finished cache of a scanline whose blocks start at row `top`, as
      a whole: its runs are the scanline's blocks and its tail cells their
      deviation norms. */
  ghost predicate CachedScanline(c: seq<real>, img: seq<real>, w: int, top: int, bw: nat, bh: nat, sqrt: real -> real)
  {
    && 0 < bw
    && |c| == CacheSize(w, bw, bh)
    && CachedBlocks(c, w, bw, bh) == ScanlineBlocks(img, w, top, bw, bh)
    && CachedDeviations(c, w, bw, bh) == ScanlineDeviations(img, w, top, bw, bh, sqrt)
  }

  /** A cache filled centre by centre is the finished cache. */
  lemma FilledIsCached(c: seq<real>, img: seq<real>, w: int, top: int, bw: nat, bh: nat, sqrt: real -> real)
    requires CacheFilled(c, img, w, top, bw, bh, sqrt)
    ensures CachedScanline(c, img, w, top, bw, bh, sqrt)
  {
    var blocks, devs := CachedBlocks(c, w, bw, bh), CachedDeviations(c, w, bw, bh);
    forall i | 0 <= i < Centres(w, bw)
      ensures blocks[i] == BlockSamples(img, w, top, bw, bh, bw / 2 + i)
      ensures devs[i] == Deviation(img, w, top, bw, bh, bw / 2 + i, sqrt)
    {
      FilledCentre(c, img, w, top, bw, bh, sqrt, i);
    }
    assert blocks == ScanlineBlocks(img, w, top, bw, bh);
    assert devs == ScanlineDeviations(img, w, top, bw, bh, sqrt);
  }

  /** FilledIsCached at the i-th block centre. */
  lemma FilledCentre(c: seq<real>, img: seq<real>, w: int, top: int, bw: nat, bh: nat, sqrt: real -> real, i: int)
    requires CacheFilled(c, img, w, top, bw, bh, sqrt) && 0 <= i < Centres(w, bw)
    ensures CachedBlocks(c, w, bw, bh)[i] == BlockSamples(img, w, top, bw, bh, bw / 2 + i)
    ensures CachedDeviations(c, w, bw, bh)[i] == Deviation(img, w, top, bw, bh, bw / 2 + i, sqrt)
  {
    var x := bw / 2 + i;
    assert BlockCached(c, img, w, top, bw, bh, x);
    CachedRun(c, img, w, top, bw, bh, x);
    assert SampleSlot(bw, bh, x, 0) == i * (bw * bh);
  }

  /** What the finished cache holds for block centre x: its samples in the
      run of bw*bh cells from (x - bw/2)*bw*bh on, its norm in tail cell x. */
  lemma CachedBlock(c: seq<real>, img: seq<real>, w: int, top: int, bw: nat, bh: nat,
                    sqrt: real -> real, x: int)
    requires 1 <= bh && CachedScanline(c, img, w, top, bw, bh, sqrt) && bw / 2 <= x < w - bw / 2
    ensures var b := (x - bw / 2) * (bw * bh);
      0 <= b && b + bw * bh <= |c| && c[b..b + bw * bh] == BlockSamples(img, w, top, bw, bh, x)
    ensures 0 <= Tail(w, bw, bh) + x < |c| && c[Tail(w, bw, bh) + x] == Deviation(img, w, top, bw, bh, x, sqrt)
  {
    var i, n := x - bw / 2, bw * bh;
    MulMono(1, bw, bh);
    MulMono(0, i, n);
    var run := CachedBlocks(c, w, bw, bh)[i];
    assert run == ScanlineBlocks(img, w, top, bw, bh)[i] == BlockSamples(img, w, top, bw, bh, x);
    assert |run| == n >= 1;
    assert i * n + n <= |c| && run == c[i * n..i * n + n];
    assert 0 <= Tail(w, bw, bh) by {
      TailPastColumnSums(w, bw, bh);
    }
    assert CachedDeviations(c, w, bw, bh)[i] == ScanlineDeviations(img, w, top, bw, bh, sqrt)[i];
  }

  /** Serialising block centre x leaves the blocks of earlier centres alone. */
  lemma EarlierBlocksKept(c0: seq<real>, c1: seq<real>, img: seq<real>, w: int, top: int, bw: nat, bh: nat, lo: int, x: int)
    requires 0 < bw && bw / 2 <= lo && |c0| == |c1|
    requires forall j | 0 <= j < |c0| && !(Slot(x - bw / 2, 0, bw * bh) <= j < Slot(x - bw / 2, bw * bh, bw * bh)) ::
      c1[j] == c0[j]
    requires forall x' | lo <= x' < x :: BlockCached(c0, img, w, top, bw, bh, x')
    ensures forall x' | lo <= x' < x :: BlockCached(c1, img, w, top, bw, bh, x')
  {
    forall x', k | lo <= x' < x && 0 <= k < bw * bh
      ensures 0 <= SampleSlot(bw, bh, x', k) < |c1|
      ensures c1[SampleSlot(bw, bh, x', k)] == BlockSamples(img, w, top, bw, bh, x')[k]
    {
      assert BlockCached(c0, img, w, top, bw, bh, x');
      assert BlockSamples(img, w, top, bw, bh, x')[k] == c0[SampleSlot(bw, bh, x', k)];
      SlotBelow(x' - bw / 2, k, bw * bh, x - bw / 2);
    }
  }

  /** Writing tail cells leaves every block's samples where they were. */
  lemma TailWriteKeepsBlocks(c0: seq<real>, c1: seq<real>, img: seq<real>, w: int, top: int, bw: nat, bh: nat,
                             lo: int, hi: int)
    requires 1 <= bw && bw / 2 <= lo && hi <= w - bw / 2 && |c0| == |c1|
    requires forall j | 0 <= j < Tail(w, bw, bh) && j < |c0| :: c1[j] == c0[j]
    requires forall x' | lo <= x' < hi :: BlockCached(c0, img, w, top, bw, bh, x')
    ensures forall x' | lo <= x' < hi :: BlockCached(c1, img, w, top, bw, bh, x')
  {
    forall x', k | lo <= x' < hi && 0 <= k < bw * bh
      ensures 0 <= SampleSlot(bw, bh, x', k) < |c1|
      ensures c1[SampleSlot(bw, bh, x', k)] == BlockSamples(img, w, top, bw, bh, x')[k]
    {
      assert BlockCached(c0, img, w, top, bw, bh, x');
      SampleSlotBelowTail(w, bw, bh, x', k);
    }
  }

  /** scanline_cacheBlkData: the cache of scanline `scanline` of a w-by-h
      image, with blocks of bw columns and bh (odd) rows centred on it. */
  method CacheBlockData(img: array<real>, scanline: nat, cache: array<real>, w: nat, h: nat, bw: nat, bh: nat,
                        sqrt: real -> real)
    requires img.Length == w * h && img != cache
    requires 1 <= bw <= w + 1 && bh % 2 == 1 && bh / 2 <= scanline && scanline + bh / 2 < h
    requires cache.Length == CacheSize(w, bw, bh)
    modifies cache
    ensures CachedScanline(cache[..], img[..], w, scanline - bh / 2, bw, bh, sqrt)
  {
    var top := scanline - bh / 2;
    assert top + bh <= h;
    if bw <= w {
      CacheCentres(img, cache, w, h, top, bw, bh, sqrt);
    } else {
      CacheColumnSums(img, cache, w, h, top, bw, bh, sqrt);
    }
  }

  /** scanline_cacheBlkData for a block one column wider than the image:
      the cache is just the w column sums, and the mean and serialisation
      loops have no centre to visit. */
  method CacheColumnSums(img: array<real>, cache: array<real>, w: nat, h: nat, top: nat, bw: nat, bh: nat,
                         sqrt: real -> real)
    requires img.Length == w * h && img != cache && top + bh <= h && bw == w + 1
    requires cache.Length == CacheSize(w, bw, bh)
    modifies cache
    ensures CachedScanline(cache[..], img[..], w, top, bw, bh, sqrt)
  {
    assert Tail(w, bw, bh) == 0;
    SumColumns(img, cache, w, h, top, bh);
    NoCentreIsCached(cache[..], img[..], w, top, bw, bh, sqrt);
  }

  /** With a block one column wider than the image there is no block to
      cache. */
  lemma NoCentreIsCached(c: seq<real>, img: seq<real>, w: nat, top: int, bw: nat, bh: nat, sqrt: real -> real)
    requires bw == w + 1 && |c| == CacheSize(w, bw, bh)
    ensures CachedScanline(c, img, w, top, bw, bh, sqrt)
  {
    assert Centres(w, bw) == 0;
  }

  /** scanline_cacheBlkData for a block that fits the image: the column
      sums below the tail region, then the means and the serialised
      blocks. */
  method CacheCentres(img: array<real>, cache: array<real>, w: nat, h: nat, top: nat, bw: nat, bh: nat,
                      sqrt: real -> real)
    requires img.Length == w * h && img != cache && top + bh <= h && 1 <= bw <= w && 1 <= bh
    requires cache.Length == CacheSize(w, bw, bh)
    modifies cache
    ensures CachedScanline(cache[..], img[..], w, top, bw, bh, sqrt)
  {
    var tail := Tail(w, bw, bh);
    assert w <= tail by {
      TailPastColumnSums(w, bw, bh);
    }
    FillCache(img, cache, w, h, top, bw, bh, tail, sqrt);
    FilledIsCached(cache[..], img[..], w, top, bw, bh, sqrt);
  }

  /** The three phases of scanline_cacheBlkData once the first block row
      `top` and the start of the tail region `tail` are known. */
  method FillCache(img: array<real>, cache: array<real>, w: nat, h: nat, top: nat, bw: nat, bh: nat,
                   tail: nat, sqrt: real -> real)
    requires img.Length == w * h && img != cache && top + bh <= h && 1 <= bw <= w && 1 <= bh
    requires tail == Tail(w, bw, bh) && w <= tail && cache.Length == tail + w
    modifies cache
    ensures forall j | tail <= j < cache.Length && !(tail + bw / 2 <= j < tail + w - bw / 2) :: cache[j] == old(cache[j])
    ensures CacheFilled(cache[..], img[..], w, top, bw, bh, sqrt)
  {
    SumColumns(img, cache, w, h, top, bh);
    ghost var c1 := cache[..];
    StoreBlockMeans(img, cache, w, top, bw, bh, tail);
    ghost var c2 := cache[..];
    assert forall j | tail <= j < cache.Length && !(tail + bw / 2 <= j < tail + w - bw / 2) :: c2[j] == old(cache[j]) by {
      assert forall j | tail <= j < cache.Length :: c1[j] == old(cache[j]);
    }
    StoreDeviations(img, cache, w, h, top, bw, bh, tail, sqrt);
  }

  /** The serialisation loop over block centres: every block's samples go
      to its slots and its deviation norm replaces its mean in its tail
      cell. */
  method StoreDeviations(img: array<real>, cache: array<real>, w: nat, h: nat, top: nat, bw: nat, bh: nat,
                         tail: nat, sqrt: real -> real)
    requires img.Length == w * h && img != cache && top + bh <= h && 1 <= bw <= w && 1 <= bh
    requires tail == Tail(w, bw, bh) && cache.Length == tail + w
    requires forall x' | bw / 2 <= x' < w - bw / 2 :: cache[tail + x'] == BlockMean(img[..], w, top, bw, bh, x')
    modifies cache
    ensures forall j | tail <= j < cache.Length && !(tail + bw / 2 <= j < tail + w - bw / 2) :: cache[j] == old(cache[j])
    ensures CacheFilled(cache[..], img[..], w, top, bw, bh, sqrt)
  {
    var i := bw / 2;
    while i < w - bw / 2
      invariant bw / 2 <= i && (i <= w - bw / 2 || i == bw / 2)
      invariant forall x' | bw / 2 <= x' < i :: BlockCached(cache[..], img[..], w, top, bw, bh, x')
      invariant forall x' | bw / 2 <= x' < i :: cache[tail + x'] == Deviation(img[..], w, top, bw, bh, x', sqrt)
      invariant forall j | tail <= j < cache.Length && !(tail + bw / 2 <= j < tail + i) :: cache[j] == old(cache[j])
    {
      var mean := cache[tail + i];
      assert mean == BlockMean(img[..], w, top, bw, bh, i);
      ghost var c0 := cache[..];
      var squares := SerialiseBlock(img, cache, w, h, top, bw, bh, i, mean);
      ghost var c1 := cache[..];
      cache[tail + i] := sqrt(squares);
      assert cache[..] == c1[tail + i := sqrt(squares)];
      DeviationStored(old(cache[..]), c0, c1, img[..], w, top, bw, bh, tail, i, i + 1, sqrt, squares);
      i := i + 1;
    }
  }

  /** One step of the serialisation loop: block centre i's samples went to
      its slots (c0 to c1) and its deviation norm to its tail cell; the
      loop's facts then hold up to `next`. */
  lemma DeviationStored(c: seq<real>, c0: seq<real>, c1: seq<real>, img: seq<real>, w: nat, top: nat, bw: nat, bh: nat,
                        tail: nat, i: nat, next: nat, sqrt: real -> real, squares: real)
    requires 1 <= bw && 1 <= bh && bw / 2 <= i < w - bw / 2 && next == i + 1
    requires tail == Tail(w, bw, bh) && |c| == |c0| == |c1| == tail + w
    requires forall x' | bw / 2 <= x' < i :: BlockCached(c0, img, w, top, bw, bh, x')
    requires forall x' | bw / 2 <= x' < i :: c0[tail + x'] == Deviation(img, w, top, bw, bh, x', sqrt)
    requires forall j | tail <= j < |c0| && !(tail + bw / 2 <= j < tail + i) :: c0[j] == c[j]
    requires forall k | 0 <= k < bw * bh ::
      0 <= SampleSlot(bw, bh, i, k) < |c1| && c1[SampleSlot(bw, bh, i, k)] == BlockSamples(img, w, top, bw, bh, i)[k]
    requires squares == SquareSum(BlockSamples(img, w, top, bw, bh, i))
    requires forall j | 0 <= j < |c0| &&
      !(Slot(i - bw / 2, 0, bw * bh) <= j < Slot(i - bw / 2, bw * bh, bw * bh)) :: c1[j] == c0[j]
    ensures var c2 := c1[tail + i := sqrt(squares)];
      && (forall x' | bw / 2 <= x' < next :: BlockCached(c2, img, w, top, bw, bh, x'))
      && (forall x' | bw / 2 <= x' < next :: c2[tail + x'] == Deviation(img, w, top, bw, bh, x', sqrt))
      && (forall j | tail <= j < |c2| && !(tail + bw / 2 <= j < tail + next) :: c2[j] == c[j])
  {
    var c2 := c1[tail + i := sqrt(squares)];
    BlockBase(w, bw, bh, i);
    assert forall j | tail <= j < |c0| :: c1[j] == c0[j];
    EarlierBlocksKept(c0, c1, img, w, top, bw, bh, bw / 2, i);
    assert BlockCached(c1, img, w, top, bw, bh, i);
    TailWriteKeepsBlocks(c1, c2, img, w, top, bw, bh, bw / 2, next);
  }
}
