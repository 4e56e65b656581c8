/** The disparity-range table: one (min, max) pair of `unsigned short`s per
    pixel, bounding the disparities the matcher tries at that pixel, and its
    brute-force initialisation (initializeDisparity in depthmap_c.c). */
module Ranges {
  import opened Common

  /** Table position of the lower end of pixel (x, y)'s range,
      `y*width*2 + x*2`; the upper end follows it. */
  function LoSlot(x: int, y: int, w: int): int
  {
    2 * Flat(x, y, w)
  }

  function HiSlot(x: int, y: int, w: int): int
  {
    2 * Flat(x, y, w) + 1
  }

  /** Pixel (x, y) is a block centre the matcher visits: it lies at least half
      a block from every edge. */
  predicate Interior(x: int, y: int, w: int, h: int, bw: int, bh: int)
  {
    bw / 2 <= x < w - bw / 2 && bh / 2 <= y < h - bh / 2
  }

  /** One past the last block centre of a row, `width - bx/2`: the bound
      of the matcher's x loop. */
  function CentreEnd(w: int, bw: int): int
  {
    w - bw / 2
  }

  /** Every range the matcher reads exists, and every non-empty one ends at
      most x - bw/2, so a candidate block never starts left of column 0. */
  ghost predicate SafeRanges(t: seq<uint16>, w: int, h: int, bw: int, bh: int)
  {
    forall x, y {:trigger SafeRange(t, x, y, w, bw)} | Interior(x, y, w, h, bw, bh) :: SafeRange(t, x, y, w, bw)
  }

  /** The range of pixel (x, y) exists, and ends at most at x - bw/2 when
      it is non-empty. */
  ghost predicate SafeRange(t: seq<uint16>, x: int, y: int, w: int, bw: int)
  {
    0 <= LoSlot(x, y, w) && HiSlot(x, y, w) < |t| &&
    (t[LoSlot(x, y, w)] <= t[HiSlot(x, y, w)] ==> t[HiSlot(x, y, w)] <= x - bw / 2)
  }

  /** The brute-force range of pixel (x, y): [0, min(limit, x - bw/2)] at a
      block centre, [0, 0] elsewhere. */
  function BruteHi(x: int, y: int, w: int, h: int, bw: int, bh: int, limit: uint16): int
  {
    if !Interior(x, y, w, h, bw, bh) then 0
    else if limit > x - bw / 2 then x - bw / 2
    else limit
  }

  /** `t` holds the brute-force range of every pixel of a w-by-h image. */
  ghost predicate IsBruteTable(t: seq<uint16>, w: int, h: int, bw: int, bh: int, limit: uint16)
  {
    && |t| == 2 * w * h
    && forall x, y | 0 <= x < w && 0 <= y < h ::
         0 <= LoSlot(x, y, w) && HiSlot(x, y, w) < |t| &&
         t[LoSlot(x, y, w)] == 0 && t[HiSlot(x, y, w)] == BruteHi(x, y, w, h, bw, bh, limit)
  }

  /** A brute-force table is safe, starts every range at 0, and reaches the
      full limit wherever the left edge allows it. */
  lemma BruteTableIsSafe(t: seq<uint16>, w: int, h: int, bw: int, bh: int, limit: uint16)
    requires 0 <= bw && 0 <= bh && IsBruteTable(t, w, h, bw, bh, limit)
    ensures SafeRanges(t, w, h, bw, bh)
    ensures forall x, y | Interior(x, y, w, h, bw, bh) ::
      t[LoSlot(x, y, w)] == 0 <= t[HiSlot(x, y, w)] <= x - bw / 2 &&
      (x - bw / 2 >= limit ==> t[HiSlot(x, y, w)] == limit)
  {
    forall x, y | Interior(x, y, w, h, bw, bh)
      ensures 0 <= LoSlot(x, y, w) && HiSlot(x, y, w) < |t|
      ensures t[LoSlot(x, y, w)] == 0 <= t[HiSlot(x, y, w)] <= x - bw / 2
      ensures x - bw / 2 >= limit ==> t[HiSlot(x, y, w)] == limit
    {
      assert 0 <= x < w && 0 <= y < h;
    }
  }

  /** initializeDisparity: a zeroed table whose block centres get the range
      [0, min(limit, x - bw/2)]. */
  method InitializeDisparity(w: nat, h: nat, bw: nat, bh: nat, limit: uint16) returns (table: array<uint16>)
    requires bw / 2 <= w && bh / 2 <= h
    ensures IsBruteTable(table[..], w, h, bw, bh, limit)
  {
    table := new uint16[2 * w * h](_ => 0);
    FlatInsideAll(w, h);
    assert 2 * w * h == 2 * (w * h);
    var y := bh / 2;
    while y < h - bh / 2
      invariant bh / 2 <= y && (y <= h - bh / 2 || y == bh / 2)
      invariant forall x', y' | 0 <= x' < w && 0 <= y' < h ::
        table[LoSlot(x', y', w)] == 0 &&
        table[HiSlot(x', y', w)] == (if y' < y then BruteHi(x', y', w, h, bw, bh, limit) else 0)
    {
      InitializeRow(table, w, h, bw, bh, limit, y);
      y := y + 1;
    }
  }

  /** The `x` loop of initializeDisparity for row `y`. */
  method InitializeRow(table: array<uint16>, w: nat, h: nat, bw: nat, bh: nat, limit: uint16, y: nat)
    requires table.Length == 2 * (w * h) && bh / 2 <= y < h - bh / 2
    requires forall x', y' | 0 <= x' < w && 0 <= y' < h ::
      0 <= LoSlot(x', y', w) && HiSlot(x', y', w) < table.Length &&
      table[LoSlot(x', y', w)] == 0 &&
      table[HiSlot(x', y', w)] == (if y' < y then BruteHi(x', y', w, h, bw, bh, limit) else 0)
    modifies table
    ensures forall x', y' | 0 <= x' < w && 0 <= y' < h ::
      0 <= LoSlot(x', y', w) && HiSlot(x', y', w) < table.Length &&
      table[LoSlot(x', y', w)] == 0 &&
      table[HiSlot(x', y', w)] == (if y' <= y then BruteHi(x', y', w, h, bw, bh, limit) else 0)
  {
    FlatInsideAll(w, h);
    var x := bw / 2;
    while x < w - bw / 2
      invariant bw / 2 <= x && (x <= w - bw / 2 || x == bw / 2)
      invariant forall x', y' | 0 <= x' < w && 0 <= y' < h ::
        table[LoSlot(x', y', w)] == 0 &&
        table[HiSlot(x', y', w)] ==
          (if y' < y || (y' == y && x' < x) then BruteHi(x', y', w, h, bw, bh, limit) else 0)
    {
      ghost var before := table[..];
      table[LoSlot(x, y, w)] := 0;
      var disp := limit;
      if limit > x - bw / 2 {
        disp := x - bw / 2;
      }
      table[HiSlot(x, y, w)] := disp;
      forall x', y' | 0 <= x' < w && 0 <= y' < h
        ensures table[LoSlot(x', y', w)] == 0
        ensures table[HiSlot(x', y', w)] ==
          (if y' < y || (y' == y && x' <= x) then BruteHi(x', y', w, h, bw, bh, limit) else 0)
      {
        if (x', y') != (x, y) {
          FlatInjective(x', y', x, y, w);
          assert table[LoSlot(x', y', w)] == before[LoSlot(x', y', w)];
          assert table[HiSlot(x', y', w)] == before[HiSlot(x', y', w)];
        }
      }
      x := x + 1;
    }
  }
}
