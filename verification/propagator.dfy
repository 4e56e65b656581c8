/** The disparity propagator of the hierarchic search (disparityLimits_2x2
    in depthmap_c.c): a pair of half-resolution depth maps becomes a range
    table for the image twice as wide and high. */
module Propagator {
  import opened Common
  import opened Ranges

  function Max(a: int, b: int): int { if a < b then b else a }

  function Min(a: int, b: int): int { if a > b then b else a }

  /** The two half-resolution depth maps. A read at a flat index outside a
      map's buffer (the samples at `halfx-2`, `halfx+2` and `halfx-i` can
      leave it) yields whatever byte lies there: `outside1`/`outside2`. */
  datatype Coarse = Coarse(first: seq<uint8>, second: seq<uint8>,
                           outside1: int -> uint8, outside2: int -> uint8)

  /** Byte `k` of a map, or of the memory around it. The ensures clauses are
      the modelled C read: a byte, and the map's own cell inside its buffer. */
  function At(m: seq<uint8>, k: int, outside: int -> uint8): (v: int)
    ensures 0 <= v < 0x100
    ensures 0 <= k < |m| ==> v == m[k]
  {
    if 0 <= k < |m| then m[k] else outside(k)
  }

  /** The coarse value a fine pixel starts from: a coarse 0 (no match found)
      stands for the whole range, `limit - 1`. */
  function Seed(v: int, limit: int): int
  {
    if v == 0 then limit - 1 else v
  }

  /** The second-map byte `i` places left of coarse pixel `k`. */
  function Sample(c: Coarse, k: int, i: int): int
  {
    At(c.second, k - i, c.outside2)
  }

  /** The largest of `acc` and the second-map bytes at k, k-1, ..., k-n+1:
      the `max` of the `i` loop. */
  function ScanMax(c: Coarse, k: int, n: nat, acc: int): int
  {
    if n == 0 then acc else Max(ScanMax(c, k, n - 1, acc), Sample(c, k, n - 1))
  }

  /** The smallest of `acc` and the same bytes: the `min` of the `i` loop. */
  function ScanMin(c: Coarse, k: int, n: nat, acc: int): int
  {
    if n == 0 then acc else Min(ScanMin(c, k, n - 1, acc), Sample(c, k, n - 1))
  }

  /** Halving a bound whose double would pass the left edge `edge`. */
  function Clip(v: int, edge: int): int
  {
    if v * 2 > edge then edge / 2 else v
  }

  /** A range in coarse units, before it is doubled into the table. */
  datatype Span = Span(lo: int, hi: int)

  /** Flat index of the coarse pixel under fine pixel (x, y). */
  function CoarseIndex(width: int, x: int, y: int): int
  {
    Flat(x / 2, y / 2, width / 2)
  }

  /** Number of second-map samples the `i` loop visits: `i = 0 .. val`. */
  function ScanLength(v: int): nat
  {
    if v >= 0 then v + 1 else 0
  }

  /** The range around coarse pixel `k`, in coarse units: seeded by the
      coarse value +-1, widened by the first map two coarse pixels to either
      side and by the second map's `val + 1` bytes ending at `k`, then
      clipped so that twice each end stays within `edge`. */
  function PropagateAt(c: Coarse, k: int, edge: int, limit: int): Span
  {
    var v := Seed(At(c.first, k, c.outside1), limit);
    var left := At(c.first, k - 2, c.outside1);
    var right := At(c.first, k + 2, c.outside1);
    var hi0 := Max(Max(v + 1, left), right);
    var lo0 := Min(Min(if v > 0 then v - 1 else v, left), right);
    Span(Clip(ScanMin(c, k, ScanLength(v), lo0), edge), Clip(ScanMax(c, k, ScanLength(v), hi0), edge))
  }

  /** The range of fine pixel (x, y): the one around the coarse pixel below
      it, clipped at the distance x - bw/2 to the left edge. */
  function Propagate(c: Coarse, width: int, x: int, y: int, bw: int, limit: int): Span
  {
    PropagateAt(c, CoarseIndex(width, x, y), x - bw / 2, limit)
  }

  /** The table the propagator stores: for each block centre, twice each end
      of its range, kept to sixteen bits. Other entries are not written. */
  ghost predicate IsPropagatedTable(t: seq<uint16>, c: Coarse, w: int, h: int, bw: int, bh: int, limit: int)
  {
    forall x, y | Interior(x, y, w, h, bw, bh) ::
      0 <= LoSlot(x, y, w) && HiSlot(x, y, w) < |t| &&
      t[LoSlot(x, y, w)] == Trunc16(2 * Propagate(c, w, x, y, bw, limit).lo) &&
      t[HiSlot(x, y, w)] == Trunc16(2 * Propagate(c, w, x, y, bw, limit).hi)
  }

  lemma {:induction false} ScanMaxBounds(c: Coarse, k: int, n: nat, acc: int)
    ensures acc <= ScanMax(c, k, n, acc)
    ensures forall i | 0 <= i < n :: Sample(c, k, i) <= ScanMax(c, k, n, acc)
    ensures 0 <= acc ==> 0 <= ScanMax(c, k, n, acc)
  {
    if n > 0 {
      ScanMaxBounds(c, k, n - 1, acc);
    }
  }

  lemma {:induction false} ScanMinBounds(c: Coarse, k: int, n: nat, acc: int)
    ensures ScanMin(c, k, n, acc) <= acc
    ensures forall i | 0 <= i < n :: ScanMin(c, k, n, acc) <= Sample(c, k, i)
    ensures 0 <= acc ==> 0 <= ScanMin(c, k, n, acc)
  {
    if n > 0 {
      ScanMinBounds(c, k, n - 1, acc);
    }
  }

  /** With a limit of at least 1 every range is non-empty and non-negative,
      and twice its upper end stays within the edge distance, so the
      matcher's right block never starts left of column 0. */
  lemma PropagateIsSafe(c: Coarse, k: int, edge: int, limit: int)
    requires 1 <= limit && 0 <= edge
    ensures 0 <= PropagateAt(c, k, edge, limit).lo <= PropagateAt(c, k, edge, limit).hi
    ensures 2 * PropagateAt(c, k, edge, limit).hi <= edge
  {
    var v := Seed(At(c.first, k, c.outside1), limit);
    var left := At(c.first, k - 2, c.outside1);
    var right := At(c.first, k + 2, c.outside1);
    var hi0 := Max(Max(v + 1, left), right);
    var lo0 := Min(Min(if v > 0 then v - 1 else v, left), right);
    var n := ScanLength(v);
    ScanMaxBounds(c, k, n, hi0);
    ScanMinBounds(c, k, n, lo0);
  }

  /** Whatever the limit, the upper end of a range is non-negative (the
      first map's bytes two coarse pixels away already are) and twice it
      stays within the edge distance. */
  lemma PropagateTopIsSafe(c: Coarse, k: int, edge: int, limit: int)
    requires 0 <= edge
    ensures 0 <= PropagateAt(c, k, edge, limit).hi
    ensures 2 * PropagateAt(c, k, edge, limit).hi <= edge
  {
    var v := Seed(At(c.first, k, c.outside1), limit);
    var hi0 := Max(Max(v + 1, At(c.first, k - 2, c.outside1)), At(c.first, k + 2, c.outside1));
    ScanMaxBounds(c, k, ScanLength(v), hi0);
  }

  /** The range covers what it was built from: every sample the propagator
      looked at lies at or above the lower end, and at or below the upper
      end unless twice it would pass the edge. */
  lemma PropagateCovers(c: Coarse, k: int, edge: int, limit: int, i: int)
    requires 1 <= limit && 0 <= edge
    requires 0 <= i <= Seed(At(c.first, k, c.outside1), limit)
    ensures var s := PropagateAt(c, k, edge, limit);
      var v := Seed(At(c.first, k, c.outside1), limit);
      && s.lo <= v
      && (2 * (v + 1) <= edge ==> v + 1 <= s.hi)
      && s.lo <= At(c.first, k - 2, c.outside1) && s.lo <= At(c.first, k + 2, c.outside1)
      && (2 * At(c.first, k - 2, c.outside1) <= edge ==> At(c.first, k - 2, c.outside1) <= s.hi)
      && (2 * At(c.first, k + 2, c.outside1) <= edge ==> At(c.first, k + 2, c.outside1) <= s.hi)
      && s.lo <= Sample(c, k, i)
      && (2 * Sample(c, k, i) <= edge ==> Sample(c, k, i) <= s.hi)
  {
    var v := Seed(At(c.first, k, c.outside1), limit);
    var left := At(c.first, k - 2, c.outside1);
    var right := At(c.first, k + 2, c.outside1);
    var hi0 := Max(Max(v + 1, left), right);
    var lo0 := Min(Min(if v > 0 then v - 1 else v, left), right);
    var n := ScanLength(v);
    ScanMaxBounds(c, k, n, hi0);
    ScanMinBounds(c, k, n, lo0);
  }

  /** A coarse 0 with no larger neighbour yields the full limit as the upper
      end, so the table stores 2*limit: beyond the limit the post-processor
      rescales by. */
  lemma ZeroSeedDoublesLimit(c: Coarse, k: int, edge: int, limit: int)
    requires 1 <= limit && 2 * limit <= edge
    requires At(c.first, k, c.outside1) == 0
    requires At(c.first, k - 2, c.outside1) <= limit && At(c.first, k + 2, c.outside1) <= limit
    requires forall i | 0 <= i < limit :: Sample(c, k, i) <= limit
    ensures 2 * PropagateAt(c, k, edge, limit).hi == 2 * limit
  {
    var hi0 := Max(Max(limit, At(c.first, k - 2, c.outside1)), At(c.first, k + 2, c.outside1));
    assert hi0 == limit;
    ScanMaxAtMost(c, k, limit, limit);
  }

  lemma {:induction false} ScanMaxAtMost(c: Coarse, k: int, n: nat, bound: int)
    requires forall i | 0 <= i < n :: Sample(c, k, i) <= bound
    ensures ScanMax(c, k, n, bound) == bound
  {
    if n > 0 {
      ScanMaxAtMost(c, k, n - 1, bound);
    }
  }

  /** With a limit of 0 a coarse 0 seeds -1: the lower end is stored as
      `(unsigned short)-2`, above the upper end, so the range is empty and
      the matcher visits no disparity at that pixel. */
  lemma ZeroLimitEmptiesRange(c: Coarse, k: int, edge: int)
    requires 0 <= edge < 0xFFFE && At(c.first, k, c.outside1) == 0
    ensures Trunc16(2 * PropagateAt(c, k, edge, 0).lo) == 0xFFFE
    ensures Trunc16(2 * PropagateAt(c, k, edge, 0).hi) < 0xFFFE
  {
    var hi0 := Max(Max(0, At(c.first, k - 2, c.outside1)), At(c.first, k + 2, c.outside1));
    assert ScanMax(c, k, 0, hi0) == hi0;
  }

  /** Any table the propagator stores is safe for the matcher, whatever the
      limit and the image width: a stored upper end, kept to sixteen bits,
      is at most twice the range's upper end and so never passes the left
      edge. */
  lemma PropagatedTableIsSafeForAnyLimit(t: seq<uint16>, c: Coarse, w: int, h: int, bw: int, bh: int, limit: int)
    requires IsPropagatedTable(t, c, w, h, bw, bh, limit)
    ensures SafeRanges(t, w, h, bw, bh)
  {
    forall x, y | Interior(x, y, w, h, bw, bh)
      ensures SafeRange(t, x, y, w, bw)
    {
      PropagateTopIsSafe(c, CoarseIndex(w, x, y), x - bw / 2, limit);
    }
  }

  /** A table built with a limit of at least 1 over an image narrower than
      65536 pixels is safe for the matcher, and each stored end is even. */
  lemma PropagatedTableIsSafe(t: seq<uint16>, c: Coarse, w: int, h: int, bw: int, bh: int, limit: int)
    requires 1 <= limit && 0 <= bw && 0 <= bh && w <= 0x1_0000
    requires IsPropagatedTable(t, c, w, h, bw, bh, limit)
    ensures SafeRanges(t, w, h, bw, bh)
    ensures forall x, y | Interior(x, y, w, h, bw, bh) ::
      t[LoSlot(x, y, w)] % 2 == 0 && t[HiSlot(x, y, w)] % 2 == 0 &&
      t[LoSlot(x, y, w)] <= t[HiSlot(x, y, w)] <= x - bw / 2
  {
    forall x, y | Interior(x, y, w, h, bw, bh)
      ensures 0 <= LoSlot(x, y, w) && HiSlot(x, y, w) < |t|
      ensures t[LoSlot(x, y, w)] % 2 == 0 && t[HiSlot(x, y, w)] % 2 == 0
      ensures t[LoSlot(x, y, w)] <= t[HiSlot(x, y, w)] <= x - bw / 2
      ensures SafeRange(t, x, y, w, bw)
    {
      PropagatedPixelIsSafe(t, c, w, h, bw, bh, limit, x, y);
    }
  }

  /** PropagatedTableIsSafe at one block centre. */
  lemma PropagatedPixelIsSafe(t: seq<uint16>, c: Coarse, w: int, h: int, bw: int, bh: int, limit: int, x: int, y: int)
    requires 1 <= limit && 0 <= bw && 0 <= bh && w <= 0x1_0000
    requires IsPropagatedTable(t, c, w, h, bw, bh, limit) && Interior(x, y, w, h, bw, bh)
    ensures 0 <= LoSlot(x, y, w) && HiSlot(x, y, w) < |t|
    ensures t[LoSlot(x, y, w)] % 2 == 0 && t[HiSlot(x, y, w)] % 2 == 0
    ensures t[LoSlot(x, y, w)] <= t[HiSlot(x, y, w)] <= x - bw / 2
  {
    var s := Propagate(c, w, x, y, bw, limit);
    PropagateIsSafe(c, CoarseIndex(w, x, y), x - bw / 2, limit);
    StoredEnds(s.lo, s.hi, t[LoSlot(x, y, w)], t[HiSlot(x, y, w)], x - bw / 2);
  }

  /** Doubling a non-empty range whose double ends within `edge`, itself
      within sixteen bits, stores even ends in the same order. */
  lemma StoredEnds(lo: int, hi: int, tlo: int, thi: int, edge: int)
    requires 0 <= lo <= hi && 2 * hi <= edge < 0x1_0000
    requires tlo == Trunc16(2 * lo) && thi == Trunc16(2 * hi)
    ensures tlo % 2 == 0 && thi % 2 == 0 && tlo <= thi <= edge
  {
  }

  /** The seeding, the `i` loop and the clipping for the fine pixel whose
      coarse pixel is `k` and which lies `edge` columns right of the first
      block centre. */
  method PixelLimits(m1: array<uint8>, m2: array<uint8>, out1: int -> uint8, out2: int -> uint8,
                     k: int, edge: int, limit: uint16) returns (lo: int, hi: int)
    ensures Span(lo, hi) == PropagateAt(Coarse(m1[..], m2[..], out1, out2), k, edge, limit)
  {
    ghost var c := Coarse(m1[..], m2[..], out1, out2);
    var v := At(m1[..], k, out1);
    if v == 0 {
      v := limit as int - 1;
    }
    hi := v + 1;
    if v > 0 {
      lo := v - 1;
    } else {
      lo := v;
    }
    var v2 := At(m1[..], k - 2, out1);
    var v3 := At(m1[..], k + 2, out1);
    if v2 > hi { hi := v2; }
    if v3 > hi { hi := v3; }
    if v2 < lo { lo := v2; }
    if v3 < lo { lo := v3; }
    ghost var hi0, lo0 := hi, lo;
    assert v == Seed(At(c.first, k, c.outside1), limit);
    assert hi0 == Max(Max(v + 1, v2), v3) && lo0 == Min(Min(if v > 0 then v - 1 else v, v2), v3);
    var i := 0;
    while i <= v
      invariant 0 <= i <= ScanLength(v)
      invariant hi == ScanMax(c, k, i, hi0)
      invariant lo == ScanMin(c, k, i, lo0)
    {
      var s := At(m2[..], k - i, out2);
      if hi < s { hi := s; }
      if lo > s { lo := s; }
      i := i + 1;
    }
    assert i == ScanLength(v);
    ghost var lo1, hi1 := lo, hi;
    if lo * 2 > edge {
      lo := edge / 2;
    }
    if hi * 2 > edge {
      hi := edge / 2;
    }
    assert lo == Clip(lo1, edge) && hi == Clip(hi1, edge);
    PropagateAtParts(c, k, edge, limit, v, lo0, hi0, lo1, hi1);
  }

  /** PropagateAt assembled from the seed, the widened ends and the scanned
      ends. */
  lemma PropagateAtParts(c: Coarse, k: int, edge: int, limit: int, v: int, lo0: int, hi0: int, lo1: int, hi1: int)
    requires v == Seed(At(c.first, k, c.outside1), limit)
    requires hi0 == Max(Max(v + 1, At(c.first, k - 2, c.outside1)), At(c.first, k + 2, c.outside1))
    requires lo0 == Min(Min(if v > 0 then v - 1 else v, At(c.first, k - 2, c.outside1)), At(c.first, k + 2, c.outside1))
    requires lo1 == ScanMin(c, k, ScanLength(v), lo0) && hi1 == ScanMax(c, k, ScanLength(v), hi0)
    ensures PropagateAt(c, k, edge, limit) == Span(Clip(lo1, edge), Clip(hi1, edge))
  {
  }

  /** disparityLimits_2x2: a table of `width*height*4*2` entries whose block
      centres hold the doubled propagated ranges. */
  method DisparityLimits2x2(m1: array<uint8>, m2: array<uint8>, out1: int -> uint8, out2: int -> uint8,
                            w: nat, h: nat, bw: nat, bh: nat, limit: uint16) returns (t: array<uint16>)
    requires bw / 2 <= w && bh / 2 <= h
    ensures t.Length == w * h * 4 * 2
    ensures IsPropagatedTable(t[..], Coarse(m1[..], m2[..], out1, out2), w, h, bw, bh, limit)
  {
    t := new uint16[w * h * 4 * 2];
    assert w * h * 4 * 2 == 8 * (w * h);
    var y := bh / 2;
    while y < h - bh / 2
      invariant bh / 2 <= y && (y <= h - bh / 2 || y == bh / 2)
      invariant t.Length == 8 * (w * h)
      invariant PropagatedUpTo(t[..], Coarse(m1[..], m2[..], out1, out2), w, h, bw, bh, limit, y, 0)
    {
      PropagateRow(m1, m2, out1, out2, t, w, h, bw, bh, limit, y);
      y := y + 1;
    }
  }

  /** Every block centre above row y, and left of column x on row y, holds
      its propagated range. */
  ghost predicate PropagatedUpTo(t: seq<uint16>, c: Coarse, w: int, h: int, bw: int, bh: int, limit: int,
                                 y: int, x: int)
  {
    forall x', y' | Interior(x', y', w, h, bw, bh) && (y' < y || (y' == y && x' < x)) ::
      0 <= LoSlot(x', y', w) && HiSlot(x', y', w) < |t| &&
      t[LoSlot(x', y', w)] == Trunc16(2 * Propagate(c, w, x', y', bw, limit).lo) &&
      t[HiSlot(x', y', w)] == Trunc16(2 * Propagate(c, w, x', y', bw, limit).hi)
  }

  /** The `x` loop of disparityLimits_2x2 for row y. */
  method PropagateRow(m1: array<uint8>, m2: array<uint8>, out1: int -> uint8, out2: int -> uint8,
                      t: array<uint16>, w: nat, h: nat, bw: nat, bh: nat, limit: uint16, y: nat)
    requires t.Length == 8 * (w * h) && bh / 2 <= y < h - bh / 2
    requires PropagatedUpTo(t[..], Coarse(m1[..], m2[..], out1, out2), w, h, bw, bh, limit, y, 0)
    modifies t
    ensures PropagatedUpTo(t[..], Coarse(m1[..], m2[..], out1, out2), w, h, bw, bh, limit, y + 1, 0)
  {
    ghost var c := Coarse(m1[..], m2[..], out1, out2);
    var x := bw / 2;
    while x < w - bw / 2
      invariant bw / 2 <= x && (x <= w - bw / 2 || x == bw / 2)
      invariant PropagatedUpTo(t[..], c, w, h, bw, bh, limit, y, x)
    {
      var lo, hi := PixelLimits(m1, m2, out1, out2, CoarseIndex(w, x, y), x - bw / 2, limit);
      assert Span(lo, hi) == PropagateAt(c, CoarseIndex(w, x, y), x - bw / 2, limit);
      FlatInside(x, y, w, h);
      ghost var before: seq<uint16> := t[..];
      t[LoSlot(x, y, w)] := Trunc16(lo * 2);
      t[HiSlot(x, y, w)] := Trunc16(hi * 2);
      assert t[..] == before[LoSlot(x, y, w) := Trunc16(lo * 2)][HiSlot(x, y, w) := Trunc16(hi * 2)];
      StoreRange(before, c, w, h, bw, bh, limit, x, y, x + 1, lo, hi);
      x := x + 1;
    }
    forall x', y' | Interior(x', y', w, h, bw, bh) && y' < y + 1
      ensures 0 <= LoSlot(x', y', w) && HiSlot(x', y', w) < t.Length
      ensures t[LoSlot(x', y', w)] == Trunc16(2 * Propagate(c, w, x', y', bw, limit).lo)
      ensures t[HiSlot(x', y', w)] == Trunc16(2 * Propagate(c, w, x', y', bw, limit).hi)
    {
      assert y' < y || (y' == y && x' < x);
    }
  }

  /** Storing the doubled range of block centre (x, y) extends the
      propagated part of the table past (x, y). */
  lemma StoreRange(t: seq<uint16>, c: Coarse, w: int, h: int, bw: int, bh: int, limit: int,
                   x: int, y: int, next: int, lo: int, hi: int)
    requires 0 <= bw && 0 <= bh && Interior(x, y, w, h, bw, bh) && next == x + 1 && |t| == 8 * (w * h)
    requires PropagatedUpTo(t, c, w, h, bw, bh, limit, y, x)
    requires Span(lo, hi) == PropagateAt(c, CoarseIndex(w, x, y), x - bw / 2, limit)
    ensures 0 <= LoSlot(x, y, w) && HiSlot(x, y, w) < |t|
    ensures PropagatedUpTo(t[LoSlot(x, y, w) := Trunc16(lo * 2)][HiSlot(x, y, w) := Trunc16(hi * 2)],
                           c, w, h, bw, bh, limit, y, next)
  {
    FlatInside(x, y, w, h);
    var t': seq<uint16> := t[LoSlot(x, y, w) := Trunc16(lo * 2)][HiSlot(x, y, w) := Trunc16(hi * 2)];
    forall x', y' | Interior(x', y', w, h, bw, bh) && (y' < y || (y' == y && x' < next))
      ensures 0 <= LoSlot(x', y', w) && HiSlot(x', y', w) < |t'|
      ensures t'[LoSlot(x', y', w)] == Trunc16(2 * Propagate(c, w, x', y', bw, limit).lo)
      ensures t'[HiSlot(x', y', w)] == Trunc16(2 * Propagate(c, w, x', y', bw, limit).hi)
    {
      FlatInside(x', y', w, h);
      if (x', y') != (x, y) {
        assert y' < y || (y' == y && x' < x);
        StoreKeeps(t, x, y, x', y', w, Trunc16(lo * 2), Trunc16(hi * 2));
      } else {
        assert Propagate(c, w, x, y, bw, limit) == Span(lo, hi);
      }
    }
  }

  /** The two stores at block centre (x, y) leave the cells of every other
      pixel of the row width w alone. */
  lemma StoreKeeps(t: seq<uint16>, x: int, y: int, x': int, y': int, w: int, vlo: uint16, vhi: uint16)
    requires 0 <= x < w && 0 <= x' < w && (x', y') != (x, y)
    requires 0 <= LoSlot(x, y, w) && HiSlot(x, y, w) < |t| && 0 <= LoSlot(x', y', w) && HiSlot(x', y', w) < |t|
    ensures t[LoSlot(x, y, w) := vlo][HiSlot(x, y, w) := vhi][LoSlot(x', y', w)] == t[LoSlot(x', y', w)]
    ensures t[LoSlot(x, y, w) := vlo][HiSlot(x, y, w) := vhi][HiSlot(x', y', w)] == t[HiSlot(x', y', w)]
  {
    FlatInjective(x', y', x, y, w);
  }
}
