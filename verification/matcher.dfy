/** The zncc2way loops of depthmap_c.c over one scanline, proved against
    the selection of module Selection. */
module Matcher {
  import opened Common
  import opened Scores
  import opened Ranges
  import opened BlockCache
  import opened Correlation
  import opened Selection

  /** The comparison for the second depth map: the score `val` of
      disparity d at centre x, that is of the pair (x, x - d), is recorded
      in the tracker of column x - d, and d in the right depth map, when it
      beats the column's best so far. */
  method Offer(tracker: array<Score>, m2: array<uint8>, ghost m: Matching, y: int, row: nat,
               x: int, lo: int, d: int, val: Score)
    requires m.bw / 2 <= x && 0 <= x - d < m.w && lo <= d
    requires val == PairScore(m, y, x - d, x)
    requires TrackersAt(tracker[..], m2[..], m, y, row, x, lo, d)
    modifies tracker, m2
    ensures TrackersAt(tracker[..], m2[..], m, y, row, x, lo, d + 1)
    ensures forall k | 0 <= k < m2.Length && !(row <= k < row + m.w) :: m2[k] == old(m2[k])
  {
    var r := x - d;
    TrackerStep(m, y, r, x);
    ghost var t0, m0 := tracker[..], m2[..];
    if Greater(val, tracker[r]) {
      tracker[r] := val;
      m2[row + r] := Trunc8(d);
    }
    assert tracker[..] == t0[r := tracker[r]] && m2[..] == m0[row + r := m2[row + r]];
    OfferedOne(t0, m0, tracker[..], m2[..], m, y, row, x, lo, d);
  }

  /** One pass of the `d` loop: the score of disparity d at centre x is
      computed from the caches, compared with the running maximum for the
      left depth map, and offered to the tracker of column x - d. */
  method TryDisparity(cl: array<real>, cr: array<real>, tracker: array<Score>, m2: array<uint8>,
                      w: nat, bw: nat, bh: nat, ghost s: Scene, ghost m: Matching, y: nat, row: nat, x: nat,
                      lo: int, d: nat, tail: nat, devL: real, maxVal: Score, disp: int)
      returns (maxVal': Score, disp': int)
    requires s.w == w && s.bw == bw && s.bh == bh && m.w == w && m.bw == bw && m.bh == bh
    requires forall d {:trigger CandidateScore(s, y, x, d)} :: m.score(y, x, d) == CandidateScore(s, y, x, d)
    requires 1 <= bw && 1 <= bh && 3 <= bw * bh && bw / 2 <= x < w - bw / 2
    requires CachedScanline(cl[..], s.left, w, y - bh / 2, bw, bh, s.sqrt)
    requires CachedScanline(cr[..], s.right, w, y - bh / 2, bw, bh, s.sqrt)
    requires tail == Tail(w, bw, bh) && tail + x < cl.Length && devL == cl[tail + x]
    requires lo == Lo(m, y, x) <= d <= Hi(m, y, x) && d <= x - bw / 2
    requires TrackersAt(tracker[..], m2[..], m, y, row, x, lo, d)
    modifies tracker, m2
    ensures maxVal' == if Greater(m.score(y, x, d), maxVal) then m.score(y, x, d) else maxVal
    ensures disp' == if Greater(m.score(y, x, d), maxVal) then d else disp
    ensures TrackersAt(tracker[..], m2[..], m, y, row, x, lo, d + 1)
    ensures forall k | 0 <= k < m2.Length && !(row <= k < row + w) :: m2[k] == old(m2[k])
  {
    var val := ScoreCandidate(cl, cr, s, w, bw, bh, y, x, d, tail, devL);
    maxVal', disp' := maxVal, disp;
    if Greater(val, maxVal) {
      maxVal' := val;
      disp' := d;
    }
    Offer(tracker, m2, m, y, row, x, lo, d, val);
  }

  /** One block centre x of scanline y, the `d` loop of zncc2way over the
      range [lo, dlim] of x: every disparity of the range is scored once;
      the running maximum yields the disparity for the left depth map (the
      old `disp` if nothing beats -FLT_MAX), and each score is offered to
      the tracker of column x - d. Row y of the right depth map starts at
      `row`; `devL` is the deviation norm of the left block. */
  method ScanRange(cl: array<real>, cr: array<real>, tracker: array<Score>, m2: array<uint8>,
                   w: nat, bw: nat, bh: nat, ghost s: Scene, ghost m: Matching, y: nat, row: nat, x: nat,
                   lo: nat, dlim: nat, tail: nat, devL: real, disp: int) returns (disp': int)
    requires s.w == w && s.bw == bw && s.bh == bh && m.w == w && m.bw == bw && m.bh == bh
    requires forall d {:trigger CandidateScore(s, y, x, d)} :: m.score(y, x, d) == CandidateScore(s, y, x, d)
    requires 1 <= bw && 1 <= bh && 3 <= bw * bh && bw / 2 <= x < w - bw / 2
    requires CachedScanline(cl[..], s.left, w, y - bh / 2, bw, bh, s.sqrt)
    requires CachedScanline(cr[..], s.right, w, y - bh / 2, bw, bh, s.sqrt)
    requires tail == Tail(w, bw, bh) && tail + x < cl.Length && devL == cl[tail + x]
    requires lo == Lo(m, y, x) && dlim == Hi(m, y, x) && (lo <= dlim ==> dlim <= x - bw / 2)
    requires ColumnsAt(tracker[..], m2[..], m, y, row, x)
    modifies tracker, m2
    ensures disp' == match Best1(m, y, x) case Some(d) => d case None => disp
    ensures disp' == disp || 0 <= disp' <= x - bw / 2
    ensures ColumnsAt(tracker[..], m2[..], m, y, row, x + 1)
    ensures forall k | 0 <= k < m2.Length && !(row <= k < row + w) :: m2[k] == old(m2[k])
  {
    ghost var f := Candidates(m, y, x);
    TrackersStart(tracker[..], m2[..], m, y, row, x, lo);
    var maxVal := NegFltMax;
    disp' := disp;
    var d := lo;
    while d <= dlim
      invariant lo <= d && (d <= dlim + 1 || d == lo)
      invariant maxVal == ScoreOf(f, BestIndex(f, lo, d))
      invariant disp' == match BestIndex(f, lo, d) case Some(c) => c case None => disp
      invariant disp' == disp || 0 <= disp' <= x - bw / 2
      invariant TrackersAt(tracker[..], m2[..], m, y, row, x, lo, d)
      invariant forall k | 0 <= k < m2.Length && !(row <= k < row + w) :: m2[k] == old(m2[k])
    {
      BestIndexStep(f, lo, d);
      maxVal, disp' := TryDisparity(cl, cr, tracker, m2, w, bw, bh, s, m, y, row, x, lo, d, tail, devL, maxVal, disp');
      d := d + 1;
    }
    TrackersDone(tracker[..], m2[..], m, y, row, x, d);
  }

  /** Block centre x of scanline y: its range is read from the table and
      the left block's deviation norm from the cache, then the range is
      scanned. */
  method MatchColumn(cl: array<real>, cr: array<real>, table: array<uint16>, tracker: array<Score>,
                     m2: array<uint8>, w: nat, h: nat, bw: nat, bh: nat, ghost s: Scene, ghost m: Matching,
                     y: nat, row: nat, x: nat, disp: int) returns (disp': int)
    requires s.w == w && s.bw == bw && s.bh == bh
    requires m.table == table[..] && m.w == w && m.h == h && m.bw == bw && m.bh == bh
    requires forall d {:trigger CandidateScore(s, y, x, d)} :: m.score(y, x, d) == CandidateScore(s, y, x, d)
    requires 1 <= bw && 1 <= bh && 3 <= bw * bh && Interior(x, y, w, h, bw, bh)
    requires SafeRanges(m.table, w, h, bw, bh)
    requires CachedScanline(cl[..], s.left, w, y - bh / 2, bw, bh, s.sqrt)
    requires CachedScanline(cr[..], s.right, w, y - bh / 2, bw, bh, s.sqrt)
    requires ColumnsAt(tracker[..], m2[..], m, y, row, x)
    modifies tracker, m2
    ensures disp' == match Best1(m, y, x) case Some(d) => d case None => disp
    ensures disp' == disp || 0 <= disp' <= x - bw / 2
    ensures ColumnsAt(tracker[..], m2[..], m, y, row, x + 1)
    ensures forall k | 0 <= k < m2.Length && !(row <= k < row + w) :: m2[k] == old(m2[k])
  {
    var tail := Tail(w, bw, bh);
    assert 0 <= tail by {
      TailPastColumnSums(w, bw, bh);
    }
    assert SafeRange(m.table, x, y, w, bw);
    var lo := table[LoSlot(x, y, w)];
    var dlim := table[HiSlot(x, y, w)];
    assert lo == Lo(m, y, x) && dlim == Hi(m, y, x);
    CachedCandidate(cl[..], cr[..], s, y, x, 0, bw * bh, (x - bw / 2) * bw * bh, 0, tail);
    var devL := cl[tail + x];
    disp' := ScanRange(cl, cr, tracker, m2, w, bw, bh, s, m, y, row, x, lo, dlim, tail, devL, disp);
  }

  /** `(*dMap1)[scanline * width + x] = disp`: `disp` after centre x is
      its left-depth-map value. */
  method StoreDisparity(m1: array<uint8>, ghost m: Matching, y: nat, row: nat, x: nat, disp: int)
    requires Interior(x, y, m.w, m.h, m.bw, m.bh) && row == Flat(0, y, m.w)
    requires RowAt(m1[..], m, y, row, x) && disp == Disp(m, x, y)
    modifies m1
    ensures m1[row + x] == Trunc8(disp)
    ensures forall k | 0 <= k < m1.Length && k != row + x :: m1[k] == old(m1[k])
    ensures RowAt(m1[..], m, y, row, x + 1)
  {
    m1[row + x] := Trunc8(disp);
  }

  /** Block centre x of scanline y, one pass of the `x` loop: the centre
      is matched and `disp` is written to the left depth map. */
  method VisitCentre(cl: array<real>, cr: array<real>, table: array<uint16>, tracker: array<Score>,
                     m1: array<uint8>, m2: array<uint8>, w: nat, h: nat, bw: nat, bh: nat,
                     ghost s: Scene, ghost m: Matching, y: nat, row: nat, x: nat, disp: int) returns (disp': int, next: nat)
    requires s.w == w && s.bw == bw && s.bh == bh
    requires forall d {:trigger CandidateScore(s, y, x, d)} :: m.score(y, x, d) == CandidateScore(s, y, x, d)
    requires m.table == table[..] && m.w == w && m.h == h && m.bw == bw && m.bh == bh
    requires 1 <= bw && 1 <= bh && 3 <= bw * bh && Interior(x, y, w, h, bw, bh)
    requires SafeRanges(m.table, w, h, bw, bh)
    requires CachedScanline(cl[..], s.left, w, y - bh / 2, bw, bh, s.sqrt)
    requires CachedScanline(cr[..], s.right, w, y - bh / 2, bw, bh, s.sqrt)
    requires m1 != m2 && row == Flat(0, y, w)
    requires ColumnsAt(tracker[..], m2[..], m, y, row, x) && RowAt(m1[..], m, y, row, x)
    requires disp == Before(m, x, y) && Trunc8(disp) <= row + x
    requires forall k | 0 <= k < m1.Length :: m1[k] <= k
    modifies tracker, m1, m2
    ensures next == x + 1 && disp' == Disp(m, x, y)
    ensures ColumnsAt(tracker[..], m2[..], m, y, row, next) && RowAt(m1[..], m, y, row, next)
    ensures forall k | 0 <= k < m1.Length && k != row + x :: m1[k] == old(m1[k])
    ensures forall k | 0 <= k < m2.Length && !(row <= k < row + w) :: m2[k] == old(m2[k])
    ensures disp' == Before(m, next, y) && Trunc8(disp') <= row + next
    ensures forall k | 0 <= k < m1.Length :: m1[k] <= k
  {
    disp' := MatchColumn(cl, cr, table, tracker, m2, w, h, bw, bh, s, m, y, row, x, disp);
    next := x + 1;
    NextCentre(tracker[..], m2[..], m, y, row, x, next);
    ghost var t, r2 := tracker[..], m2[..];
    StoreDisparity(m1, m, y, row, x, disp');
    assert tracker[..] == t && m2[..] == r2;
  }

  /** The block centres of scanline y, the `x` loop of zncc2way: each
      centre's disparity is written to the left depth map, and the
      trackers and the right depth map follow the centres. Row y starts at
      `row` in both depth maps; `disp` is the disparity written last. */
  method MatchRow(cl: array<real>, cr: array<real>, table: array<uint16>, tracker: array<Score>,
                  m1: array<uint8>, m2: array<uint8>, w: nat, h: nat, bw: nat, bh: nat,
                  ghost s: Scene, ghost m: Matching, y: nat, row: nat, disp: int) returns (disp': int)
    requires s.w == w && s.bw == bw && s.bh == bh
    requires forall x, d {:trigger CandidateScore(s, y, x, d)} :: m.score(y, x, d) == CandidateScore(s, y, x, d)
    requires m.table == table[..] && m.w == w && m.h == h && m.bw == bw && m.bh == bh
    requires 1 <= bw <= w + 1 && 1 <= bh && 3 <= bw * bh && bh / 2 <= y < h - bh / 2
    requires SafeRanges(m.table, w, h, bw, bh)
    requires CachedScanline(cl[..], s.left, w, y - bh / 2, bw, bh, s.sqrt)
    requires CachedScanline(cr[..], s.right, w, y - bh / 2, bw, bh, s.sqrt)
    requires m1 != m2 && row == Flat(0, y, w) && row + w <= m1.Length
    requires ColumnsAt(tracker[..], m2[..], m, y, row, bw / 2)
    requires forall k | row <= k < row + w :: m1[k] == 0
    requires bw / 2 < CentreEnd(w, bw) ==> disp == Before(m, bw / 2, y)
    requires Trunc8(disp) <= row + bw / 2
    requires forall k | 0 <= k < m1.Length :: m1[k] <= k
    modifies tracker, m1, m2
    ensures ColumnsAt(tracker[..], m2[..], m, y, row, CentreEnd(w, bw))
    ensures RowAt(m1[..], m, y, row, w)
    ensures forall k | 0 <= k < m1.Length && !(row <= k < row + w) :: m1[k] == old(m1[k])
    ensures forall k | 0 <= k < m2.Length && !(row <= k < row + w) :: m2[k] == old(m2[k])
    ensures bw / 2 < CentreEnd(w, bw) ==> disp' == Before(m, CentreEnd(w, bw), y)
    ensures Trunc8(disp') <= row + w
    ensures forall k | 0 <= k < m1.Length :: m1[k] <= k
  {
    disp' := disp;
    var x := bw / 2;
    RowStart(m1[..], m, y, row);
    while x < CentreEnd(w, bw)
      invariant bw / 2 <= x && (x <= CentreEnd(w, bw) || x == bw / 2)
      invariant ColumnsAt(tracker[..], m2[..], m, y, row, x)
      invariant RowAt(m1[..], m, y, row, x)
      invariant forall k | 0 <= k < m1.Length && !(row <= k < row + w) :: m1[k] == old(m1[k])
      invariant forall k | 0 <= k < m2.Length && !(row <= k < row + w) :: m2[k] == old(m2[k])
      invariant bw / 2 < CentreEnd(w, bw) ==> disp' == Before(m, x, y)
      invariant Trunc8(disp') <= row + x
      invariant forall k | 0 <= k < m1.Length :: m1[k] <= k
    {
      disp', x := VisitCentre(cl, cr, table, tracker, m1, m2, w, h, bw, bh, s, m, y, row, x, disp');
    }
    if x == CentreEnd(w, bw) {
      RowFinish(m1[..], m, y, row);
    } else {
      RowWithoutCentres(tracker[..], m2[..], m1[..], m, y, row);
    }
  }

  /** One pass of the `scanline` loop of zncc2way: both scanline caches are
      filled, the trackers reset to -FLT_MAX, and the block centres of the
      scanline matched. Afterwards row y of both depth maps is final and no
      other row has changed. */
  method MatchScanline(left: array<real>, right: array<real>, cl: array<real>, cr: array<real>,
                       table: array<uint16>, tracker: array<Score>, m1: array<uint8>, m2: array<uint8>,
                       w: nat, h: nat, bw: nat, bh: nat, sqrt: real -> real, ghost m: Matching,
                       y: nat, disp: int) returns (disp': int)
    requires left.Length == w * h && right.Length == w * h
    requires cl.Length == CacheSize(w, bw, bh) && cr.Length == CacheSize(w, bw, bh) && tracker.Length == w
    requires cl != cr && left != cl && left != cr && right != cl && right != cr
    requires m == MatchingOf(Scene(left[..], right[..], w, h, bw, bh, sqrt), table[..])
    requires 1 <= bw <= w + 1 && bh % 2 == 1 && 3 <= bw * bh && bh / 2 <= y < h - bh / 2
    requires SafeRanges(table[..], w, h, bw, bh)
    requires m1 != m2 && MapsUpTo(m1[..], m2[..], m, y)
    requires bw / 2 < CentreEnd(w, bw) ==> disp == Before(m, bw / 2, y)
    requires Trunc8(disp) <= Flat(0, y, w) + bw / 2
    requires forall k | 0 <= k < m1.Length :: m1[k] <= k
    modifies cl, cr, tracker, m1, m2
    ensures MapsUpTo(m1[..], m2[..], m, y + 1)
    ensures bw / 2 < CentreEnd(w, bw) ==> disp' == Before(m, CentreEnd(w, bw), y)
    ensures Trunc8(disp') <= Flat(0, y, w) + w
    ensures forall k | 0 <= k < m1.Length :: m1[k] <= k
  {
    ghost var s := Scene(left[..], right[..], w, h, bw, bh, sqrt);
    ghost var n1, n2, tb := m1[..], m2[..], table[..];
    var row := Flat(0, y, w);
    RowStillZero(n1, n2, m, y, row);
    CacheBlockData(left, y, cl, w, h, bw, bh, sqrt);
    ghost var lc := cl[..];
    assert left[..] == s.left;
    CacheBlockData(right, y, cr, w, h, bw, bh, sqrt);
    ghost var rc := cr[..];
    assert right[..] == s.right;
    var i := 0;
    while i < w
      invariant 0 <= i <= w
      invariant forall r | 0 <= r < i :: tracker[r] == NegFltMax
      modifies tracker
    {
      tracker[i] := NegFltMax;
      i := i + 1;
    }
    assert m1[..] == n1 && m2[..] == n2 && table[..] == tb && cl[..] == lc && cr[..] == rc;
    TrackersReset(tracker[..], m2[..], m, y, row);
    SceneMatching(s, tb);
    disp' := MatchRow(cl, cr, table, tracker, m1, m2, w, h, bw, bh, s, m, y, row, disp);
    MapsStep(n1, n2, m1[..], m2[..], m, y, y + 1, row);
  }

  /** zncc2way: the two depth maps of a stereo pair of luminance images
      under a range table, both allocated zeroed and filled scanline by
      scanline. The left map holds, at each block centre, the disparity
      of the best candidate of its range (or the one written before it);
      the right map, at each column of a matched scanline, the disparity
      of the best pair reaching it. */
  method Zncc2Way(left: array<real>, right: array<real>, w: nat, h: nat, bw: nat, bh: nat,
                  table: array<uint16>, sqrt: real -> real) returns (m1: array<uint8>, m2: array<uint8>)
    requires left.Length == w * h && right.Length == w * h
    requires 1 <= bw <= w + 1 && bh % 2 == 1 && 3 <= bw * bh && bh / 2 <= h
    requires SafeRanges(table[..], w, h, bw, bh)
    ensures fresh(m1) && fresh(m2) && m1 != m2
    ensures IsDmap1(m1[..], MatchingOf(Scene(left[..], right[..], w, h, bw, bh, sqrt), table[..]))
    ensures IsDmap2(m2[..], MatchingOf(Scene(left[..], right[..], w, h, bw, bh, sqrt), table[..]))
    ensures forall k | 0 <= k < m1.Length :: m1[k] <= k
  {
    ghost var lf, rt, tb := left[..], right[..], table[..];
    ghost var m := MatchingOf(Scene(lf, rt, w, h, bw, bh, sqrt), tb);
    m1 := new uint8[w * h](_ => 0);
    m2 := new uint8[w * h](_ => 0);
    CacheHoldsColumnSums(w, bw, bh);
    var cl := new real[CacheSize(w, bw, bh)];
    var cr := new real[CacheSize(w, bw, bh)];
    var tracker := new Score[w];
    MapsStart(m1[..], m2[..], m);
    var disp := 0;
    var y := bh / 2;
    while y < h - bh / 2
      invariant bh / 2 <= y && (y <= h - bh / 2 || y == bh / 2)
      invariant MapsUpTo(m1[..], m2[..], m, y)
      invariant bw / 2 < CentreEnd(w, bw) ==> disp == Before(m, bw / 2, y)
      invariant Trunc8(disp) <= Flat(0, y, w) + bw / 2
      invariant forall k | 0 <= k < m1.Length :: m1[k] <= k
      invariant left[..] == lf && right[..] == rt && table[..] == tb
    {
      disp := MatchScanline(left, right, cl, cr, table, tracker, m1, m2, w, h, bw, bh, sqrt, m, y, disp);
      var next := y + 1;
      ScanlineDone(m, w, bw, y, next, disp);
      RowBoundStep(disp, w, bw, y, next);
      y := next;
    }
    MapsDone(m1[..], m2[..], m, y);
  }

  /** The bound on the disparity counter at the end of scanline `y` is the
      bound at the start of scanline `y + 1`. */
  lemma RowBoundStep(d: int, w: int, bw: int, y: int, next: int)
    requires next == y + 1 && 0 <= bw && Trunc8(d) <= Flat(0, y, w) + w
    ensures Trunc8(d) <= Flat(0, next, w) + bw / 2
  {
    assert Flat(0, next, w) == Flat(0, y, w) + w;
  }
}
