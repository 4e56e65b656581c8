/** The two-way block matcher (zncc2way in depthmap_c.c). For every block
    centre (x, y) of the left image it scores the candidate disparities d of
    the pixel's range, keeps the best d for the left depth map, and, through
    a per-column tracker, the best d for the right depth map at column
    x - d. The selection is stated over an arbitrary score function; the
    matcher's own scores are those of Correlation. */
module Selection {
  import opened Common
  import opened Scores
  import opened Ranges
  import opened BlockCache
  import opened Correlation

  /** What the selection depends on: a score for every candidate (y, x, d),
      the range table, and the image and block dimensions. */
  datatype Matching = Matching(score: (int, int, int) -> Score, table: seq<uint16>,
                               w: nat, h: nat, bw: nat, bh: nat)

  /** The matching zncc2way performs on a scene with a range table. */
  function MatchingOf(s: Scene, table: seq<uint16>): Matching
  {
    Matching(SceneScores(s), table, s.w, s.h, s.bw, s.bh)
  }

  /** Table entry k, 0 past the table. */
  function Entry(t: seq<uint16>, k: int): int
  {
    if 0 <= k < |t| then t[k] else 0
  }

  /** Lower and upper end of the range of pixel (x, y). */
  function Lo(m: Matching, y: int, x: int): int
  {
    Entry(m.table, LoSlot(x, y, m.w))
  }

  function Hi(m: Matching, y: int, x: int): int
  {
    Entry(m.table, HiSlot(x, y, m.w))
  }

  /** The scores of every disparity at block centre x. */
  function Candidates(m: Matching, y: int, x: int): int -> Score
  {
    d => m.score(y, x, d)
  }

  /** The disparity the left depth map gets at (x, y), if any candidate of
      its range beats -FLT_MAX. */
  function Best1(m: Matching, y: int, x: int): Option<int>
  {
    BestIndex(Candidates(m, y, x), Lo(m, y, x), Hi(m, y, x) + 1)
  }

  /** The score the pair (x, x - r) contributes to column r of the right
      depth map: the candidate's score when x - r lies in x's range, NaN
      (never a winner) when the pair is not visited. */
  function PairScore(m: Matching, y: int, r: int, x: int): Score
  {
    if Lo(m, y, x) <= x - r <= Hi(m, y, x) then m.score(y, x, x - r) else NaN
  }

  function PairScores(m: Matching, y: int, r: int): int -> Score
  {
    x => PairScore(m, y, r, x)
  }

  /** A pair that can win was visited. */
  lemma PairVisited(m: Matching, y: int, r: int, x: int)
    requires Greater(PairScores(m, y, r)(x), NegFltMax)
    ensures Lo(m, y, x) <= x - r <= Hi(m, y, x)
  {
  }

  /** The block centre, among those before b, whose pair with column r
      scored best: the last writer of the right depth map at (r, y). */
  function Best2(m: Matching, y: int, r: int, b: int): Option<int>
  {
    BestIndex(PairScores(m, y, r), m.bw / 2, b)
  }

  /** The tracker cell of column r after the block centres before b. */
  function Tracked(m: Matching, y: int, r: int, b: int): Score
  {
    ScoreOf(PairScores(m, y, r), Best2(m, y, r, b))
  }

  /** The right depth map at (r, y) after the block centres before b: the
      winning disparity as an `unsigned char`, 0 (the memset) if none. */
  function Dmap2Value(m: Matching, y: int, r: int, b: int): uint8
  {
    match Best2(m, y, r, b)
    case Some(x) => Trunc8(x - r)
    case None => 0
  }

  /** The value of `disp` once block centre (x, y) has been visited: the
      disparity it found, or, when no candidate beat -FLT_MAX, the value
      `disp` already held. Centres are visited row by row, left to right. */
  function Disp(m: Matching, x: int, y: int): int
    decreases y, x, 1
  {
    match Best1(m, y, x)
    case Some(d) => d
    case None => Before(m, x, y)
  }

  /** The value of `disp` when centre (x, y) is reached: that of the
      centre before it, 0 at the very first. */
  function Before(m: Matching, x: int, y: int): int
    decreases y, x, 0
  {
    if x > m.bw / 2 then Disp(m, x - 1, y)
    else if y > m.bh / 2 then Disp(m, CentreEnd(m.w, m.bw) - 1, y - 1)
    else 0
  }

  /** The left depth map at (x, y): at a block centre `disp` after the
      centre as an `unsigned char`; 0 (the memset) at every other pixel. */
  function Dmap1Value(m: Matching, x: int, y: int): uint8
  {
    if Interior(x, y, m.w, m.h, m.bw, m.bh) then Trunc8(Disp(m, x, y)) else 0
  }

  ghost predicate IsDmap1(m1: seq<uint8>, m: Matching)
  {
    && |m1| == m.w * m.h
    && forall x, y | 0 <= x < m.w && 0 <= y < m.h ::
         0 <= Flat(x, y, m.w) < |m1| && m1[Flat(x, y, m.w)] == Dmap1Value(m, x, y)
  }

  /** Depth-map cell k, 0 past the map. */
  function Entry8(m1: seq<uint8>, k: int): int
  {
    if 0 <= k < |m1| then m1[k] else 0
  }

  /** The cell of the left depth map written just before centre (x, y):
      the previous centre of the row, or the last centre of the row above;
      0 at the very first centre. */
  function StaleValue(m1: seq<uint8>, m: Matching, x: int, y: int): int
  {
    if x > m.bw / 2 then Entry8(m1, Flat(x - 1, y, m.w))
    else if y > m.bh / 2 then Entry8(m1, Flat(CentreEnd(m.w, m.bw) - 1, y - 1, m.w))
    else 0
  }

  /** The right depth map: on a matched scanline, column r holds the
      disparity of its best-scoring pair; 0 on every other scanline. */
  ghost predicate IsDmap2(m2: seq<uint8>, m: Matching)
  {
    && |m2| == m.w * m.h
    && forall r, y | 0 <= r < m.w && 0 <= y < m.h ::
         0 <= Flat(r, y, m.w) < |m2| &&
         m2[Flat(r, y, m.w)] ==
           if m.bh / 2 <= y < m.h - m.bh / 2 then Dmap2Value(m, y, r, CentreEnd(m.w, m.bw)) else 0
  }

  /** The meaning of the left depth map at a block centre: the first
      disparity of the range attaining the maximal score (as an `unsigned
      char`), or, when no candidate scores above -FLT_MAX, a copy of the
      cell written just before it. */
  lemma Dmap1Meaning(m1: seq<uint8>, m: Matching, x: int, y: int)
    requires IsDmap1(m1, m) && Interior(x, y, m.w, m.h, m.bw, m.bh)
    ensures !AnyBeats(Candidates(m, y, x), Lo(m, y, x), Hi(m, y, x) + 1) ==>
      m1[Flat(x, y, m.w)] == StaleValue(m1, m, x, y)
    ensures AnyBeats(Candidates(m, y, x), Lo(m, y, x), Hi(m, y, x) + 1) ==>
      exists d :: IsFirstArgmax(Candidates(m, y, x), Lo(m, y, x), Hi(m, y, x) + 1, d) &&
                  m1[Flat(x, y, m.w)] == Trunc8(d)
  {
    assert 0 <= x < m.w && 0 <= y < m.h;
    BestIndexIsFirstArgmax(Candidates(m, y, x), Lo(m, y, x), Hi(m, y, x) + 1);
    match Best1(m, y, x)
    case Some(d) =>
      assert IsFirstArgmax(Candidates(m, y, x), Lo(m, y, x), Hi(m, y, x) + 1, d);
    case None =>
      assert m1[Flat(x, y, m.w)] == Dmap1Value(m, x, y) == Trunc8(Before(m, x, y));
      if x > m.bw / 2 {
        assert Interior(x - 1, y, m.w, m.h, m.bw, m.bh);
        assert m1[Flat(x - 1, y, m.w)] == Dmap1Value(m, x - 1, y);
      } else if y > m.bh / 2 {
        assert Interior(CentreEnd(m.w, m.bw) - 1, y - 1, m.w, m.h, m.bw, m.bh);
        assert m1[Flat(CentreEnd(m.w, m.bw) - 1, y - 1, m.w)] == Dmap1Value(m, CentreEnd(m.w, m.bw) - 1, y - 1);
      }
  }

  /** The meaning of a right-depth-map value after all block centres:
      when some visited pair (x, x - r) scores above -FLT_MAX it is x - r
      for the first x whose pair attains the maximal score; otherwise 0. */
  lemma Dmap2ValueMeaning(m: Matching, y: int, r: int)
    ensures !AnyBeats(PairScores(m, y, r), m.bw / 2, CentreEnd(m.w, m.bw)) ==> Dmap2Value(m, y, r, CentreEnd(m.w, m.bw)) == 0
    ensures AnyBeats(PairScores(m, y, r), m.bw / 2, CentreEnd(m.w, m.bw)) ==>
      exists x :: IsFirstArgmax(PairScores(m, y, r), m.bw / 2, CentreEnd(m.w, m.bw), x) &&
                  Lo(m, y, x) <= x - r <= Hi(m, y, x) &&
                  Dmap2Value(m, y, r, CentreEnd(m.w, m.bw)) == Trunc8(x - r)
  {
    var b := Best2(m, y, r, CentreEnd(m.w, m.bw));
    BestIndexIsFirstArgmax(PairScores(m, y, r), m.bw / 2, CentreEnd(m.w, m.bw));
    if b.Some? {
      var x := b.value;
      PairVisited(m, y, r, x);
      assert IsFirstArgmax(PairScores(m, y, r), m.bw / 2, CentreEnd(m.w, m.bw), x);
    }
  }

  /** One more block centre for the right depth map: centre x takes column
      r over exactly when its pair's score beats the tracker. */
  lemma TrackerStep(m: Matching, y: int, r: int, x: int)
    requires m.bw / 2 <= x
    ensures Best2(m, y, r, x + 1) ==
      if Greater(PairScore(m, y, r, x), Tracked(m, y, r, x)) then Some(x) else Best2(m, y, r, x)
    ensures Tracked(m, y, r, x + 1) ==
      if Greater(PairScore(m, y, r, x), Tracked(m, y, r, x)) then PairScore(m, y, r, x) else Tracked(m, y, r, x)
    ensures Dmap2Value(m, y, r, x + 1) ==
      if Greater(PairScore(m, y, r, x), Tracked(m, y, r, x)) then Trunc8(x - r) else Dmap2Value(m, y, r, x)
  {
    BestIndexStep(PairScores(m, y, r), m.bw / 2, x);
  }

  /** A block centre whose range does not reach column r leaves it alone. */
  lemma TrackerSkip(m: Matching, y: int, r: int, x: int)
    requires m.bw / 2 <= x && !(Lo(m, y, x) <= x - r <= Hi(m, y, x))
    ensures Best2(m, y, r, x + 1) == Best2(m, y, r, x)
    ensures Tracked(m, y, r, x + 1) == Tracked(m, y, r, x)
    ensures Dmap2Value(m, y, r, x + 1) == Dmap2Value(m, y, r, x)
  {
    assert PairScores(m, y, r)(x) == NaN;
    BestIndexSkipsNaN(PairScores(m, y, r), m.bw / 2, x + 1);
  }

  /** The trackers of scanline y after the block centres before b. */
  function TrackerRow(m: Matching, y: int, b: int): (t: seq<Score>)
    ensures |t| == m.w && forall r | 0 <= r < m.w :: t[r] == Tracked(m, y, r, b)
  {
    seq(m.w, r => Tracked(m, y, r, b))
  }

  /** Row y of the right depth map after the block centres before b. */
  function Dmap2Row(m: Matching, y: int, b: int): (row: seq<uint8>)
    ensures |row| == m.w && forall r | 0 <= r < m.w :: row[r] == Dmap2Value(m, y, r, b)
  {
    seq(m.w, r => Dmap2Value(m, y, r, b))
  }

  /** The trackers and row y of the right depth map (starting at `row`)
      after the block centres before b. */
  ghost predicate ColumnsAt(t: seq<Score>, m2: seq<uint8>, m: Matching, y: int, row: int, b: int)
  {
    && 0 <= row && row + m.w <= |m2|
    && t == TrackerRow(m, y, b)
    && m2[row..row + m.w] == Dmap2Row(m, y, b)
  }

  /** The trackers and row y of the right depth map (starting at `row`)
      while block centre x has offered the disparities of [lo, d): the
      columns x - d' for those disparities d' stand after centre x, every
      other column before it. */
  ghost predicate TrackersAt(t: seq<Score>, m2: seq<uint8>, m: Matching, y: int, row: int, x: int, lo: int, d: int)
  {
    && |t| == m.w && 0 <= row && row + m.w <= |m2|
    && (forall r | 0 <= r < m.w && lo <= x - r < d :: t[r] == Tracked(m, y, r, x + 1))
    && (forall r | 0 <= r < m.w && !(lo <= x - r < d) :: t[r] == Tracked(m, y, r, x))
    && (forall k | row <= k < row + m.w && lo <= x - (k - row) < d :: m2[k] == Dmap2Value(m, y, k - row, x + 1))
    && (forall k | row <= k < row + m.w && !(lo <= x - (k - row) < d) :: m2[k] == Dmap2Value(m, y, k - row, x))
  }

  /** Column x - d moving past centre x, and no other column, takes the
      trackers from disparity d to d + 1. */
  lemma OfferedOne(t0: seq<Score>, m0: seq<uint8>, t1: seq<Score>, m1: seq<uint8>,
                   m: Matching, y: int, row: int, x: int, lo: int, d: int)
    requires lo <= d && 0 <= x - d < m.w
    requires TrackersAt(t0, m0, m, y, row, x, lo, d)
    requires t1 == t0[x - d := Tracked(m, y, x - d, x + 1)]
    requires m1 == m0[row + x - d := Dmap2Value(m, y, x - d, x + 1)]
    ensures TrackersAt(t1, m1, m, y, row, x, lo, d + 1)
  {
  }

  /** Before centre x offers anything, every column stands before x. */
  lemma TrackersStart(t: seq<Score>, m2: seq<uint8>, m: Matching, y: int, row: int, x: int, lo: int)
    requires ColumnsAt(t, m2, m, y, row, x)
    ensures TrackersAt(t, m2, m, y, row, x, lo, lo)
  {
    forall k | row <= k < row + m.w
      ensures m2[k] == Dmap2Value(m, y, k - row, x)
    {
      assert m2[k] == m2[row..row + m.w][k - row];
    }
  }

  /** Once centre x has offered its whole range, every column stands after
      x: the columns its range does not reach are unaffected by it. */
  lemma TrackersDone(t: seq<Score>, m2: seq<uint8>, m: Matching, y: int, row: int, x: int, d: int)
    requires m.bw / 2 <= x && Hi(m, y, x) < d
    requires TrackersAt(t, m2, m, y, row, x, Lo(m, y, x), d)
    ensures ColumnsAt(t, m2, m, y, row, x + 1)
  {
    forall r | 0 <= r < m.w && !(Lo(m, y, x) <= x - r < d)
      ensures Tracked(m, y, r, x + 1) == Tracked(m, y, r, x)
      ensures Dmap2Value(m, y, r, x + 1) == Dmap2Value(m, y, r, x)
    {
      TrackerSkip(m, y, r, x);
    }
    var slice := m2[row..row + m.w];
    forall i | 0 <= i < m.w
      ensures slice[i] == Dmap2Value(m, y, i, x + 1)
    {
      assert slice[i] == m2[row + i];
    }
  }

  /** Moving on from block centre x to the next one, `next`. */
  lemma NextCentre(t: seq<Score>, m2: seq<uint8>, m: Matching, y: int, row: int, x: int, next: int)
    requires m.bw / 2 <= x && next == x + 1 && ColumnsAt(t, m2, m, y, row, x + 1)
    ensures ColumnsAt(t, m2, m, y, row, next) && Before(m, next, y) == Disp(m, x, y)
  {
  }

  /** The candidate scores of the matching built from a scene are the
      scene's correlation scores. */
  lemma SceneMatching(s: Scene, table: seq<uint16>)
    ensures forall y, x, d {:trigger CandidateScore(s, y, x, d)} ::
      MatchingOf(s, table).score(y, x, d) == CandidateScore(s, y, x, d)
  {
  }

  /** Row y of the left depth map (starting at `row`) while the centres
      before x have been written: those cells hold their final values, the
      rest still the memset zero. */
  ghost predicate RowAt(m1: seq<uint8>, m: Matching, y: int, row: int, x: int)
  {
    && 0 <= row && 0 <= x <= m.w && row + m.w <= |m1|
    && (forall k | row <= k < row + x :: m1[k] == Dmap1Value(m, k - row, y))
    && (forall k | row + x <= k < row + m.w :: m1[k] == 0)
  }

  /** Columns left of the first block centre keep the memset zero, which
      is their final value. */
  lemma RowStart(m1: seq<uint8>, m: Matching, y: int, row: int)
    requires 0 <= row && row + m.w <= |m1| && m.bw / 2 <= m.w
    requires forall k | row <= k < row + m.w :: m1[k] == 0
    ensures RowAt(m1, m, y, row, m.bw / 2)
  {
  }

  /** Likewise the columns right of the last block centre. */
  lemma RowFinish(m1: seq<uint8>, m: Matching, y: int, row: int)
    requires m.bw / 2 <= CentreEnd(m.w, m.bw) && RowAt(m1, m, y, row, CentreEnd(m.w, m.bw))
    ensures RowAt(m1, m, y, row, m.w)
  {
  }

  /** A row whose first block centre would already lie at or past the end
      (an even block one column wider than the row): the x loop does not
      run, and the row as it stands is the row after the loop. */
  lemma RowWithoutCentres(t: seq<Score>, m2: seq<uint8>, m1: seq<uint8>, m: Matching, y: int, row: int)
    requires CentreEnd(m.w, m.bw) < m.bw / 2
    requires ColumnsAt(t, m2, m, y, row, m.bw / 2) && RowAt(m1, m, y, row, m.bw / 2)
    ensures ColumnsAt(t, m2, m, y, row, CentreEnd(m.w, m.bw)) && RowAt(m1, m, y, row, m.w)
  {
    assert TrackerRow(m, y, CentreEnd(m.w, m.bw)) == TrackerRow(m, y, m.bw / 2);
    assert Dmap2Row(m, y, CentreEnd(m.w, m.bw)) == Dmap2Row(m, y, m.bw / 2);
  }

  /** The first block centre of the next scanline starts from the `disp`
      the last centre of this one left. */
  lemma NextScanline(m: Matching, y: int, next: int)
    requires next == y + 1 && m.bh / 2 <= y && m.bw / 2 < CentreEnd(m.w, m.bw)
    ensures Before(m, m.bw / 2, next) == Before(m, CentreEnd(m.w, m.bw), y)
  {
  }

  /** What `disp` holds after scanline y is what the first centre of
      scanline y + 1 starts from. */
  lemma ScanlineDone(m: Matching, w: int, bw: int, y: int, next: int, d: int)
    requires m.w == w && m.bw == bw && next == y + 1 && m.bh / 2 <= y
    requires bw / 2 < CentreEnd(w, bw) ==> d == Before(m, CentreEnd(w, bw), y)
    ensures bw / 2 < CentreEnd(w, bw) ==> d == Before(m, bw / 2, next)
  {
    if bw / 2 < CentreEnd(w, bw) {
      NextScanline(m, y, next);
    }
  }

  /** The trackers reset to -FLT_MAX and a zero row of the right depth map
      stand before the first block centre. */
  lemma TrackersReset(t: seq<Score>, m2: seq<uint8>, m: Matching, y: int, row: int)
    requires |t| == m.w && forall r | 0 <= r < m.w :: t[r] == NegFltMax
    requires 0 <= row && row + m.w <= |m2| && forall k | row <= k < row + m.w :: m2[k] == 0
    ensures ColumnsAt(t, m2, m, y, row, m.bw / 2)
  {
    assert t == TrackerRow(m, y, m.bw / 2);
    assert m2[row..row + m.w] == Dmap2Row(m, y, m.bw / 2);
  }

  /** Both depth maps once the scanlines above y have been matched: those
      rows hold their final values, every other row the memset zero. */
  ghost predicate MapsUpTo(m1: seq<uint8>, m2: seq<uint8>, m: Matching, y: int)
  {
    && |m1| == m.w * m.h && |m2| == m.w * m.h
    && forall x, yy | 0 <= x < m.w && 0 <= yy < m.h ::
         0 <= Flat(x, yy, m.w) < |m1| &&
         m1[Flat(x, yy, m.w)] == (if yy < y then Dmap1Value(m, x, yy) else 0) &&
         m2[Flat(x, yy, m.w)] == (if m.bh / 2 <= yy < y then Dmap2Value(m, yy, x, CentreEnd(m.w, m.bw)) else 0)
  }

  /** The memset maps: no scanline matched yet. */
  lemma MapsStart(m1: seq<uint8>, m2: seq<uint8>, m: Matching)
    requires |m1| == m.w * m.h && |m2| == m.w * m.h
    requires forall k | 0 <= k < |m1| :: m1[k] == 0
    requires forall k | 0 <= k < |m2| :: m2[k] == 0
    ensures MapsUpTo(m1, m2, m, m.bh / 2)
  {
    FlatInsideAll(m.w, m.h);
  }

  /** Scanline y, not matched yet, is still zero in both maps. */
  lemma RowStillZero(m1: seq<uint8>, m2: seq<uint8>, m: Matching, y: int, row: int)
    requires MapsUpTo(m1, m2, m, y) && 0 <= y < m.h && row == Flat(0, y, m.w)
    ensures 0 <= row && row + m.w <= |m1| == |m2|
    ensures forall k | row <= k < row + m.w :: m1[k] == 0 && m2[k] == 0
  {
    if 0 < m.w {
      FlatInside(m.w - 1, y, m.w, m.h);
    } else {
      MulMono(0, y, m.w);
    }
    forall k | row <= k < row + m.w
      ensures m1[k] == 0 && m2[k] == 0
    {
      assert k == Flat(k - row, y, m.w);
    }
  }

  /** Matching scanline y, which changes nothing outside its row, extends
      the finished part of both maps by that row. */
  lemma MapsStep(m1: seq<uint8>, m2: seq<uint8>, n1: seq<uint8>, n2: seq<uint8>, m: Matching,
                 y: int, next: int, row: int)
    requires MapsUpTo(m1, m2, m, y) && 0 <= y < m.h && next == y + 1 && row == Flat(0, y, m.w)
    requires |n1| == |m1| && |n2| == |m2|
    requires forall k | 0 <= k < |m1| && !(row <= k < row + m.w) :: n1[k] == m1[k]
    requires forall k | 0 <= k < |m2| && !(row <= k < row + m.w) :: n2[k] == m2[k]
    requires RowAt(n1, m, y, row, m.w)
    requires m.bh / 2 <= y && row + m.w <= |n2| && n2[row..row + m.w] == Dmap2Row(m, y, CentreEnd(m.w, m.bw))
    ensures MapsUpTo(n1, n2, m, next)
  {
    forall x, yy | 0 <= x < m.w && 0 <= yy < m.h
      ensures 0 <= Flat(x, yy, m.w) < |n1|
      ensures n1[Flat(x, yy, m.w)] == (if yy < next then Dmap1Value(m, x, yy) else 0)
      ensures n2[Flat(x, yy, m.w)] ==
        (if m.bh / 2 <= yy < next then Dmap2Value(m, yy, x, CentreEnd(m.w, m.bw)) else 0)
    {
      MapsStepAt(m1, m2, n1, n2, m, y, row, x, yy);
    }
  }

  /** MapsStep at pixel (x, yy). */
  lemma MapsStepAt(m1: seq<uint8>, m2: seq<uint8>, n1: seq<uint8>, n2: seq<uint8>, m: Matching,
                   y: int, row: int, x: int, yy: int)
    requires MapsUpTo(m1, m2, m, y) && 0 <= y < m.h && row == Flat(0, y, m.w)
    requires |n1| == |m1| && |n2| == |m2|
    requires forall k | 0 <= k < |m1| && !(row <= k < row + m.w) :: n1[k] == m1[k]
    requires forall k | 0 <= k < |m2| && !(row <= k < row + m.w) :: n2[k] == m2[k]
    requires RowAt(n1, m, y, row, m.w)
    requires m.bh / 2 <= y && row + m.w <= |n2| && n2[row..row + m.w] == Dmap2Row(m, y, CentreEnd(m.w, m.bw))
    requires 0 <= x < m.w && 0 <= yy < m.h
    ensures 0 <= Flat(x, yy, m.w) < |n1|
    ensures n1[Flat(x, yy, m.w)] == (if yy <= y then Dmap1Value(m, x, yy) else 0)
    ensures n2[Flat(x, yy, m.w)] == (if m.bh / 2 <= yy <= y then Dmap2Value(m, yy, x, CentreEnd(m.w, m.bw)) else 0)
  {
    var k := Flat(x, yy, m.w);
    if yy == y {
      assert k == row + x;
      assert n1[row + x] == Dmap1Value(m, row + x - row, y);
      assert n2[row + x] == n2[row..row + m.w][x];
    } else if yy < y {
      FlatRowOrder(x, yy, 0, y, m.w);
    } else {
      FlatRowOrder(m.w - 1, y, x, yy, m.w);
    }
  }

  /** Once every scanline has been matched, the maps are the two depth
      maps. */
  lemma MapsDone(m1: seq<uint8>, m2: seq<uint8>, m: Matching, y: int)
    requires MapsUpTo(m1, m2, m, y)
    requires m.h - m.bh / 2 <= y && (y == m.h - m.bh / 2 || y == m.bh / 2)
    ensures IsDmap1(m1, m) && IsDmap2(m2, m)
  {
  }
}
