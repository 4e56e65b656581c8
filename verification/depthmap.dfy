/** generateDepthmap: the whole pipeline from two RGBA images to one
    post-processed depth map a quarter of their size in each dimension. */
module Depthmap {
  import opened Common
  import opened Ranges
  import opened Correlation
  import opened Selection
  import opened Pyramid
  import opened Propagator
  import opened Matcher
  import opened Postprocessing

  /** How disparity ranges are chosen: the full range at every pixel, or
      ranges propagated from a match at half the resolution. */
  datatype SearchMethod = Brute | Hierarchic

  /** The block dimensions generateDepthmap accepts: odd, and more than 1. */
  predicate BlockSizeValid(bw: int, bh: int)
  {
    bw % 2 == 1 && bh % 2 == 1 && bw != 1 && bh != 1
  }

  /** The inputs for which generateDepthmap returns a depth map: valid block
      dimensions, and image dimensions that are multiples of four. */
  predicate Accepted(w: int, h: int, bw: int, bh: int)
  {
    BlockSizeValid(bw, bh) && w % 4 == 0 && h % 4 == 0
  }

  /** The intermediate images and tables of one run. The half-resolution
      entries are empty for a brute-force search. */
  datatype Stages = Stages(grey0: seq<real>, grey1: seq<real>,
                           half0: seq<real>, half1: seq<real>, halfTable: seq<uint16>,
                           coarse1: seq<uint8>, coarse2: seq<uint8>,
                           table: seq<uint16>, map1: seq<uint8>, map2: seq<uint8>)

  /** `g` is the quarter-size luminance image of the RGBA image `img`. */
  ghost predicate IsGrey(g: seq<real>, img: seq<uint8>, w: int, h: int)
  {
    && |g| == (w / 4) * (h / 4)
    && forall x, y | 0 <= x < w / 4 && 0 <= y < h / 4 ::
         0 <= Flat(x, y, w / 4) < |g| && g[Flat(x, y, w / 4)] == Grey(img, w, x, y)
  }

  /** `g2` is the half-size image of the w-by-h image `g`. */
  ghost predicate IsHalf(g2: seq<real>, g: seq<real>, w: int, h: int)
  {
    && |g2| == (w / 2) * (h / 2)
    && forall x, y | 0 <= x < w / 2 && 0 <= y < h / 2 ::
         0 <= Flat(x, y, w / 2) < |g2| && g2[Flat(x, y, w / 2)] == Mean2x2(g, w, x, y)
  }

  /** How the range table of a run comes about: for a hierarchic search,
      from the halves of the greyscale images, the brute-force table at
      half size with half the limit, the depth maps matched there and the
      ranges propagated from them; for a brute-force search, the
      brute-force table. Disparity limits are passed as `unsigned short`. */
  ghost predicate TableStage(st: Stages, w: nat, h: nat, bw: nat, bh: nat, dispLimit: nat, select: SearchMethod,
                             sqrt: real -> real, out1: int -> uint8, out2: int -> uint8)
  {
    var w4, h4, w8, h8 := w / 4, h / 4, w / 8, h / 8;
    && (select == Hierarchic ==>
          && IsHalf(st.half0, st.grey0, w4, h4) && IsHalf(st.half1, st.grey1, w4, h4)
          && IsBruteTable(st.halfTable, w8, h8, bw, bh, Trunc16(dispLimit / 2))
          && IsDmap1(st.coarse1, MatchingOf(Scene(st.half0, st.half1, w8, h8, bw, bh, sqrt), st.halfTable))
          && IsDmap2(st.coarse2, MatchingOf(Scene(st.half0, st.half1, w8, h8, bw, bh, sqrt), st.halfTable))
          && IsPropagatedTable(st.table, Coarse(st.coarse1, st.coarse2, out1, out2), w4, h4, bw, bh, Trunc16(dispLimit)))
    && (select == Brute ==> IsBruteTable(st.table, w4, h4, bw, bh, Trunc16(dispLimit)))
  }

  /** What each stage of generateDepthmap computes from the previous ones:
      the greyscale images, the range table, then the two depth maps
      matched under the table. */
  ghost predicate Pipeline(st: Stages, img0: seq<uint8>, img1: seq<uint8>, w: nat, h: nat,
                           bw: nat, bh: nat, dispLimit: nat, select: SearchMethod,
                           sqrt: real -> real, out1: int -> uint8, out2: int -> uint8)
  {
    var w4, h4 := w / 4, h / 4;
    && IsGrey(st.grey0, img0, w, h) && IsGrey(st.grey1, img1, w, h)
    && TableStage(st, w, h, bw, bh, dispLimit, select, sqrt, out1, out2)
    && FinalMaps(st, w4, h4, bw, bh, sqrt)
  }

  /** The final matching at full resolution: the two depth maps of
      zncc2way over the greyscale images with the stage's range table. */
  ghost predicate FinalMaps(st: Stages, w4: nat, h4: nat, bw: nat, bh: nat, sqrt: real -> real)
  {
    && IsDmap1(st.map1, MatchingOf(Scene(st.grey0, st.grey1, w4, h4, bw, bh, sqrt), st.table))
    && IsDmap2(st.map2, MatchingOf(Scene(st.grey0, st.grey1, w4, h4, bw, bh, sqrt), st.table))
    && InBuffer(st.map1)
  }

  /** generateDepthmap: NULL for rejected block or image dimensions;
      otherwise the post-processed depth map of the two images, a
      `width/4` by `height/4` image. Intermediate buffers are summarised
      by `st`. */
  method GenerateDepthmap(img0: array<uint8>, img1: array<uint8>, w: nat, h: nat, bw: nat, bh: nat,
                          dispLimit: nat, select: SearchMethod,
                          sqrt: real -> real, out1: int -> uint8, out2: int -> uint8)
    returns (r: Option<array<uint8>>, ghost st: Stages)
    requires img0.Length == 4 * w * h && img1.Length == 4 * w * h
    requires Accepted(w, h, bw, bh) ==> 1 <= dispLimit
    requires Accepted(w, h, bw, bh) && select == Brute ==> bw <= w / 4 + 1 && bh / 2 <= h / 4
    requires Accepted(w, h, bw, bh) && select == Hierarchic ==> bw <= w / 8 + 1 && bh / 2 <= h / 8
    ensures r.None? <==> !Accepted(w, h, bw, bh)
    ensures r.Some? ==>
      && fresh(r.value)
      && Pipeline(st, img0[..], img1[..], w, h, bw, bh, dispLimit, select, sqrt, out1, out2)
      && r.value[..] == PostProcessed(st.map1, st.map2, w / 4, h / 4, dispLimit)
  {
    st := Stages([], [], [], [], [], [], [], [], [], []);
    if bw % 2 != 1 || bh % 2 != 1 || bw == 1 || bh == 1 {
      return None, st;
    }
    var converted0 := Blend4x4ToGrey(img0, w, h);
    var converted1 := Blend4x4ToGrey(img1, w, h);
    if converted0.None? || converted1.None? {
      return None, st;
    }
    var grey0, grey1 := converted0.value, converted1.value;
    var w4, h4 := w / 4, h / 4;
    var dLimits;
    dLimits, st := RangeTable(grey0, grey1, w, h, bw, bh, dispLimit, select, sqrt, out1, out2);
    MulMono(3, bh, bw);
    var depthMap0, depthMap1 := Zncc2Way(grey0, grey1, w4, h4, bw, bh, dLimits, sqrt);
    assert InBuffer(depthMap0[..]);
    var ppo := PostProcess(depthMap0, depthMap1, w4, h4, dispLimit);
    st := st.(map1 := depthMap0[..], map2 := depthMap1[..]);
    return Some(ppo), st;
  }

  /** The range table of generateDepthmap's `select` branch. */
  method RangeTable(grey0: array<real>, grey1: array<real>, w: nat, h: nat, bw: nat, bh: nat,
                    dispLimit: nat, select: SearchMethod,
                    sqrt: real -> real, out1: int -> uint8, out2: int -> uint8)
    returns (dLimits: array<uint16>, ghost st: Stages)
    requires grey0.Length == (w / 4) * (h / 4) && grey1.Length == (w / 4) * (h / 4)
    requires BlockSizeValid(bw, bh)
    requires select == Brute ==> bw <= w / 4 + 1 && bh / 2 <= h / 4
    requires select == Hierarchic ==> bw <= w / 8 + 1 && bh / 2 <= h / 8
    ensures st.grey0 == grey0[..] && st.grey1 == grey1[..] && st.table == dLimits[..]
    ensures TableStage(st, w, h, bw, bh, dispLimit, select, sqrt, out1, out2)
    ensures SafeRanges(dLimits[..], w / 4, h / 4, bw, bh)
  {
    var w4, h4 := w / 4, h / 4;
    st := Stages(grey0[..], grey1[..], [], [], [], [], [], [], [], []);
    if select == Hierarchic {
      dLimits, st := HierarchicTable(grey0, grey1, w, h, bw, bh, dispLimit, sqrt, out1, out2);
    } else {
      dLimits := InitializeDisparity(w4, h4, bw, bh, Trunc16(dispLimit));
      BruteTableIsSafe(dLimits[..], w4, h4, bw, bh, Trunc16(dispLimit));
      st := st.(table := dLimits[..]);
    }
  }

  /** The hierarchic branch: match the half-size images over the full
      half-size range, then propagate the result to a range table for the
      quarter-size images. */
  method HierarchicTable(grey0: array<real>, grey1: array<real>, w: nat, h: nat, bw: nat, bh: nat,
                         dispLimit: nat, sqrt: real -> real, out1: int -> uint8, out2: int -> uint8)
    returns (dLimits: array<uint16>, ghost st: Stages)
    requires grey0.Length == (w / 4) * (h / 4) && grey1.Length == (w / 4) * (h / 4)
    requires BlockSizeValid(bw, bh)
    requires bw <= w / 8 + 1 && bh / 2 <= h / 8
    ensures st.grey0 == grey0[..] && st.grey1 == grey1[..] && st.table == dLimits[..]
    ensures TableStage(st, w, h, bw, bh, dispLimit, Hierarchic, sqrt, out1, out2)
    ensures SafeRanges(dLimits[..], w / 4, h / 4, bw, bh)
  {
    var w4, h4 := w / 4, h / 4;
    var convHalf0 := Blend2x2(grey0, w4, h4);
    var convHalf1 := Blend2x2(grey1, w4, h4);
    assert w4 / 2 == w / 8 && h4 / 2 == h / 8;
    var halfLimits := InitializeDisparity(w / 8, h / 8, bw, bh, Trunc16(dispLimit / 2));
    BruteTableIsSafe(halfLimits[..], w / 8, h / 8, bw, bh, Trunc16(dispLimit / 2));
    MulMono(3, bh, bw);
    var depthMap0, depthMap1 := Zncc2Way(convHalf0, convHalf1, w / 8, h / 8, bw, bh, halfLimits, sqrt);
    dLimits := DisparityLimits2x2(depthMap0, depthMap1, out1, out2, w4, h4, bw, bh, Trunc16(dispLimit));
    PropagatedTableIsSafeForAnyLimit(dLimits[..], Coarse(depthMap0[..], depthMap1[..], out1, out2), w4, h4, bw, bh, Trunc16(dispLimit));
    st := Stages(grey0[..], grey1[..], convHalf0[..], convHalf1[..], halfLimits[..],
                 depthMap0[..], depthMap1[..], dLimits[..], [], []);
  }

  /** Every pixel of the returned depth map on its one-pixel border is
      black: no block centre lies there, so the left map holds 0 and the
      check keeps 0, and the fill passes leave the border alone. */
  lemma BorderIsBlack(st: Stages, w: nat, h: nat, bw: nat, bh: nat, dispLimit: nat,
                      sqrt: real -> real, x: int, y: int)
    requires Accepted(w, h, bw, bh) && 1 <= dispLimit && 1 <= w / 4 && 1 <= h / 4
    requires FinalMaps(st, w / 4, h / 4, bw, bh, sqrt)
    requires 0 <= x < w / 4 && 0 <= y < h / 4 && (x == 0 || y == 0 || x == w / 4 - 1 || y == h / 4 - 1)
    ensures 0 <= Flat(x, y, w / 4) < (w / 4) * (h / 4)
    ensures PostProcessed(st.map1, st.map2, w / 4, h / 4, dispLimit)[Flat(x, y, w / 4)] == 0
  {
    var w4, h4 := w / 4, h / 4;
    var m := MatchingOf(Scene(st.grey0, st.grey1, w4, h4, bw, bh, sqrt), st.table);
    assert IsDmap1(st.map1, m) && |st.map2| == w4 * h4 && InBuffer(st.map1);
    BorderPixelIsBlack(st.map1, st.map2, m, dispLimit, x, y);
  }

  /** BorderIsBlack for the depth maps of one matching. */
  lemma BorderPixelIsBlack(m1: seq<uint8>, m2: seq<uint8>, m: Matching, dispLimit: int, x: int, y: int)
    requires IsDmap1(m1, m) && |m2| == |m1| && InBuffer(m1) && 1 <= dispLimit && 1 <= m.w
    requires 3 <= m.bw && 3 <= m.bh
    requires 0 <= x < m.w && 0 <= y < m.h && (x == 0 || y == 0 || x == m.w - 1 || y == m.h - 1)
    ensures 0 <= Flat(x, y, m.w) < m.w * m.h
    ensures PostProcessed(m1, m2, m.w, m.h, dispLimit)[Flat(x, y, m.w)] == 0
  {
    assert !Interior(x, y, m.w, m.h, m.bw, m.bh);
    assert m1[Flat(x, y, m.w)] == Dmap1Value(m, x, y) == 0;
    PostProcessedMeaning(m1, m2, m.w, m.h, dispLimit, x, y);
    CheckedMeaning(m1, m2, dispLimit, Flat(x, y, m.w));
  }
}
