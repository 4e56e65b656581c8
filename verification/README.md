# Stereo depth map: a verified model of the serial pipeline

This project models the serial CPU implementation of a stereo depth-map
generator (`depthmap_c.c`). The generator takes two RGBA images of the same
scene, seen from a left and a right camera, and produces a depth map a
quarter of their size in each direction.

The pipeline runs in this order:

1. Each image is shrunk by averaging every 4x4 block of pixels and converted
   to luminance (`blend4x4_cnvrtToGreyscale`).
2. A table gives every pixel a range of candidate disparities (horizontal
   shifts). There are two search methods:
   - brute force: every range is `[0, min(dispLimit, x - bx/2)]`
     (`initializeDisparity`);
   - hierarchic: the greyscale images are halved again (`blend_2x2`),
     matched there with half the limit, and the ranges are propagated from
     the two coarse depth maps (`disparityLimits_2x2`).
3. `zncc2way` matches the images scanline by scanline. For every block
   centre it scores each candidate disparity by zero-mean normalised
   cross-correlation (ZNCC) over a `bx` by `by` block. The block samples and
   deviation norms come from a per-scanline cache (`scanline_cacheBlkData`).
   The matcher builds two maps:
   - the left depth map keeps the best disparity of each centre;
   - the right depth map keeps, per column, the disparity of the best pair
     that lands on it.
4. `postProcess` produces the output. It keeps a left disparity only when
   the right map agrees within 1, rescales it to 0..255, and then makes two
   passes that fill black pixels with the average of their non-black
   neighbours.

The model keeps the source's form:

- Buffers are arrays.
- Loops are `while` loops with invariants.
- Each method is proved against a specification function over sequences.
- Properties of those functions are proved as lemmas.

Machine-specific behaviour is written out:

- stores into `unsigned char` and `unsigned short` keep the low bits (`Trunc8`, `Trunc16`);
- scores are IEEE-like: a zero denominator gives an infinity or NaN, and `>` is false on NaN;
- the running maximum starts at `-FLT_MAX`.

Because of that starting value, the model also states a quirk of the
matcher. When no candidate of a centre scores above `-FLT_MAX` (for
example, an empty range or only NaN scores), the left depth map gets the
disparity left over from the previous centre.

Modules, one file each:

| module | file | models |
|---|---|---|
| `Common` | common.dfy | machine integer types, flat indexing |
| `Scores` | scores.dfy | the score domain, running argmax as `BestIndex` |
| `Pyramid` | pyramid.dfy | `blend4x4_cnvrtToGreyscale`, `blend_2x2` |
| `BlockCache` | cache.dfy | `scanline_cacheBlkData` |
| `Correlation` | correlation.dfy | the unrolled dot product and the ZNCC score |
| `Ranges` | ranges.dfy | range tables, `initializeDisparity` |
| `Propagator` | propagator.dfy | `disparityLimits_2x2` |
| `Selection` | selection.dfy | what the two depth maps of `zncc2way` hold |
| `Matcher` | matcher.dfy | the loops of `zncc2way` |
| `Postprocessing` | postprocess.dfy | `postProcess` |
| `Depthmap` | depthmap.dfy | `generateDepthmap` |

## Model

| member | source | states |
|---|---|---|
| Common.Trunc8 | depthmap_c.c:268 | an `unsigned char` store keeps values below 256, never grows a non-negative value, and differs from it by a multiple of 256 |
| Common.Trunc16 | depthmap_c.c:460-461 | an `unsigned short` store keeps values below 65536, never grows a non-negative value, and differs from it by a multiple of 65536 |
| Scores.Quotient | depthmap_c.c:247 | `summed / (devL * devR)` is the real quotient when the denominator is non-zero; otherwise +inf, -inf or NaN by the sign of the numerator (NaN exactly for 0/0) |
| Scores.GreaterIsStrictOrder | depthmap_c.c:250 | the float `>` used for selection is irreflexive, asymmetric and transitive |
| Scores.GreaterIsTotal | depthmap_c.c:250 | away from NaN, of two different scores one is greater |
| Scores.BestIndexStep | depthmap_c.c:250-253 | one step of the running argmax: candidate b becomes the best exactly when it beats the best so far |
| Scores.BestIndexIsFirstArgmax | depthmap_c.c:203-253 | the running argmax started at -FLT_MAX finds nothing exactly when no score beats -FLT_MAX; otherwise it finds the first candidate whose score no other candidate beats |
| Scores.FirstArgmaxIsUnique | depthmap_c.c:250-253 | the first maximal candidate is unique |
| Scores.BestIndexSkipsNaN | depthmap_c.c:250 | a NaN score never changes the running argmax |
| Pyramid.RunSumBounds | depthmap_c.c:42-46 | a sum of n channel bytes along a row lies in [0, 255n] |
| Pyramid.BlockSumBounds | depthmap_c.c:41-47 | a sum over m rows of four pixels lies in [0, 1020m] |
| Pyramid.ChannelAverageInRange | depthmap_c.c:49-51 | a channel sum shifted right by 4 is a byte value |
| Pyramid.GreyInRange | depthmap_c.c:54 | every greyscale value lies in [0, 255] |
| Pyramid.UniformBlockGrey | depthmap_c.c:40-54 | an image of one colour turns into the luminance of that colour |
| Pyramid.UniformChannelAverage | depthmap_c.c:41-51 | the 4x4 average of a constant channel is that constant |
| Pyramid.RunSumConstant | depthmap_c.c:42-46 | n equal bytes sum to n times the byte |
| Pyramid.Blend4x4ToGrey | depthmap_c.c:16-58 | NULL exactly when a dimension is not divisible by 4; otherwise a (w/4)*(h/4) image whose pixel (x, y) is the luminance 0.2126r + 0.7152g + 0.0722b of the 4x4 block's channel sums shifted right by 4 |
| Pyramid.BlockChannels | depthmap_c.c:36-47 | the three accumulators hold the red, green and blue sums of the 4x4 block |
| Pyramid.RunSumStep | depthmap_c.c:43-45 | the RGBA offsets read by the loop are inside the image, and each adds its channel's next byte |
| Pyramid.Mean2x2 | depthmap_c.c:70-76 | four times the resized pixel is the sum of the four source pixels |
| Pyramid.Mean2x2Between | depthmap_c.c:70-77 | a resized pixel lies between any bounds of its four source pixels |
| Pyramid.PairSumOf | depthmap_c.c:70-75 | the two nested loops add up the 2x2 block |
| Pyramid.Blend2x2 | depthmap_c.c:62-81 | a (w/2)*(h/2) image whose pixel (x, y) is the mean of the 2x2 block at (2x, 2y) |
| BlockCache.BlockSamples | depthmap_c.c:127-130 | a block contributes bx*by samples |
| BlockCache.SquareSumStep | depthmap_c.c:131 | `squared_deviations` grows by the square of each new sample |
| BlockCache.TailPastColumnSums | depthmap_c.c:109 | the deviation tail starts past the `width` cells of column sums |
| BlockCache.CacheHoldsColumnSums | depthmap_c.c:171-172 | for a block at most one column wider than the image the unsigned cache size does not wrap: the tail start is non-negative and the cache has room for the `width` column sums |
| BlockCache.SampleSlotBelowTail | depthmap_c.c:109-130 | every sample slot lies below the deviation tail |
| BlockCache.BlockBase | depthmap_c.c:130 | block x's samples fill the run `(x-bx/2)*bx*by` onwards, below the tail |
| BlockCache.SlotsDisjoint | depthmap_c.c:130 | different blocks or samples get different slots |
| BlockCache.SampleAt | depthmap_c.c:129-130 | sample `(y-lineTop)*bx + x` of block i is the image pixel minus the block mean |
| BlockCache.RowOfBlock | depthmap_c.c:127-130 | one row of a block is a contiguous run of the image minus the mean |
| BlockCache.SumColumns | depthmap_c.c:97-105 | after the memset and the column loop, cell x holds the sum of column x over the block's rows; the tail is untouched |
| BlockCache.SumRow | depthmap_c.c:102-104 | one row of the column loop adds that row to every column sum |
| BlockCache.SumWindow | depthmap_c.c:114-117 | the window loop adds bx consecutive column sums |
| BlockCache.StoreBlockMeans | depthmap_c.c:109-119 | `blkMean[x]` holds the block mean of every block centre; other cells are untouched |
| BlockCache.SerialiseBlock | depthmap_c.c:125-133 | block i's mean-subtracted samples land in its slots, `squared_deviations` is their square sum, and nothing outside the run changes |
| BlockCache.SerialiseRow | depthmap_c.c:128-132 | one block row's samples are stored and their squares added; nothing else changes |
| BlockCache.CachedRun | depthmap_c.c:130 | a cached block is the contiguous run of its samples |
| BlockCache.ScanlineBlocks | depthmap_c.c:124 | the scanline has one block per centre in [bx/2, width-bx/2) |
| BlockCache.ScanlineDeviations | depthmap_c.c:124 | one deviation norm per block centre |
| BlockCache.CachedBlocks | depthmap_c.c:130 | the cache's runs, one per block centre |
| BlockCache.CachedDeviations | depthmap_c.c:137 | the cache's tail cells, one per block centre |
| BlockCache.FilledIsCached | depthmap_c.c:124-138 | filling the cache centre by centre gives exactly the scanline's blocks and deviation norms |
| BlockCache.FilledCentre | depthmap_c.c:130-137 | in a filled cache, run i is block bx/2+i and tail cell i its deviation |
| BlockCache.CachedBlock | depthmap_c.c:201-245 | the matcher's reads of block x and of its tail cell are in bounds and give the block's samples and deviation norm |
| BlockCache.EarlierBlocksKept | depthmap_c.c:124-133 | serialising block i leaves the blocks already cached intact |
| BlockCache.TailWriteKeepsBlocks | depthmap_c.c:137 | writing deviation norms into the tail leaves every cached block intact |
| BlockCache.CacheBlockData | depthmap_c.c:85-139 | afterwards the cache holds every block of the scanline (mean-subtracted, row-major) and, in its tail, each block's deviation norm `sqrtf` of its square sum; this holds for blocks up to one column wider than the image |
| BlockCache.CacheCentres | depthmap_c.c:96-138 | for a block no wider than the image, the column sums, the means and the serialised blocks make the finished scanline cache |
| BlockCache.CacheColumnSums | depthmap_c.c:96-124 | for a block one column wider than the image, the column sums alone are the finished cache, because the mean and deviation loops visit no centre |
| BlockCache.NoCentreIsCached | depthmap_c.c:113-124 | with `bx == width+1` there is no block centre, so any cache of the right size holds every block of the scanline |
| BlockCache.FillCache | depthmap_c.c:109-138 | the mean and deviation stages fill the cache; tail cells outside the centres are untouched |
| BlockCache.StoreDeviations | depthmap_c.c:123-138 | from the block means, the last loop serialises every block and overwrites each mean with its deviation norm |
| BlockCache.DeviationStored | depthmap_c.c:137 | storing block i's deviation norm extends the filled prefix to i+1 |
| Correlation.RunDotStep | depthmap_c.c:241-244 | each trailing product extends the dot product by one term |
| Correlation.RunDotIsDot | depthmap_c.c:217-245 | the products accumulated over [lo, hi) are the dot product of the two runs |
| Correlation.DotSelf | depthmap_c.c:131 | the dot product of a block with itself is its square sum, which the deviation norm uses |
| Correlation.DotSymmetric | depthmap_c.c:226 | the dot product does not depend on the order of the two blocks |
| Correlation.ScoreOfParts | depthmap_c.c:247 | the quotient of the cached dot product and norms is the candidate's ZNCC score |
| Correlation.BlockScoreOfDot | depthmap_c.c:247 | a quotient of the blocks' dot product is their block score |
| Correlation.DotProduct | depthmap_c.c:217-245 | the unrolled loop with four partial sums and a trailing loop returns the dot product of the left run and the right run shifted by d*bx*by |
| Correlation.QuadSums | depthmap_c.c:217-236 | the four-way loop stops fewer than four elements before the end, holding the dot product so far |
| Correlation.CachedCandidate | depthmap_c.c:201-245 | candidate (x, d) reads exactly its two blocks and their two deviation norms from the caches |
| Correlation.CandidateOffsets | depthmap_c.c:223-224 | the right block starts d whole blocks before the left one, still inside the cache |
| Correlation.ScoreCandidate | depthmap_c.c:201-247 | the score computed from the two caches is the candidate's ZNCC score |
| Ranges.BruteTableIsSafe | depthmap_c.c:379-389 | every brute-force range starts at 0 and ends at min(limit, x-bx/2), so no candidate block starts left of column 0 |
| Ranges.InitializeDisparity | depthmap_c.c:370-391 | every block centre gets range [0, min(limit, x-bx/2)] and every other pixel [0, 0] |
| Ranges.InitializeRow | depthmap_c.c:380-388 | one scanline of the loop sets the ranges of that row and leaves the rest |
| Propagator.At | depthmap_c.c:418-445 | a coarse-map read is a byte: the map's cell inside the buffer |
| Propagator.ScanMaxBounds | depthmap_c.c:443-448 | the scan over the second map only raises the maximum, past every sample read |
| Propagator.ScanMinBounds | depthmap_c.c:443-451 | the scan over the second map only lowers the minimum, below every sample read |
| Propagator.PropagateIsSafe | depthmap_c.c:417-459 | every propagated range is non-negative, ordered, and twice its top fits within x-bx/2 |
| Propagator.PropagateCovers | depthmap_c.c:417-452 | the range contains the seed, its +1, the first-map samples two pixels to each side and every second-map sample, each wherever the border clip allows |
| Propagator.ZeroSeedDoublesLimit | depthmap_c.c:422-461 | a coarse 0 seeds `dispLimit-1`, so away from the left border the stored top is twice dispLimit, when neither first-map sample two pixels away nor any scanned second-map sample exceeds dispLimit |
| Propagator.ScanMaxAtMost | depthmap_c.c:443-448 | samples below a bound leave the maximum at that bound |
| Propagator.ZeroLimitEmptiesRange | depthmap_c.c:422-461 | with dispLimit 0 a coarse 0 seeds -1, so the stored low end wraps to 65534 above the top and the range is empty |
| Propagator.PropagatedTableIsSafe | depthmap_c.c:396-466 | every propagated range is even at both ends, ordered and ends at most at x-bx/2 |
| Propagator.PropagateTopIsSafe | depthmap_c.c:417-459 | for any limit the top of a range is non-negative and twice it fits within x-bx/2 |
| Propagator.PropagatedTableIsSafeForAnyLimit | depthmap_c.c:396-466 | for any dispLimit and any image width, the stored top of every range ends at most at x-bx/2, so the table is safe for the matcher |
| Propagator.PropagatedPixelIsSafe | depthmap_c.c:412-461 | the same for one block centre |
| Propagator.StoredEnds | depthmap_c.c:460-461 | doubling and storing the clipped ends keeps them even and ordered within x-bx/2 |
| Propagator.PixelLimits | depthmap_c.c:417-459 | the per-pixel code computes the propagated range of the pixel's coarse cell |
| Propagator.PropagateAtParts | depthmap_c.c:426-459 | the range is the clipped result of the seed bounds widened by the two scans |
| Propagator.DisparityLimits2x2 | depthmap_c.c:396-466 | a table of `width*height*4*2` entries whose every block centre holds twice the ends of its propagated range |
| Propagator.PropagateRow | depthmap_c.c:414-462 | one scanline of the loop propagates the ranges of that row |
| Propagator.StoreRange | depthmap_c.c:460-461 | storing a pixel's doubled ends extends the propagated prefix by one pixel |
| Propagator.StoreKeeps | depthmap_c.c:460-461 | the two stores of one pixel leave the cells of every other pixel unchanged |
| Selection.PairVisited | depthmap_c.c:208-257 | a pair that beats -FLT_MAX for the right map was visited: x-r lies in x's range |
| Selection.Dmap1Meaning | depthmap_c.c:203-268 | at a block centre the left map holds the first maximal disparity of the range; when no candidate beats -FLT_MAX it holds the value written at the previous centre |
| Selection.Dmap2ValueMeaning | depthmap_c.c:192-257 | column r of the right map is 0 when no pair for r beats -FLT_MAX; otherwise it holds x-r for the first best-scoring visited pair (x, x-r) |
| Selection.TrackerStep | depthmap_c.c:255-257 | one pair updates column r's best score and disparity exactly when it beats the best so far |
| Selection.TrackerSkip | depthmap_c.c:208-255 | a disparity outside x's range leaves column r alone |
| Selection.TrackerRow | depthmap_c.c:192-256 | the tracker array holds each column's best score |
| Selection.Dmap2Row | depthmap_c.c:257 | the right-map row holds each column's selected disparity |
| Selection.OfferedOne | depthmap_c.c:255-257 | offering candidate d updates exactly column x-d of the tracker and the row |
| Selection.TrackersStart | depthmap_c.c:208 | the columns before centre x are complete when its range loop starts |
| Selection.TrackersDone | depthmap_c.c:208-267 | after the range loop, the columns reflect every centre up to x |
| Selection.NextCentre | depthmap_c.c:197-269 | moving to the next centre carries over `disp` |
| Selection.SceneMatching | depthmap_c.c:247 | the matching's scores are the scene's ZNCC scores |
| Selection.RowStart | depthmap_c.c:163 | a zeroed row is the left map's row before any centre |
| Selection.RowFinish | depthmap_c.c:197 | the pixels right of the last centre stay 0 |
| Selection.RowWithoutCentres | depthmap_c.c:197 | when the first centre already lies past the end of the row (an even block one column wider than the row), the row and trackers before the x loop are the row and trackers after it |
| Selection.NextScanline | depthmap_c.c:185-197 | `disp` at the first centre of a scanline is `disp` after the last centre of the previous one |
| Selection.ScanlineDone | depthmap_c.c:185-197 | the same, carried from the end of one scanline to the start of the next |
| Selection.TrackersReset | depthmap_c.c:192-194 | setting every tracker to -FLT_MAX on a zeroed right-map row starts the columns |
| Selection.MapsStart | depthmap_c.c:163-164 | the two memsets leave both maps as they are before the first scanline |
| Selection.RowStillZero | depthmap_c.c:163-164 | a scanline not yet matched is still zero in both maps |
| Selection.MapsStep | depthmap_c.c:185-270 | finishing a scanline extends both maps' matched prefix by one row |
| Selection.MapsStepAt | depthmap_c.c:185-270 | pixel form of the step: rows up to y hold their map values, later rows 0 |
| Selection.MapsDone | depthmap_c.c:185-270 | after the last scanline the two arrays are the left and right depth maps |
| Matcher.Offer | depthmap_c.c:255-257 | the tracker and right-map update for one candidate; nothing outside the row changes |
| Matcher.TryDisparity | depthmap_c.c:209-258 | one candidate's score updates maxVal and disp as the running argmax and offers the candidate to its column |
| Matcher.ScanRange | depthmap_c.c:203-267 | after the range loop, disp is the centre's first maximal disparity, or unchanged when none beats -FLT_MAX |
| Matcher.MatchColumn | depthmap_c.c:199-267 | reads the range from the table and scans it |
| Matcher.StoreDisparity | depthmap_c.c:268 | the left map's cell at the centre gets disp as an `unsigned char`; nothing else changes |
| Matcher.VisitCentre | depthmap_c.c:197-269 | one centre updates disp, its left-map cell and the trackers, and keeps every left disparity within its buffer offset |
| Matcher.MatchRow | depthmap_c.c:197-269 | the centre loop fills the left map's row and the column trackers of one scanline |
| Matcher.MatchScanline | depthmap_c.c:185-270 | one scanline (cache, reset, centres) extends both maps by one row |
| Matcher.Zncc2Way | depthmap_c.c:145-279 | returns two fresh maps that are exactly the left and right depth maps of the scene under the range table, and every left disparity stays within the pixel's flat offset |
| Postprocessing.RescaleWithinLimit | depthmap_c.c:308 | the rescale `l * 255.5 / dispLimit` truncated is `(511 l) / (2 dispLimit)`, is monotone up to the limit, maps 0 to 0 and the limit to 255 |
| Postprocessing.CheckedMeaning | depthmap_c.c:298-309 | a checked pixel is non-zero only when the left disparity is non-zero and the right map at `k - l` agrees within 1; an agreeing disparity within the limit is rescaled |
| Postprocessing.SumBound | depthmap_c.c:334-352 | the sum of the non-zero neighbours lies between their count and 255 times it |
| Postprocessing.Average4Zero | depthmap_c.c:334-352 | the neighbour average is 0 exactly when all four neighbours are 0 |
| Postprocessing.Average4Between | depthmap_c.c:334-352 | a non-zero average lies between any bounds of the non-zero neighbours |
| Postprocessing.FillPass | depthmap_c.c:327-358 | a fill pass produces an image of the destination's size |
| Postprocessing.FillPassAt | depthmap_c.c:327-358 | pixel (x, y) of a fill pass, by coordinates |
| Postprocessing.FillPassMeaning | depthmap_c.c:327-358 | a fill pass keeps the destination's one-pixel border and every non-zero pixel, and a black interior pixel stays black exactly when its four neighbours are black |
| Postprocessing.FillBetween | depthmap_c.c:329-352 | a filled pixel lies between any bounds of its non-zero neighbours |
| Postprocessing.AfterPasses | depthmap_c.c:326-363 | after each pass the two buffers swap roles |
| Postprocessing.PostProcessed | depthmap_c.c:283-367 | the returned image has width*height pixels |
| Postprocessing.PostProcessedMeaning | depthmap_c.c:296-363 | the output border is the checked border; a checked non-zero interior pixel is kept; an interior 0 means its neighbours were 0 in the checked image and after the first pass |
| Postprocessing.CheckMaps | depthmap_c.c:296-311 | the consistency loop writes the checked image |
| Postprocessing.CheckPixel | depthmap_c.c:298-309 | one pixel of the consistency check |
| Postprocessing.FillImage | depthmap_c.c:327-358 | the fill loops write one fill pass into `fill`, leaving its border |
| Postprocessing.FillRow | depthmap_c.c:328-357 | one row of the fill loop |
| Postprocessing.NeighbourAverage | depthmap_c.c:330-352 | the four ifs and the division compute the average of the non-zero neighbours, 0 when there are none |
| Postprocessing.PostProcess | depthmap_c.c:283-367 | returns a fresh image: the checked, rescaled map after two fill passes |
| Depthmap.GenerateDepthmap | depthmap_c.c:474-575 | NULL exactly when a block dimension is even or 1, or an image dimension is not divisible by 4; otherwise a fresh (w/4)*(h/4) image that is the post-processed pair of depth maps of the greyscale images, matched under the brute-force or the propagated table as `select` says |
| Depthmap.RangeTable | depthmap_c.c:503-547 | the range table of the chosen search method, safe for the matcher |
| Depthmap.HierarchicTable | depthmap_c.c:503-543 | halves the images, matches them with half the limit and propagates the coarse maps into a safe table |
| Depthmap.BorderIsBlack | depthmap_c.c:474-575 | every pixel on the output's one-pixel border is 0 |
| Depthmap.BorderPixelIsBlack | depthmap_c.c:163-363 | the same for the depth maps of any matching with blocks of at least 3 |

## Left out

- Memory allocation failure (each `malloc` returning NULL) is not modelled. Every buffer exists.
- Timing calls, `printf`/`fprintf` diagnostics and the `NDEBUG` score statistics are left out. They do not affect results.
- The OpenCL implementations and the program driver (image loading and saving, argument parsing) are not part of this model.
- Single-precision arithmetic is modelled over exact reals. This covers the ZNCC score, the block means, the 2x2 averages and the luminance weights.
- The unrolled dot product reassociates float additions. Over reals it equals the plain dot product, so the model does not capture rounding differences between the two orders.
- `sqrtf` is a function parameter `sqrt` with no properties assumed.
- Matcher.Zncc2Way: requires `1 <= bx <= width+1`, an odd `by`, `bx*by >= 3` and `by/2 <= height`. The source computes the cache size `(width-(bx-1))*bx*by` in unsigned arithmetic, which wraps once `bx > width+1`. Its scanline bound `height - by/2` wraps once `by/2 > height`. With `bx == width+1` the model, like the source, visits no block centre and returns the zeroed maps.
- Postprocessing.PostProcess: requires width and height of at least 1. With a height of 0, `height-1` wraps in unsigned arithmetic, and with a width of 0, `width-1` does.
- Postprocessing.PostProcess: requires every left disparity to be at most its flat index. Otherwise `dMap2[y*width+x-pixel_l]` reads before the buffer. The matcher's output meets this.
- Postprocessing.PostProcess: requires `dispLimit >= 1`. With 0 the rescale divides by zero.
- Postprocessing.RescaleWithinLimit: the rescale is the exact quotient `l*255.5/dispLimit` truncated. Single-precision rounding of that quotient can only cross an integer for very large limits, which is not modelled.
- A rescaled value above 255 is modelled as keeping its low eight bits (`Trunc8`). In C, that float-to-`unsigned char` conversion is undefined.
- A fill average of no neighbours (`0/0.0f`) is modelled as 0. The branch is taken only when every neighbour is black.
- A fill average is the exact integer quotient. With at most four neighbours of at most 255, the float quotient cannot round across an integer.
- Propagator.DisparityLimits2x2: reads outside a coarse map's buffer are unknown bytes, the parameters `out1` and `out2`. The `halfx-2`, `halfx+2` and `halfx-i` offsets can leave the buffer. Such reads are undefined in C.
- Propagator.DisparityLimits2x2: states nothing about table entries outside the block centres. The source leaves those `malloc`ed entries uninitialised.
- Depthmap.GenerateDepthmap: requires `bx <= width/4 + 1` and `by/2 <= height/4`, the bounds of zncc2way on the quarter-size images. For hierarchic search it requires `bx <= width/8 + 1` and `by/2 <= height/8`, the same bounds on the eighth-size images. Past these bounds the source's cache size or scanline bound wraps.
- Depthmap.GenerateDepthmap: requires `dispLimit >= 1` when the dimensions are accepted, for the rescale of postProcess. Rejected dimensions return NULL for any dispLimit.
- The `unsigned int` dispLimit is passed to the `unsigned short` parameters of `initializeDisparity` and `disparityLimits_2x2` truncated to sixteen bits (`Trunc16`).
