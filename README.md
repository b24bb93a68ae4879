# Voronoi mosaic puzzle — a Dafny model

The application turns a picture into a mosaic of convex polygons and then
makes a puzzle out of it. The player swaps tile colours until every tile
shows its original colour again.

The mosaic generator runs as a pipeline of five stages:

1. **Flow field.** A 3x3 Sobel-style stencil runs over the grey levels of
   the image. Neighbours outside the image are clamped to the edge. The
   stencil gives a horizontal gradient, a vertical gradient and an edge
   strength for every pixel.
2. **Seeds.**
   - First come 32 fixed seeds: the four corners and seven rounds of four
     border points.
   - Then `floor(0.6 * numSeeds)` edge-weighted samples. A candidate pixel
     is found by inverse lookup over the cumulative weights
     `edgeStrength + 1`. After 30 failed attempts in the second half of the
     phase, the distance is relaxed to 0.7.
   - Then the remaining uniform samples. They are drawn in a box inset by
     the minimum distance. After 30 failed attempts, they are drawn over
     the whole image at distance 0.6.
   - A candidate is accepted only when it lies at least the current
     distance from every seed placed so far. The minimum distance is a
     fifteenth of the longer image side.
3. **Voronoi labels.** Every pixel gets the index of the nearest seed. On a
   tie, the first seed in the list wins.
4. **Cell boundaries.** For every seed, the boundary pixels of its cell are
   found. A boundary pixel is a pixel of the cell on the image border, or
   one with an 8-neighbour of another cell. The pixels are taken in
   row-major order. Their convex hull (a Graham scan with an `atan2`
   angle sort) is the polygon.
5. **Colours.** Each polygon's colour is the mean RGB of the cell's pixels,
   or grey 128 for a cell without pixels. Cells whose polygon has fewer
   than three vertices are dropped.

The modules follow these stages:

- `Geometry`: shared values (points, pixels, RGBA images, row-major grids)
  and the generator's numeric helpers.
- `FlowField`: stage 1.
- `Seeds`: stage 2.
- `Voronoi`: stage 3.
- `Hull`: the convex hull used in stage 4.
- `Cells`: stages 4 and 5, and the pipeline `generateVoronoiMosaic`.

The puzzle side has three modules:

- `Puzzle` (`app/state/gameUtils.ts`): the Fisher-Yates scramble with its
  repair pass, the solved test and the colour swap.
- `App` (`dist/app.js`): the game state with its click handler and hint
  toggle.
- `Selection` (`app/state/poyrender.ts`): the click-selection controller.

The generator exists in three copies:

- `app/components/mosaicGen.ts`, the TypeScript module;
- `dist/mosaicGen.js`, the bundled script the single-page app loads;
- `mosaicGen.js`, the original p5.js sketch.

The model follows the TypeScript copy. The other two copies run the same
stages with the same constants, and the table rows cite their lines too.
Where a copy behaves differently, "Left out" and the lemmas say so. The
dist copy returns the pixel `{0, 0}` when its weighted lookup finds
nothing. `Seeds.OriginFallbackNeverAccepted` shows that this candidate is
never accepted, because the corner (0, 0) is always a seed already.

Conventions of the model:

- **Randomness.** `Math.random()` is a parameter `draws: nat -> real`: the
  k-th call returns `draws(k)`, and `UnitDraws` says every draw lies in
  [0, 1). The sampling methods thread the index of the next unused draw.
- **Square root and arctangent.** `Math.sqrt` and `Math.atan2` are
  function parameters, `sqrt` and `atan2`.
- **Numbers.** JavaScript numbers are `real` for seeds, grey levels and
  colours, and `int` for pixel coordinates and labels.
- **Grids.** The nested arrays are `seq<seq<T>>`, indexed `g[y][x]`.
- **Products.** A product of two variables goes through a named function
  (`Geometry.Sq`, `Geometry.Times`, `FlowField.Scale`,
  `FlowField.Magnitude`, `Seeds.Along`). Lemmas such as
  `Geometry.TimesIsProduct` relate these functions to `*`. This keeps the
  verifier's arithmetic linear.

## Model

| member | source | states |
|---|---|---|
| Geometry.Constrain | app/components/mosaicGen.ts:27-29 | the result lies in [lo, hi]; it is v when v is in range, lo below the range and hi above it |
| Geometry.PixelIndexInBounds | app/components/mosaicGen.ts:342 | the byte offset `(y * width + x) * 4` of an in-image pixel and its three following channels lie inside the `width * height * 4` pixel buffer |
| FlowField.Stencil | app/components/mosaicGen.ts:337-349 | the two accumulations over the nine clamped neighbours, visited dy-major, equal the Sobel sums GradX and GradY |
| FlowField.StencilStep | app/components/mosaicGen.ts:338-347 | neighbour (dx, dy) is term `3 * (dy + 1) + dx + 1` of both sums, weighted by the source's wx and wy rules |
| FlowField.CalculateImageFlowData | app/components/mosaicGen.ts:322-360 | returns three width-by-height grids; at every pixel they hold GradX, GradY and `sqrt(gx * gx + gy * gy)` |
| FlowField.SolidIntensity | app/components/mosaicGen.ts:343 | on a solid-colour image every pixel has the grey level of pixel (0, 0) |
| FlowField.SolidStencilTerm | app/components/mosaicGen.ts:340-347 | on a solid-colour image each stencil term is the one grey level scaled by that term's weight |
| FlowField.SolidStencilSum | app/components/mosaicGen.ts:338-349 | on a solid-colour image the partial Sobel sums equal those of a uniform grey level |
| FlowField.UniformSumVanishes | app/components/mosaicGen.ts:344-345 | the nine horizontal weights, and the nine vertical weights, add up to zero |
| FlowField.SolidImageHasNoGradient | app/components/mosaicGen.ts:336-356 | a solid-colour image has gradient (0, 0) and edge strength `sqrt(0)` at every pixel |
| Seeds.MinDistance | app/components/mosaicGen.ts:81 | `minDistance` is non-negative |
| Seeds.MinDistancePositive | app/components/mosaicGen.ts:81 | `minDistance` is positive when either side is positive |
| Seeds.BorderRoundsLayout | app/components/mosaicGen.ts:88-95 | k border rounds are 4k points; block i is the top, bottom, left and right point at t = i / 8 |
| Seeds.FixedSeedsLayout | app/components/mosaicGen.ts:83-95 | there are exactly 32 fixed seeds: the four corners, then rounds 1 to 7 of border points |
| Seeds.PlaceFixedSeeds | app/components/mosaicGen.ts:83-95 | the pushes of the corner and border loop produce exactly the fixed seeds |
| Seeds.IsFarEnough | app/components/mosaicGen.ts:182-193 | the early-return loop answers true exactly when every seed is at squared distance at least `d * d` |
| Seeds.FarEnoughAtSmallerDistance | app/components/mosaicGen.ts:182-193 | a candidate accepted at distance d is accepted at any smaller non-negative distance, so the relaxed retries at 0.7 and 0.6 accept at least as much |
| Seeds.NotFarFromItself | app/components/mosaicGen.ts:182-193 | for d > 0, a candidate at the position of an existing seed is rejected |
| Seeds.TotalWeight | app/components/mosaicGen.ts:97-102 | the summing loop computes the sum of `edgeStrength + 1` over all pixels |
| Seeds.PickWeighted | app/components/mosaicGen.ts:111-123 | the inverse-lookup loops return the candidate WeightedPick defines for the draw, or none |
| Seeds.FirstAtLeastSpec | app/components/mosaicGen.ts:114-123 | the scan from (x, y) returns a pixel at or after (x, y) whose cumulative sum reaches rv, none earlier reaches it, and it returns none only when no later pixel reaches it |
| Seeds.WeightedPickIsFirstAtLeast | app/components/mosaicGen.ts:111-123 | the weighted candidate is inside the image, and it is the first row-major pixel whose cumulative weight reaches the draw; if there is none, no pixel reaches it |
| Seeds.LastCumSumIsTotal | app/components/mosaicGen.ts:97-102 | the cumulative sum at the last pixel is `totalWeight` |
| Seeds.PickFoundWithinTotal | app/components/mosaicGen.ts:111-123 | a draw no larger than `totalWeight` on a non-empty image always finds a candidate |
| Seeds.PrefixWeightNonNegative | app/components/mosaicGen.ts:97-102 | with non-negative edge strengths, every partial weight sum is non-negative |
| Seeds.DrawWithinTotal | app/components/mosaicGen.ts:5-7 | `random(totalWeight)` lies in [0, totalWeight] |
| Seeds.EveryDrawFindsCandidate | app/components/mosaicGen.ts:111-124 | on a non-empty image every `random(totalWeight)` draw finds a candidate, so the `candidate &&` guard never fails there |
| Seeds.OriginFallbackNeverAccepted | dist/mosaicGen.js:67-75 | the dist copy's `{0, 0}` fallback is never far enough once the 32 fixed seeds are placed and the distance is positive |
| Seeds.TryWeighted | app/components/mosaicGen.ts:109-128 | at most 30 attempts; on success, the attempt that succeeded was accepted and its pixel was pushed, and every earlier attempt was rejected; on failure, all 30 were rejected and the seeds are unchanged |
| Seeds.TryUniform | app/components/mosaicGen.ts:155-164 | the same three outcomes for uniform candidates `randomRange` in the box, two draws an attempt |
| Seeds.RandomIsRangeFromZero | app/components/mosaicGen.ts:5-11 | `random(max)` is `randomRange(0, max)`, so the whole-image fallback is a uniform attempt over [0, w) by [0, h) |
| Seeds.NumEdgeSeeds | app/components/mosaicGen.ts:103-104 | `floor(numSeeds * 0.6)` lies in [0, numSeeds] |
| Seeds.NumUniformSeeds | app/components/mosaicGen.ts:103-105 | the uniform count lies in [0, numSeeds], and the two counts add up to numSeeds |
| Seeds.SeparatedAfterPush | app/components/mosaicGen.ts:124-126 | pushing a seed keeps the separation facts of the earlier seeds |
| Seeds.EdgeRound | app/components/mosaicGen.ts:108-151 | a round ends in one of three ways. (1) Weighted attempt t at `minDistance` is accepted after t rejections, and its pixel is pushed. (2) All 30 attempts at `minDistance` are rejected, `i > numEdgeSeeds * 0.5`, and a retry attempt at `0.7 * minDistance`, drawn with the following draws, is accepted after the earlier retries were rejected. (3) Nothing is pushed: all 30 attempts were rejected, and when `i > numEdgeSeeds * 0.5` all 30 retries were rejected as well. The draws used are counted exactly |
| Seeds.UniformRound | app/components/mosaicGen.ts:153-178 | a round ends in one of three ways. (1) Uniform attempt t in the box inset by `minDistance` passes at `minDistance` after t failures, and it is pushed. (2) All 30 inset attempts fail, and an attempt over the whole image passes at `0.6 * minDistance` after the earlier fallbacks failed. (3) All 60 attempts fail and nothing is pushed. Each attempt uses two draws |
| Seeds.EdgePhase | app/components/mosaicGen.ts:108-151 | keeps the seeds it was given as a prefix and adds at most numEdge seeds, each an image pixel accepted at distance `0.7 * minDistance` or more; its trace of (seeds, draw position) states starts at the input and ends at the result, and each step is an outcome of EdgeRound for that round index (EdgeRoundOutcome) |
| Seeds.UniformPhase | app/components/mosaicGen.ts:153-178 | keeps the seeds it was given as a prefix and adds at most numUniform seeds, each accepted at `0.6 * minDistance` or more; its trace of states starts at the input and ends at the result, and each step is an outcome of UniformRound (UniformRoundOutcome) |
| Seeds.WeightedPushedUnique | app/components/mosaicGen.ts:109-128 | at most one weighted attempt is the first one accepted, so its index and the pushed list are unique, and none is accepted when all 30 are rejected |
| Seeds.EdgeRoundDeterministic | app/components/mosaicGen.ts:108-151 | an edge round has exactly one outcome for given draws: the seeds it leaves and the draw position it ends at are fixed |
| Seeds.UniformPushedUnique | app/components/mosaicGen.ts:155-164 | at most one uniform attempt is the first one accepted, and none is accepted when all 30 are rejected |
| Seeds.TwoBoxesDeterministic | app/components/mosaicGen.ts:153-178 | the two stages of a uniform round, for any boxes and distances, fix the seeds left and the attempts used |
| Seeds.UniformRoundDeterministic | app/components/mosaicGen.ts:153-178 | a uniform round has exactly one outcome for given draws |
| Seeds.EdgeTraceStep | app/components/mosaicGen.ts:108-151 | appending the state after one more edge round keeps a valid edge trace |
| Seeds.UniformTraceStep | app/components/mosaicGen.ts:153-178 | appending the state after one more uniform round keeps a valid uniform trace |
| Seeds.EdgeTraceAgree | app/components/mosaicGen.ts:108-151 | two edge traces from the same start agree on every state |
| Seeds.UniformTraceAgree | app/components/mosaicGen.ts:153-178 | two uniform traces from the same start agree on every state |
| Seeds.SeedRunDeterministic | app/components/mosaicGen.ts:79-180 | two runs of the sampling on the same edge grid, seed count and draws end with the same seeds, so the draws fix the seeds |
| Seeds.GenerateFlowBasedSeeds | app/components/mosaicGen.ts:79-180 | the seeds are the end of a run of the sampling from draw 0 (SeedRun): the edge phase starts from the fixed seeds and makes NumEdgeSeeds rounds at `minDistance` with the total weight of the edge grid, and the uniform phase continues from its last state for NumUniformSeeds rounds; returns between 32 and `32 + numSeeds` seeds, whatever numSeeds is; the first 32 are the fixed seeds; then come at most NumEdgeSeeds edge seeds, then at most the rest as uniform seeds, with the separations above |
| Seeds.AllSampledSeedsSeparated | app/components/mosaicGen.ts:124-177 | every sampled seed lies at least `0.6 * minDistance` from all seeds before it |
| Voronoi.NearestIsUnique | app/components/mosaicGen.ts:207-215 | the strict `<` scan's choice is well defined: at most one seed is the first nearest |
| Voronoi.ClosestSeed | app/components/mosaicGen.ts:205-216 | the label of a pixel is the first seed of least squared distance, or -1 when there are no seeds |
| Voronoi.ComputeVoronoi | app/components/mosaicGen.ts:195-220 | a height-by-width label grid whose every entry is the label of its pixel |
| Hull.LowestOf | app/components/mosaicGen.ts:275-280 | the start index lies among the points scanned |
| Hull.InsertByAngleStable | app/components/mosaicGen.ts:281-285 | inserting a point puts it in front of every point of equal angle, and the points of each angle keep their order |
| Hull.SortByAngleStable | app/components/mosaicGen.ts:281-285 | for every angle, the points with that angle appear in the sorted list in their input order |
| Hull.LowestOfIsFirstMinimum | app/components/mosaicGen.ts:275-280 | no point comes before the start in (y, x) order, and every earlier point comes strictly after it, so ties keep the first |
| Hull.LowestIndex | app/components/mosaicGen.ts:275-280 | the loop finds the start point LowestOf defines |
| Hull.InsertByAngle | app/components/mosaicGen.ts:281-285 | inserting into an angle-sorted list gives an angle-sorted permutation of the list plus the new point |
| Hull.SortByAngle | app/components/mosaicGen.ts:281-285 | the angle sort is a permutation, sorted by `atan2` about the start point |
| Hull.ScanOrder | app/components/mosaicGen.ts:281-286 | `sorted` after `unshift` is a permutation of the points, of the same length |
| Hull.PopNonLeft | app/components/mosaicGen.ts:289-299 | the pops leave a prefix of the stack, keep at least one point, and leave the last two points turning strictly left towards c |
| Hull.ConvexHull | app/components/mosaicGen.ts:273-303 | the method computes GrahamHull: the input for fewer than 3 points, otherwise the scan over the angle order |
| Hull.PushKeepsLeftTurns | app/components/mosaicGen.ts:289-300 | popping then pushing c keeps every consecutive triple a strict left turn |
| Hull.ScanLeftTurns | app/components/mosaicGen.ts:288-301 | the scan preserves the all-left-turns invariant |
| Hull.ScanShape | app/components/mosaicGen.ts:287-301 | the scan keeps the bottom of the stack and at least two points, and grows the stack by at most one point per input point |
| Hull.ScanEmbeds | app/components/mosaicGen.ts:287-301 | the hull is a subsequence of the scan order |
| Hull.GrahamHullProperties | app/components/mosaicGen.ts:273-303 | for 3 or more points, the hull has between 2 and `|points|` vertices; it starts at the lowest point, is a subsequence of the angle order, takes every vertex from the input and turns strictly left at every vertex |
| Hull.SmallInputUnchanged | app/components/mosaicGen.ts:274 | fewer than 3 points are returned unchanged |
| Cells.HasForeignNeighbour | app/components/mosaicGen.ts:243-256 | the nested loops with `continue` and the two `break`s report exactly whether an in-image 8-neighbour carries another label |
| Cells.IsBoundaryPixel | app/components/mosaicGen.ts:238-257 | the test of one pixel says true exactly when the boundary mask marks the pixel |
| Cells.BoundaryMaskAt | app/components/mosaicGen.ts:238-257 | the mask marks a pixel exactly when it belongs to the cell and lies on the image border or next to a pixel of another cell |
| Cells.MarkedFromMembers | app/components/mosaicGen.ts:236-263 | the row-major scan from (x, y) over a mask collects exactly the marked pixels at or after (x, y) |
| Cells.MarkedFromSorted | app/components/mosaicGen.ts:236-263 | the pixels that scan collects are in strictly row-major order |
| Cells.BoundaryListSpec | app/components/mosaicGen.ts:236-263 | a pixel is in the collected list exactly when it is in the image, belongs to the cell and is on the border or next to another cell, and the list is strictly row-major |
| Cells.BoundaryPixels | app/components/mosaicGen.ts:235-263 | the scan collects exactly BoundaryList |
| Cells.ExtractCellBoundary | app/components/mosaicGen.ts:234-271 | returns no vertices when the cell has no boundary pixel, otherwise the convex hull of its boundary pixels |
| Cells.LowestOfScanSorted | app/components/mosaicGen.ts:275-280 | in a row-major list the start point is the first pixel |
| Cells.CellBoundaryProperties | app/components/mosaicGen.ts:234-303 | every polygon vertex is a boundary pixel of the cell and the polygon turns strictly left; with 3 or more vertices it starts at the first boundary pixel in scan order |
| Cells.CalculateCellColor | app/components/mosaicGen.ts:305-320 | the loops compute MeanColor: the per-channel sums divided by the pixel count, or grey 128 when the cell has no pixel |
| Cells.ChannelSumWithin | app/components/mosaicGen.ts:306-317 | if every pixel's channel lies in [lo, hi], the channel sum lies between `lo * count` and `hi * count` |
| Cells.MeanColorBetween | app/components/mosaicGen.ts:305-320 | if channel c of every pixel of a non-empty cell lies in [lo, hi], so does channel c of its colour; a cell without pixels is grey 128 |
| Cells.MeanColorInRange | app/components/mosaicGen.ts:305-320 | every channel of every cell colour lies in [0, 255] |
| Cells.ExtractVoronoiCells | app/components/mosaicGen.ts:222-232 | the loop over the seed indices computes VoronoiCells |
| Cells.KeptMembers | app/components/mosaicGen.ts:225-230 | the loop that skips some indices keeps at most one value per index, and a value is kept exactly when some index in range gives it; for the cells, a cell is listed exactly when it is the polygon and colour of a seed whose polygon has 3 or more vertices |
| Cells.NoSeedCell | app/components/mosaicGen.ts:226-227 | a seed whose polygon has fewer than 3 vertices gives no cell |
| Cells.SomeSeedCell | app/components/mosaicGen.ts:228-229 | a seed whose polygon has 3 or more vertices gives the cell of that polygon and its mean colour |
| Cells.SeedCellWellFormed | app/components/mosaicGen.ts:226-229 | a kept seed's cell has 3 or more vertices, all on its boundary and in the image, turns strictly left and has a colour in range |
| Cells.VoronoiCellsProperties | app/components/mosaicGen.ts:222-232 | there are at most as many cells as seeds, and every cell is well formed |
| Cells.GenerateVoronoiMosaic | app/components/mosaicGen.ts:71-77 | the polygons are exactly the VoronoiCells of a label grid in which every pixel carries its nearest-seed label, for seeds that a run of the sampling (SeedRun) placed on the edge strengths of the image; at most `32 + numSeeds` polygons, each with 3 or more vertices inside the image, turning strictly left, with a colour in range |
| Puzzle.Colors | app/state/gameUtils.ts:114-124 | the colour column has one entry per tile, in order |
| Puzzle.SwapColors | app/state/gameUtils.ts:127-131 | tiles i and j exchange colours; every polygon and every other tile stay as they were |
| Puzzle.SwapTwiceIsIdentity | app/state/gameUtils.ts:127-131 | swapping the same pair twice restores the tiles |
| Puzzle.SwapPermutesColors | app/state/gameUtils.ts:127-131 | a swap permutes the colour multiset, and swapping a tile with itself changes nothing |
| Puzzle.SwapRearranges | app/state/gameUtils.ts:78-89 | a swap keeps "same polygons, colours permuted" with respect to the original tiles |
| Puzzle.SwapCells | app/state/gameUtils.ts:127-131 | the in-place swap leaves the array equal to SwapColors of its old contents |
| Puzzle.CheckIfSolved | app/state/gameUtils.ts:114-124 | true exactly when both lists have the same length and every tile shows the original tile's colour |
| Puzzle.RandomIndexInRange | app/state/gameUtils.ts:79 | `floor(random * m)` is an index in [0, m) |
| Puzzle.ApplySwapsRearranges | app/state/gameUtils.ts:67-111 | any list of swaps keeps every polygon in place and permutes the colours |
| Puzzle.SwapsSnoc | app/state/gameUtils.ts:81-88 | one more swap applies one more SwapColors and touches its two tiles |
| Puzzle.ApplySwapsAppend | app/state/gameUtils.ts:67-111 | applying the shuffle's swaps and then the repair's swaps is applying their concatenation |
| Puzzle.TouchedAppend | app/state/gameUtils.ts:67-111 | the tiles touched by a concatenation are those touched by either part |
| Puzzle.GetScrambledVersion | app/state/gameUtils.ts:67-111 | the swaps are the Fisher-Yates swaps of the draws followed by the repair swaps of the tiles those left unmarked, and the result is the input with them applied; they keep the polygons and permute the colours; `swapped` is exactly the set of tiles they touch, and that is every tile |
| Puzzle.ShuffleStep | app/state/gameUtils.ts:78-88 | one Fisher-Yates step swaps tile `n - 1 - k` with the in-range tile `floor(draws(k) * (n - k))` and marks both |
| Puzzle.ShufflePass | app/state/gameUtils.ts:77-89 | the array ends up as its old contents with n - 1 swaps applied; swap k exchanges tile `n - 1 - k` with tile `floor(draws(k) * (n - k))`; `swapped` is exactly the set of tiles they touch, which is every tile but possibly the first |
| Puzzle.RepairSkip | app/state/gameUtils.ts:93-94 | a tile already marked is left alone |
| Puzzle.RepairSwap | app/state/gameUtils.ts:94-106 | a tile not yet marked is swapped with tile `(i + 1) % n`, and both are marked |
| Puzzle.RepairPass | app/state/gameUtils.ts:91-108 | the array ends up as its old contents with the repair swaps applied: in order, every tile i still unmarked when the loop reaches it is swapped with `(i + 1) % n`; the marks grow by exactly the tiles touched, and afterwards every tile is marked |
| Puzzle.RepairAfterShuffle | app/state/gameUtils.ts:91-108 | after the Fisher-Yates pass the repair makes no swap when tile 0 is marked, and otherwise the single swap of tile 0 with tile `1 % n` |
| Puzzle.RepairPartnerWithoutRedraw | app/state/gameUtils.ts:95-99 | with two or more tiles the first partner `(i + 1) % n` already differs from i, so the redraw loop never runs |
| Puzzle.OneTileRepairNeverLeaves | app/state/gameUtils.ts:93-108 | with one tile the redraw loop never leaves, however many draws it gets |
| Puzzle.RedrawOfOneTile | app/state/gameUtils.ts:96-99 | with n = 1 every redraw `floor(u * 1)` is 0, so the loop condition stays true |
| App.CheckIfSolved | dist/app.js:42-46 | true exactly when every scrambled tile shows the colour of the original tile at its index |
| App.HintDiff | dist/app.js:89-91 | no flags while hints are hidden; otherwise one flag per tile, true exactly where the colours differ |
| App.NoDifferenceIffSolved | dist/app.js:89-91 | with hints shown, no tile is flagged exactly when the puzzle is solved |
| App.GameState.constructor | dist/app.js:248-262 | a new game starts with nothing selected and hints hidden |
| App.GameState.HandleCellClick | dist/app.js:124-145 | hides the hint; the first click selects, clicking the selected tile again deselects, and another tile swaps the two colours, clears the selection and wins exactly when solved; the tiles stay a rearrangement |
| App.GameState.ToggleHint | dist/app.js:147-151 | flips the hint flag and changes nothing else |
| Selection.Highlight | app/state/poyrender.ts:14-18 | the same polygons; the ones whose id is the clicked id are highlighted and the others are unchanged |
| Selection.ClearHighlights | app/state/poyrender.ts:24 | the same polygons, none highlighted |
| Selection.HighlightOnlyClicked | app/state/poyrender.ts:12-19 | with distinct ids and nothing highlighted before, exactly the clicked polygon is highlighted, or none when no id matches |
| Selection.SelectionKeepsColors | app/state/poyrender.ts:28-31 | no branch changes a polygon's colour; the third branch only clears highlights |
| Selection.SelectionController.constructor | app/state/poyrender.ts:8-9 | the controller starts with no selection |
| Selection.SelectionController.HandleSelection | app/state/poyrender.ts:11-34 | with no selection, it selects the clicked id and shows it highlighted; otherwise, whether the same or another polygon was clicked, it clears the selection and shows nothing highlighted |

## The other generator copies

The other two generator copies match the members above as follows:

| stage | dist/mosaicGen.js | mosaicGen.js |
|---|---|---|
| random, randomRange, constrain | 5-8 | p5 built-ins |
| isFarEnough | 10-17 | 141-156 |
| calculateImageFlowData | 19-41 | 449 onwards |
| generateFlowBasedSeeds | 43-105 | 18-138 |
| computeVoronoi | 107-121 | 158-193 |
| convexHull | 123-143 | 268-309 |
| extractCellBoundary | 145-166 | 215-266 |
| calculateCellColor | 168-180 | 311-329 |
| extractVoronoiCells | 182-190 | 195-213 |
| generateVoronoiMosaic | 194-199 | 7-16 |

## Left out

- `cropAndResize` (`app/state/gameUtils.ts:4-64`, `dist/app.js:5-21`, `mosaicGen.js:374` onwards): canvas drawing and image decoding. The model takes the decoded RGBA buffer as its input image.
- `calculateCellEdgeProperties` of the p5 sketch: nothing in the pipeline calls it.
- The `angle` and `magnitude` grids of the flow field. Nothing reads `angle`. `magnitude` holds the same values as `edgeStrength`, which is modelled. `Math.atan2` on the gradient is therefore not modelled.
- `Math.sqrt`, `Math.atan2` and `Math.random` are parameters. The model proves nothing that depends on their values, apart from `UnitDraws` for the draws.
- Floating point: numbers are exact reals, so rounding in the cumulative sums, the distances and the colour means is not modelled.
- The dist copy's colour is an `rgb(...)` string built with `Math.ceil`. The p5 copy's colour is a p5 `color()` object. The model keeps the TypeScript `{r, g, b}` mean.
- p5's `random(min, max)` swaps its bounds when `min > max`. For an image whose sides are shorter than about `2 * minDistance`, this gives a different point from the same draw than `randomRange` does. The model follows `randomRange`.
- The dist copy's empty-image case differs. With `w = h = 0`, `minDistance` is 0, and its `{0, 0}` fallback is accepted where the TypeScript copy's null candidate is not. The model follows the TypeScript copy.
- The boundary `Set<string>` is a row-major `seq<Pixel>`. The scan visits each pixel once, so the set holds the pixels in that order without duplicates, as `Cells.BoundaryListSpec` shows.
- The hull's filter `p !== start` compares object identity. Every boundary pixel is a distinct object, so the model removes the start by its index.
- `Array.prototype.sort` is library code. The model's angle sort is a stable insertion sort. It yields the same order whenever the comparator is consistent, and ties keep their input order (`Hull.SortByAngleStable`).
- Polygon vertices are integer pixels. JavaScript would hold them as numbers, but the boundary pixels are always whole.
- Tile colours are of a type `C` with equality. The TypeScript copy compares colour objects by identity, and the dist copy compares strings.
- Puzzle.GetScrambledVersion: also returns the set `swapped`, which the source keeps local, and the list of swaps made, as a ghost value. The dist copy does not mark tiles in its repair pass. This changes nothing, since after the shuffle only tile 0 can still be unmarked (`Puzzle.RepairAfterShuffle`).
- App.HintDiff: requires the original to be at least as long as the scrambled list, like App.CheckIfSolved below; with a shorter original the dist copy's `state.originalCells[i].color` would throw.
- App.CheckIfSolved: requires the original to be at least as long as the scrambled list. The dist copy reads `original[i].color` without a length check, and that read would throw on a shorter original. The app always passes lists of equal length.
- App.GameState.HandleCellClick: the `gamePhase === 'playing'` guard of the click listener, the rendering, the 500 ms win timer and the confetti are not modelled. `won` stands for the scheduled win screen.
- Rendering, DOM events, audio, timers, the p2p layer, the image store and the React components are outside the model.
- A 2x2 image with numSeeds = 0 gives no cells. Each of the four corner seeds owns one pixel. Its boundary is that single pixel, so its polygon has fewer than three vertices and is dropped (`Cells.KeptMembers`, `Cells.NoSeedCell`).

## Findings

| source | as written | input that shows it | evidently intended | confidence | as-written member | corrected member |
|---|---|---|---|---|---|---|
| app/state/gameUtils.ts:96-99 | with one tile, the Fisher-Yates pass marks nothing. The repair partner `(0 + 1) % 1` is tile 0 itself, and every redraw `Math.floor(Math.random() * 1)` is 0 again, so `while (j === i)` never ends | `getScrambledVersion` on a list of one cell | the repair pass ends. The dist copy swaps tile 0 with itself and returns, leaving the one colour in place | not executed | Puzzle.RepairPartnerAsWritten, Puzzle.OneTileRepairNeverLeaves | Puzzle.RepairPass |
