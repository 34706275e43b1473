# Drawing board: stroke features and the drawing view, in Dafny

The app records handwritten strokes on an Android view and turns them into a
feature vector for a character classifier. This project models and verifies
the two parts that carry the logic:

- **The feature pipeline** (`NormalizeCoordinates.kt`):
  - `processList` flattens the strokes and drops the pen state;
  - `interpolatePointsToTargetCount` resamples the points to 100;
  - `normalizePointsToWindow` places them in a 64 x 64 window with padding 2;
  - `processSingleListDouble` computes the features: the centre of gravity
    (CG), the CG, size and distance of each quadrant, and the distances of
    every point from the CG and from the first point;
  - the unused linear resampler `normalizeTo100Points`.
- **The drawing view** (`DrawingView.kt`): the strokes on screen, undo,
  redo, clearing, and the recording of touch samples with their pen states.

Modules, one per file:

| file | module | contents |
|---|---|---|
| numerics.dfy | `Numerics` | `kotlin.math.round` (ties to even), `roundToInt`, rounding to two decimals, the laws assumed of `sqrt` |
| points.dfy | `Points` | the sample and point values |
| flatten.dfy | `Flattening` | `flatten`, `convertToPairList`, `flattenCoordinates` |
| resample.dfy | `Resampling` | both resamplers |
| window.dfy | `WindowFit` | `normalizePointsToWindow` |
| features.dfy | `FeatureExtraction` | `computeCG`, `calculateDistance`, `processSingleListDouble` |
| pipeline.dfy | `Pipeline` | `processList` and the stages chained |
| drawing_view.dfy | `Drawing` | the view as a value (`Board`) and as a class (`DrawingView`) |

How the code is modelled:

- Loops that build lists become methods with loop invariants:
  `NormalizeTo100Points`, `SubdivideSegments`,
  `InterpolatePointsToTargetCount` and `SplitIntoQuadrants`. Each one is
  proved equal to a function, and the properties are proved about that
  function.
- `ProcessSingleListDouble` and `ProcessList` have no loop of their own. They
  are methods because they call the loop methods, and each is proved equal to
  a function (`Features`, `CleanCoordinates`).
- `DrawingView` is a class with sequence fields. Each of its methods is
  proved to turn `State()` into `Undo`, `Redo`, `Clear` or `Touch` of
  the old state.
- Kotlin `Double` and `Float` become `real`, and `Int` becomes `int`.
- `sqrt` is a parameter. The properties that need it assume only
  `SqrtLaws`: `sqrt(0) = 0`, and `sqrt` is non-negative on non-negative
  numbers.

Where the code and its documentation disagree, the model follows the code:

- `interpolatePointsToTargetCount` returns a list of fewer than two points
  unchanged. It does not report an error.
- `processSingleListDouble` returns an empty list for no points. It does not
  return 18 zeros.
- The last input point is not always kept. When the number of segments
  divides the target count, the point appended after the loops is cut off
  again (`InterpolationDropsLast`). The list then ends at the last
  interpolated point of the last segment. Rounding can land that point on
  the endpoint: from (0,0) to (1,0) the 100th point is (1,0)
  (`InterpolationRoundsOntoEndpoint`). Often it does
  not: a stroke from (0,0) to (100,0) ends at (99,0)
  (`InterpolationMissesEndpoint`).
- `ACTION_DOWN` resets only the drawn geometry. It does not clear the recorded
  coordinates, so a stroke keeps whatever samples the current path already held
  (`GestureCommitsStroke`).

## Model

| member | source | states |
|---|---|---|
| Numerics.RoundHalfEven | app/src/main/java/com/example/drawingboardiwithjc/NormalizeCoordinates.kt:12 | `kotlin.math.round`: within 1/2 of its argument, exact on integers, and even on ties |
| Numerics.Round2 | app/src/main/java/com/example/drawingboardiwithjc/NormalizeCoordinates.kt:12 | `round(v * 100) / 100` is within 0.005 of `v`, maps 0 to 0 and keeps non-negative values non-negative |
| Numerics.RoundToInt | app/src/main/java/com/example/drawingboardiwithjc/NormalizeCoordinates.kt:98 | `roundToInt` is within (-1/2, 1/2] of its argument |
| Numerics.RoundToIntBetween | app/src/main/java/com/example/drawingboardiwithjc/NormalizeCoordinates.kt:73-74 | rounding a value that lies between two integers gives a result between them |
| Numerics.RoundToIntOfInt | app/src/main/java/com/example/drawingboardiwithjc/NormalizeCoordinates.kt:98 | rounding an integral value gives that integer back |
| Flattening.Flatten | app/src/main/java/com/example/drawingboardiwithjc/NormalizeCoordinates.kt:118 | the flattened drawing has as many samples as all strokes together and starts with the first stroke |
| Flattening.FlattenAppend | app/src/main/java/com/example/drawingboardiwithjc/NormalizeCoordinates.kt:118 | adding a stroke to the drawing appends its samples to the flattened list |
| Flattening.FlattenConcat | app/src/main/java/com/example/drawingboardiwithjc/NormalizeCoordinates.kt:118 | flattening distributes over concatenating drawings |
| Flattening.ConvertToPairList | app/src/main/java/com/example/drawingboardiwithjc/NormalizeCoordinates.kt:124-126 | same length; the i-th pair is the position of the i-th sample |
| Flattening.FlattenCoordinates | app/src/main/java/com/example/drawingboardiwithjc/NormalizeCoordinates.kt:155-157 | twice the length; entries 2i and 2i+1 are the coordinates of point i |
| Flattening.UnflattenFlattenCoordinates | app/src/main/java/com/example/drawingboardiwithjc/NormalizeCoordinates.kt:155-157 | pairing the flat list back up gives the original points: nothing is lost, duplicated or reordered |
| Resampling.SourceIndex | app/src/main/java/com/example/drawingboardiwithjc/NormalizeCoordinates.kt:68 | output index 0 maps to source position 0 and output index 99 to the last source position, `n - 1` |
| Resampling.LowerIndex | app/src/main/java/com/example/drawingboardiwithjc/NormalizeCoordinates.kt:68-69 | `index.toInt()` is a valid index with `lower <= index < lower + 1` |
| Resampling.SourceIndexBounds | app/src/main/java/com/example/drawingboardiwithjc/NormalizeCoordinates.kt:68 | `i * (n - 1) / 99` lies in `[0, n - 1]` for `i < 100` |
| Resampling.UpperIndex | app/src/main/java/com/example/drawingboardiwithjc/NormalizeCoordinates.kt:70 | the upper neighbour is a valid index, and equal to the lower index or one above it |
| Resampling.Lerp | app/src/main/java/com/example/drawingboardiwithjc/NormalizeCoordinates.kt:73-74 | the blend `(1 - f) * a + f * b` lies between `a` and `b`, and is `a` when `f = 0` |
| Resampling.Blend | app/src/main/java/com/example/drawingboardiwithjc/NormalizeCoordinates.kt:73-74 | the rounded blend lies between `a` and `b`, and is `a` when `f = 0` |
| Resampling.ConvexCombinationBetween | app/src/main/java/com/example/drawingboardiwithjc/NormalizeCoordinates.kt:73-74 | a convex combination of two integers lies between them |
| Resampling.Resample100At | app/src/main/java/com/example/drawingboardiwithjc/NormalizeCoordinates.kt:67-76 | each output point lies, per axis, between its two neighbouring input points |
| Resampling.Resample100Endpoints | app/src/main/java/com/example/drawingboardiwithjc/NormalizeCoordinates.kt:63-80 | output point 0 is the first input point and output point 99 the last |
| Resampling.NormalizeTo100Points | app/src/main/java/com/example/drawingboardiwithjc/NormalizeCoordinates.kt:63-80 | exactly 100 points, each the blend of its neighbours; the endpoints are kept |
| Resampling.PointsPerSegment | app/src/main/java/com/example/drawingboardiwithjc/NormalizeCoordinates.kt:87 | `maxOf(1, targetCount / totalSegments)` is at least 1 and the largest `k` with `k * segments <= targetCount` when that is at least 1 |
| Resampling.OffsetBetween | app/src/main/java/com/example/drawingboardiwithjc/NormalizeCoordinates.kt:95-98 | an interpolated, rounded coordinate lies between the segment's end coordinates |
| Resampling.SegmentPoint | app/src/main/java/com/example/drawingboardiwithjc/NormalizeCoordinates.kt:95-98 | every inserted point lies, per axis, between the two segment ends |
| Resampling.Subdivision | app/src/main/java/com/example/drawingboardiwithjc/NormalizeCoordinates.kt:92-99 | one segment contributes `pointsPerSegment` points: its start, then the interpolated points in order |
| Resampling.SubdivisionPrefix | app/src/main/java/com/example/drawingboardiwithjc/NormalizeCoordinates.kt:94-99 | each inner loop step appends the next interpolated point |
| Resampling.Subdivided | app/src/main/java/com/example/drawingboardiwithjc/NormalizeCoordinates.kt:89-100 | the segment loops give `segments * pointsPerSegment` points starting at the first input point; with one point per segment they are the input without its last point |
| Resampling.Interpolation | app/src/main/java/com/example/drawingboardiwithjc/NormalizeCoordinates.kt:82-114 | fewer than two points come back unchanged; otherwise exactly `targetCount` points, starting with the first input point |
| Resampling.SubdivideSegments | app/src/main/java/com/example/drawingboardiwithjc/NormalizeCoordinates.kt:89-100 | the nested loops produce exactly `Subdivided` |
| Resampling.SubdividedEntry | app/src/main/java/com/example/drawingboardiwithjc/NormalizeCoordinates.kt:89-100 | point `j` of segment `i` sits at position `i * pointsPerSegment + j` of the loops' output |
| Resampling.SubdivisionBetween | app/src/main/java/com/example/drawingboardiwithjc/NormalizeCoordinates.kt:92-99 | every point a segment contributes lies, per axis, between the segment's two ends |
| Resampling.InterpolationKeepsSegments | app/src/main/java/com/example/drawingboardiwithjc/NormalizeCoordinates.kt:102-106 | entries before the appended last point are the loops' output |
| Resampling.InterpolationEntry | app/src/main/java/com/example/drawingboardiwithjc/NormalizeCoordinates.kt:89-106 | before any padding, entry `i * pps + j` of the result is point `j` of segment `i` |
| Resampling.InterpolationBetween | app/src/main/java/com/example/drawingboardiwithjc/NormalizeCoordinates.kt:82-114 | before any padding, entry `i * pps + j` of the result is the start of segment `i` when `j = 0`, and always lies between the segment's two ends on each axis |
| Resampling.InterpolatePointsToTargetCount | app/src/main/java/com/example/drawingboardiwithjc/NormalizeCoordinates.kt:82-114 | the method returns `Interpolation`: the input when it has fewer than two points, otherwise `targetCount` points |
| Resampling.InterpolationTrims | app/src/main/java/com/example/drawingboardiwithjc/NormalizeCoordinates.kt:105-106 | with fewer targets than segments the result is the first `targetCount` input points |
| Resampling.InterpolationPadsWithLast | app/src/main/java/com/example/drawingboardiwithjc/NormalizeCoordinates.kt:102-112 | every position after the segment points is the last input point |
| Resampling.InterpolationDropsLast | app/src/main/java/com/example/drawingboardiwithjc/NormalizeCoordinates.kt:102-106 | when the segments divide the target the result is the segment points alone, without the appended last point |
| Resampling.InterpolationMissesEndpoint | app/src/main/java/com/example/drawingboardiwithjc/NormalizeCoordinates.kt:82-114 | resampling (0,0)-(100,0) to 100 points ends at (99,0) |
| Resampling.InterpolationRoundsOntoEndpoint | app/src/main/java/com/example/drawingboardiwithjc/NormalizeCoordinates.kt:82-114 | resampling (0,0)-(1,0) to 100 points ends at (1,0): the last interpolated point rounds onto the cut-off end point |
| WindowFit.Minimum | app/src/main/java/com/example/drawingboardiwithjc/NormalizeCoordinates.kt:134-137 | `minOrNull` is a lower bound of the list |
| WindowFit.Maximum | app/src/main/java/com/example/drawingboardiwithjc/NormalizeCoordinates.kt:134-137 | `maxOrNull` is an upper bound of the list |
| WindowFit.ExtremaAttained | app/src/main/java/com/example/drawingboardiwithjc/NormalizeCoordinates.kt:134-137 | the minimum and the maximum occur in the list |
| WindowFit.Xs | app/src/main/java/com/example/drawingboardiwithjc/NormalizeCoordinates.kt:131 | the i-th entry is the x of point i |
| WindowFit.Ys | app/src/main/java/com/example/drawingboardiwithjc/NormalizeCoordinates.kt:132 | the i-th entry is the y of point i |
| WindowFit.Repeat | app/src/main/java/com/example/drawingboardiwithjc/NormalizeCoordinates.kt:129 | `List(n) { p }` has `n` entries, all `p` |
| WindowFit.WidthSpansPoints | app/src/main/java/com/example/drawingboardiwithjc/NormalizeCoordinates.kt:134-139 | every x lies within `[minX, minX + width]`; the width is non-negative, and zero exactly when all points share one x |
| WindowFit.HeightSpansPoints | app/src/main/java/com/example/drawingboardiwithjc/NormalizeCoordinates.kt:136-140 | every y lies within `[minY, minY + height]`; the height is non-negative, and zero exactly when all points share one y |
| WindowFit.DegenerateMeansFlat | app/src/main/java/com/example/drawingboardiwithjc/NormalizeCoordinates.kt:129-144 | the fallback to `(padding, padding)` happens exactly when there are no points or they all lie on one vertical or one horizontal line |
| WindowFit.Scale | app/src/main/java/com/example/drawingboardiwithjc/NormalizeCoordinates.kt:146 | the scale maps the longer side of the bounding box onto `targetSize - 2 * padding`, and is positive when the window is larger than the padding |
| WindowFit.PlaceAll | app/src/main/java/com/example/drawingboardiwithjc/NormalizeCoordinates.kt:148-152 | same length; each point is shifted by the minima and scaled |
| WindowFit.NormalizePointsToWindow | app/src/main/java/com/example/drawingboardiwithjc/NormalizeCoordinates.kt:128-153 | the length is kept; an empty list or a flat bounding box puts every point at `(padding, padding)` |
| WindowFit.WindowUniformScale | app/src/main/java/com/example/drawingboardiwithjc/NormalizeCoordinates.kt:146-152 | both axes use the one scale factor of the longer side, each from its own minimum |
| WindowFit.PlacedBounds | app/src/main/java/com/example/drawingboardiwithjc/NormalizeCoordinates.kt:146-150 | an offset within the longer side is placed within `[padding, padding + span]` |
| WindowFit.PlacedEnds | app/src/main/java/com/example/drawingboardiwithjc/NormalizeCoordinates.kt:146-150 | offset 0 goes to the padding and the longer side's extent to `padding + span` |
| WindowFit.WindowBounds | app/src/main/java/com/example/drawingboardiwithjc/NormalizeCoordinates.kt:128-153 | every coordinate lands in `[padding, targetSize - padding]` |
| WindowFit.WindowMinimaOnPadding | app/src/main/java/com/example/drawingboardiwithjc/NormalizeCoordinates.kt:146-150 | the points on the minimum x or minimum y sit on the padding |
| WindowFit.WindowLongerSideFills | app/src/main/java/com/example/drawingboardiwithjc/NormalizeCoordinates.kt:146-150 | the far end of the longer side sits on `targetSize - padding` |
| WindowFit.WindowTouchesPadding | app/src/main/java/com/example/drawingboardiwithjc/NormalizeCoordinates.kt:128-153 | some point sits on the padding in x and some in y |
| FeatureExtraction.SumAppend | app/src/main/java/com/example/drawingboardiwithjc/NormalizeCoordinates.kt:9-10 | the sum of two joined lists is the sum of their sums |
| FeatureExtraction.XsOf | app/src/main/java/com/example/drawingboardiwithjc/NormalizeCoordinates.kt:9 | the i-th entry is the x of point i |
| FeatureExtraction.YsOf | app/src/main/java/com/example/drawingboardiwithjc/NormalizeCoordinates.kt:10 | the i-th entry is the y of point i |
| FeatureExtraction.ComputeCG | app/src/main/java/com/example/drawingboardiwithjc/NormalizeCoordinates.kt:7-13 | `(0, 0)` for no points; otherwise within 0.005 of the mean on each axis |
| FeatureExtraction.SumBounds | app/src/main/java/com/example/drawingboardiwithjc/NormalizeCoordinates.kt:9-10 | a sum of `n` values in `[lo, hi]` lies in `[n * lo, n * hi]` |
| FeatureExtraction.MeanInRange | app/src/main/java/com/example/drawingboardiwithjc/NormalizeCoordinates.kt:12 | the mean of values in `[lo, hi]` lies in `[lo, hi]` |
| FeatureExtraction.CentroidInBox | app/src/main/java/com/example/drawingboardiwithjc/NormalizeCoordinates.kt:7-13 | the CG of points in a box lies in the box, up to the 0.005 of rounding |
| FeatureExtraction.CalculateDistance | app/src/main/java/com/example/drawingboardiwithjc/NormalizeCoordinates.kt:15-17 | the distance is non-negative, and 0 from a point to itself |
| FeatureExtraction.DistanceSymmetric | app/src/main/java/com/example/drawingboardiwithjc/NormalizeCoordinates.kt:15-17 | the distance does not depend on the order of the points |
| FeatureExtraction.DistancesFrom | app/src/main/java/com/example/drawingboardiwithjc/NormalizeCoordinates.kt:44-47 | one distance per point, in order |
| FeatureExtraction.Classify | app/src/main/java/com/example/drawingboardiwithjc/NormalizeCoordinates.kt:33-38 | Q1 or Q2 exactly when `y >= CGy`; Q1 or Q4 exactly when `x >= CGx` |
| FeatureExtraction.Members | app/src/main/java/com/example/drawingboardiwithjc/NormalizeCoordinates.kt:32-39 | a quadrant's list holds only points classified into it, and no more points than the input |
| FeatureExtraction.QuadrantsPartition | app/src/main/java/com/example/drawingboardiwithjc/NormalizeCoordinates.kt:32-39 | the four quadrant lists together are the input as a multiset |
| FeatureExtraction.QuadrantSizesSum | app/src/main/java/com/example/drawingboardiwithjc/NormalizeCoordinates.kt:42 | the four quadrant sizes add up to the number of points |
| FeatureExtraction.QuadrantCG | app/src/main/java/com/example/drawingboardiwithjc/NormalizeCoordinates.kt:41 | an empty quadrant gets the global CG; otherwise the CG of its points |
| FeatureExtraction.QuadrantCGs | app/src/main/java/com/example/drawingboardiwithjc/NormalizeCoordinates.kt:41 | the quadrant CGs in the order Q1, Q2, Q3, Q4 |
| FeatureExtraction.QuadrantCounts | app/src/main/java/com/example/drawingboardiwithjc/NormalizeCoordinates.kt:42 | the quadrant sizes in the order Q1, Q2, Q3, Q4 |
| FeatureExtraction.Summary | app/src/main/java/com/example/drawingboardiwithjc/NormalizeCoordinates.kt:49-57 | the fixed head of the features has 18 entries |
| FeatureExtraction.Features | app/src/main/java/com/example/drawingboardiwithjc/NormalizeCoordinates.kt:19-61 | no features for no points; otherwise `18 + 2 * N` entries |
| FeatureExtraction.SummaryLayout | app/src/main/java/com/example/drawingboardiwithjc/NormalizeCoordinates.kt:49-57 | where the CG, the quadrant CGs, the sizes and the distances sit in the head |
| FeatureExtraction.FeatureQuadrantLayout | app/src/main/java/com/example/drawingboardiwithjc/NormalizeCoordinates.kt:49-57 | entries 0-1: the CG; entries 2+2k and 3+2k: the CG of quadrant k; entry 10+k: its size; entry 14+k: its distance from the CG |
| FeatureExtraction.FeaturePointLayout | app/src/main/java/com/example/drawingboardiwithjc/NormalizeCoordinates.kt:45-59 | entry 18+i is point i's distance from the CG; entry 18+N+i its distance from the first point |
| FeatureExtraction.FeatureCounts | app/src/main/java/com/example/drawingboardiwithjc/NormalizeCoordinates.kt:55-56 | entries 10 to 13 are the quadrant sizes |
| FeatureExtraction.FeatureCountsSumToSize | app/src/main/java/com/example/drawingboardiwithjc/NormalizeCoordinates.kt:42-56 | entries 10 to 13 add up to N |
| FeatureExtraction.FeatureDistances | app/src/main/java/com/example/drawingboardiwithjc/NormalizeCoordinates.kt:44-59 | every distance entry is non-negative, and entry 18+N (first point to itself) is 0 |
| FeatureExtraction.EmptyQuadrantFallback | app/src/main/java/com/example/drawingboardiwithjc/NormalizeCoordinates.kt:41-57 | an empty quadrant repeats the global CG, with size 0 and distance 0 |
| FeatureExtraction.CentroidPointInQ1 | app/src/main/java/com/example/drawingboardiwithjc/NormalizeCoordinates.kt:34 | a point on the CG goes to Q1 |
| FeatureExtraction.SplitIntoQuadrants | app/src/main/java/com/example/drawingboardiwithjc/NormalizeCoordinates.kt:25-39 | the loop fills each of the four quadrant lists with exactly its members, in order |
| FeatureExtraction.ProcessSingleListDouble | app/src/main/java/com/example/drawingboardiwithjc/NormalizeCoordinates.kt:19-61 | the method computes `Features`: empty for no points, otherwise `18 + 2 * N` entries in the fixed layout |
| Pipeline.CleanCoordinates | app/src/main/java/com/example/drawingboardiwithjc/NormalizeCoordinates.kt:117-121 | 100 points once the drawing has two samples; otherwise the samples' positions unchanged |
| Pipeline.ProcessList | app/src/main/java/com/example/drawingboardiwithjc/NormalizeCoordinates.kt:117-121 | flatten, pair up and resample: 100 points when the drawing has at least two samples, otherwise its positions unchanged |
| Pipeline.CleanCoordinatesStartAtFirstSample | app/src/main/java/com/example/drawingboardiwithjc/NormalizeCoordinates.kt:117-121 | the resampled drawing starts at the first sample of the first stroke |
| Pipeline.DrawingFeatures | app/src/main/java/com/example/drawingboardiwithjc/NormalizeCoordinates.kt:158-173 | the chained stages give 0 features for no samples, 20 for one sample and 218 otherwise |
| Pipeline.DrawingWindowBounds | app/src/main/java/com/example/drawingboardiwithjc/NormalizeCoordinates.kt:158-161 | with the default window every placed coordinate lies in `[2, 62]` |
| Drawing.InitialBoard | app/src/main/java/com/example/drawingboardiwithjc/DrawingView.kt:17-33 | a new view has nothing to undo or redo, and an empty current stroke in its own colour and brush size |
| Drawing.Undo | app/src/main/java/com/example/drawingboardiwithjc/DrawingView.kt:36-42 | moves one stroke from the screen to the undo list, keeping their total and emptying the redo list; nothing happens without strokes |
| Drawing.Redo | app/src/main/java/com/example/drawingboardiwithjc/DrawingView.kt:45-50 | moves one stroke back on screen, on top of the others, keeping the total; nothing happens without undone strokes |
| Drawing.Clear | app/src/main/java/com/example/drawingboardiwithjc/DrawingView.kt:53-58 | all three lists are empty; the stroke being drawn is kept |
| Drawing.Touch | app/src/main/java/com/example/drawingboardiwithjc/DrawingView.kt:91-123 | the undo and redo lists are kept; strokes are only ever added, exactly one on Up; no event or another action changes nothing |
| Drawing.UndoKeepsHistory | app/src/main/java/com/example/drawingboardiwithjc/DrawingView.kt:36-42 | undo keeps the list of the strokes on screen followed by the undone ones, most recent first |
| Drawing.RedoKeepsHistory | app/src/main/java/com/example/drawingboardiwithjc/DrawingView.kt:45-50 | redo keeps that list too |
| Drawing.RedoAfterUndo | app/src/main/java/com/example/drawingboardiwithjc/DrawingView.kt:36-50 | redo after undo restores the screen and the undo list |
| Drawing.UndoAfterRedo | app/src/main/java/com/example/drawingboardiwithjc/DrawingView.kt:36-50 | undo after redo restores the screen and the undo list |
| Drawing.RedoListStaysEmpty | app/src/main/java/com/example/drawingboardiwithjc/DrawingView.kt:29-123 | no sequence of operations ever puts a stroke on the redo list |
| Drawing.RedoListAlwaysEmpty | app/src/main/java/com/example/drawingboardiwithjc/DrawingView.kt:27-33 | from a new view the redo list is always empty |
| Drawing.MoveSamples | app/src/main/java/com/example/drawingboardiwithjc/DrawingView.kt:106-110 | one moving sample (status 1) per position, in order |
| Drawing.RunMoves | app/src/main/java/com/example/drawingboardiwithjc/DrawingView.kt:106-110 | moves extend the current stroke by one status-1 sample each and change nothing else |
| Drawing.GestureCommitsStroke | app/src/main/java/com/example/drawingboardiwithjc/DrawingView.kt:97-119 | Down, moves, Up commit one stroke in the view's colour and brush: the samples it held, then the start (status 0), the moves (status 1) and the end (status 0); the next stroke starts empty |
| Drawing.DrawingView.constructor | app/src/main/java/com/example/drawingboardiwithjc/DrawingView.kt:17-33 | a new view has no strokes and an empty black stroke of size 7 |
| Drawing.DrawingView.OnClickUndo | app/src/main/java/com/example/drawingboardiwithjc/DrawingView.kt:36-42 | the fields change exactly as `Undo` says |
| Drawing.DrawingView.OnClickRedo | app/src/main/java/com/example/drawingboardiwithjc/DrawingView.kt:45-50 | the fields change exactly as `Redo` says |
| Drawing.DrawingView.ClearCanvas | app/src/main/java/com/example/drawingboardiwithjc/DrawingView.kt:53-58 | the fields change exactly as `Clear` says |
| Drawing.DrawingView.OnTouchEvent | app/src/main/java/com/example/drawingboardiwithjc/DrawingView.kt:91-123 | returns false exactly for a missing event; the fields change exactly as `Touch` says |

## Left out

- The Compose UI, sharing, the bitmap, the canvas and `onDraw` are not
  modelled. Neither are the drawn path geometry (`moveTo`, `lineTo`,
  `reset`), `invalidate` or the `Log` and `println` output. They only
  render or report.
- `setSizeForBrush`, `setColor` and `getBitmap` are left out. They go
  through Android resource and colour parsing. The colour and brush size are
  kept as fields with their initial values.
- `getProcessedFeatures` is not modelled as written. It calls
  `getAllCoordinates`, which `DrawingView` does not define. The chain it
  describes is `Pipeline.DrawingFeatures`.
- The classifier (`CharacterViewModel`) is not part of this model.
- Floating point is modelled as exact reals. Rounding happens only where the
  code calls `round` or `roundToInt`, so IEEE rounding of sums, products and
  quotients is not captured.
- Kotlin `Int` is modelled as an unbounded integer. 32-bit overflow of pixel
  coordinates or counts is not captured.
- CalculateDistance: `sqrt` is a parameter, and only `sqrt(0) = 0` and
  non-negativity are assumed of it. The distances are therefore not tied to the
  Euclidean value.
- ComputeCG: the rounded CG is stated to be within 0.005 of the mean. The exact
  rounded value is not stated.
- NormalizeTo100Points: requires a non-empty list. On an empty list the code
  throws an index error.
- InterpolatePointsToTargetCount: requires `targetCount >= 0`. The code throws
  on a negative `subList` bound.
- WindowUniformScale: states the single scale factor of the longer side. It does
  not state preservation of the aspect ratio as a ratio of real widths.
- The view holds `CustomPath` objects by reference. The model holds stroke
  values. No path is changed after it is committed, because Up replaces
  `mDrawPath` with a new path, so the two agree.
