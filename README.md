# SciDataExtractor curve post-processing, in Dafny

This project models the pure and sequential post-processing core of the
SciDataExtractor backend. That core turns a skeletonised curve mask into
calibrated data points, and then cleans and smooths point lists as an
analysis tells it to.

From `backend/image_processor.py` the model covers:

- the momentum tracer `_momentum_trace` and its start pixel `_find_start_point`;
- the calibration state of the processor: `set_calibration`, `pixel_to_physical`, `is_in_plot_region`;
- `merge_masks` over byte grids;
- the HSV colour classifier `_hsv_to_color_name` with its ordered table `_get_color_names`;
- the clamped HSV range bounds of `extract_curve` and `create_mask_from_color`;
- the per-column grouping, median and down-sampling of `extract_curve`;
- the structure of `remove_outliers`;
- the glue of `extract_curve_from_mask` and of `extract_curve` from the skeleton on.

From `backend/ai_assistant.py` the model covers:

- `_apply_cleaning_rules`;
- `_generate_clean_operations`;
- `_generate_smooth_operations`;
- `_apply_smoothing`;
- the gap scan of `repair_curve_gaps`.

Modules, one per file:

- `Support`: options, results, pixels and points, stable sort by key, filters and subsequences, and real-arithmetic helper lemmas.
- `Tracer`:
  - the tracer as the step function `Step` and its fuel-bounded iteration `Run`;
  - the in-place loop `MomentumTrace`, over an `array2<bool>` visited grid, proved equal to `Trace`.
- `TracerProperties`: what one step does — locality, the gap search, and the ranking.
- `TraceTheorems`: what the whole trace is — a path of distinct pixels, each a nearest untraced skeleton pixel of its predecessor, and bounded in length.
- `PixelOrder`: the row-major listing of skeleton pixels (`np.where`), and the start pixel.
- `Masks`: `merge_masks`.
- `Colors`: the colour table, the classifier, and the HSV range bounds.
- `Curve`: column grouping, median, down-sampling, `remove_outliers`.
- `Processor`: the `ImageProcessor` class with its calibration fields, and the two extractions.
- `ProcessorProperties`: what the two extractions deliver.
- `Cleaning`, `CleaningProperties`: the cleaning rules and the list of deletions.
- `Smoothing`, `SmoothingProperties`: the smoothing methods and the list of modifications.
- `Gaps`: gap detection.

Conventions of the model:

- Floating-point values are Dafny `real`s.
- Python's stable `sorted` / `list.sort` by key is a stable insertion sort (`Support.SortBy`).
- A Python `ValueError` is an `Err` result.

## Model

| member | source | states |
|---|---|---|
| Tracer.BestIndexIsFirstMaximum | backend/image_processor.py:741-743 | the candidate taken after the stable descending sort has a score no candidate exceeds, and every candidate before it scores strictly less |
| Tracer.ArgMinX | backend/image_processor.py:644 | the index of a pixel of minimal x, and the first such index |
| Tracer.ArgMaxX | backend/image_processor.py:648 | the index of a pixel of maximal x, and the first such index |
| Tracer.FindStartPoint | backend/image_processor.py:635-649 | the start is one of the listed pixels, at minimal x for "left_to_right" and "auto", at maximal x otherwise, and the first listed pixel with that x |
| Tracer.ScanNeighbours | backend/image_processor.py:703-718 | the neighbour loop over the in-place visited grid yields exactly the candidate list of the unvisited in-bounds skeleton 8-neighbours, in `directions` order, each with its alignment score |
| Tracer.ScanGapColumn | backend/image_processor.py:725-734 | the inner `dy` loop yields exactly the gap candidates of one column of the square |
| Tracer.ScanGapSquare | backend/image_processor.py:724-734 | the `dx` loop yields exactly the gap candidates of the whole square of one radius |
| Tracer.ScanGap | backend/image_processor.py:720-736 | the radius loop yields the candidates of the first square of radius 2, 3 or 4 that has any |
| Tracer.ScanCandidates | backend/image_processor.py:703-737 | the neighbour scan, then the gap search only when it found nothing, yields the specified candidate list |
| Tracer.RunFirstStep | backend/image_processor.py:687-748 | an iteration of the capped loop is one step, followed by the remaining iterations when the step continues |
| Tracer.RunStops | backend/image_processor.py:692-698 | a current pixel out of bounds or already visited ends the loop with the state unchanged |
| Tracer.RunVisits | backend/image_processor.py:699-748 | otherwise the pixel is marked and appended; the loop then ends if there is no candidate, or goes on from the best candidate with the blended momentum |
| Tracer.TraceStep | backend/image_processor.py:687-748 | one pass of the loop body, updating the visited grid in place, leaves the state from which the remaining iterations reach the same result as the specification |
| Tracer.NewVisited | backend/image_processor.py:670 | a fresh all-false visited grid of the skeleton's size |
| Tracer.MomentumTrace | backend/image_processor.py:651-750 | the in-place loop, capped at `2 * count` iterations, returns exactly the specified trace |
| TracerProperties.NeighboursIndexed | backend/image_processor.py:703-718 | the neighbour list holds one candidate per free direction, in scan order |
| TracerProperties.NeighbourChoice | backend/image_processor.py:703-743 | with a free neighbour, the candidate taken is that of a free direction scoring at least as high as every free direction, and strictly higher than every free direction scanned before it |
| TracerProperties.DirectionsAreRing | backend/image_processor.py:674-677 | the eight directions are exactly the offsets at Chebyshev distance 1 |
| TracerProperties.NoFreeNeighbour | backend/image_processor.py:704-707 | no free direction means no free pixel at Chebyshev distance 1 |
| TracerProperties.ColumnHasFree | backend/image_processor.py:725-734 | a free offset in a column of the square gives that column a candidate |
| TracerProperties.ColumnHead | backend/image_processor.py:725-734 | the first candidate of a column is its first free offset in `dy` order |
| TracerProperties.ColumnScores | backend/image_processor.py:733 | every gap candidate of a column has the flat score 0.5 |
| TracerProperties.SquareHasFree | backend/image_processor.py:724-734 | a free offset anywhere in the square gives the square a candidate |
| TracerProperties.SquareHead | backend/image_processor.py:724-734 | the first candidate of a square is its first free offset in dx-then-dy order |
| TracerProperties.SquareScores | backend/image_processor.py:733 | every gap candidate of a square has the flat score 0.5 |
| TracerProperties.FlatScoresTakeFirst | backend/image_processor.py:741-742 | among candidates of equal score the stable sort keeps the first on top |
| TracerProperties.GapSearchFound | backend/image_processor.py:723-736 | a non-empty gap search returns the first non-empty square of radius up to 4, and every smaller square is empty |
| TracerProperties.GapSearchEmpty | backend/image_processor.py:723-736 | an empty gap search means every square of the radii searched is empty |
| TracerProperties.NoFreeBelow | backend/image_processor.py:720-736 | with no free neighbour and every square below radius `q` empty, no free pixel is nearer than `q` |
| TracerProperties.StepToNeighbour | backend/image_processor.py:699-748 | with a free neighbour, a step moves to the best free 8-neighbour and blends that direction into the momentum |
| TracerProperties.StepAcrossGap | backend/image_processor.py:720-748 | with no free neighbour, a step either stops when no free pixel lies within distance 4, or jumps to the gap pixel of the nearest non-empty ring at distance 2 to 4, first in scan order, blending the jump's direction into the momentum |
| TracerProperties.NoNeighbours | backend/image_processor.py:703-720 | without a free direction the neighbour list is empty |
| TracerProperties.GapSearchNothing | backend/image_processor.py:720-738 | an empty gap search with no free neighbour means no free pixel within Chebyshev distance 4 |
| TracerProperties.SquareChoice | backend/image_processor.py:723-742 | the candidate taken from the first non-empty square is the gap pixel described above |
| TracerProperties.GapSearchChoice | backend/image_processor.py:720-742 | a non-empty gap search with no free neighbour ranks that gap pixel first |
| TracerProperties.NeighboursHaveFree | backend/image_processor.py:704-718 | a free direction gives the neighbour list a candidate |
| TracerProperties.NeighbourPositions | backend/image_processor.py:704-707 | every neighbour candidate is a free skeleton pixel at distance 1 |
| TracerProperties.NeighbourNearest | backend/image_processor.py:703-742 | the best neighbour is a nearest free pixel |
| TracerProperties.GapNearest | backend/image_processor.py:723-736 | the gap pixel taken is a nearest free pixel |
| TracerProperties.NoFreeDirection | backend/image_processor.py:703-720 | an empty neighbour list means no free direction |
| TracerProperties.CandidateNearest | backend/image_processor.py:703-742 | the candidate ranked first, neighbour or gap pixel, is a free pixel within distance 1 to 4 with no free pixel nearer |
| TracerProperties.NoCandidateIffIsolated | backend/image_processor.py:703-738 | there is no candidate exactly when no free pixel lies within Chebyshev distance 4 |
| TracerProperties.StepVisits | backend/image_processor.py:692-748 | a step from an in-bounds unvisited pixel marks and appends it, halts exactly when there is no candidate, and otherwise moves to the first-ranked candidate with the blended momentum |
| TracerProperties.StepTakesNearest | backend/image_processor.py:703-748 | a step that continues moves to a free pixel within distance 4 with no free pixel nearer |
| TracerProperties.StepStopsWhenIsolated | backend/image_processor.py:720-738 | a visiting step stops exactly when no free pixel lies within distance 4 |
| TraceTheorems.ValidTraceInBounds | backend/image_processor.py:692-700 | every pixel of a valid trace lies inside the image |
| TraceTheorems.ValidTraceLinks | backend/image_processor.py:696-748 | every pixel after the first is an untraced skeleton pixel within distance 1 to 4 of its predecessor, with no untraced skeleton pixel nearer |
| TraceTheorems.ValidTraceDistinct | backend/image_processor.py:696-700 | no pixel occurs twice in a valid trace |
| TraceTheorems.ValidTraceExtend | backend/image_processor.py:700 | appending a pixel that may follow keeps a trace valid |
| TraceTheorems.NearestIsLink | backend/image_processor.py:703-748 | a nearest free pixel may follow the trace when the visited pixels are the traced ones |
| TraceTheorems.StepKeepsConsistent | backend/image_processor.py:696-748 | a step keeps the visited grid equal to the set of traced pixels, and a continuing step leaves a next pixel that may follow the trace |
| TraceTheorems.RunKeepsConsistent | backend/image_processor.py:687-748 | the whole loop keeps the visited grid equal to the set of traced pixels |
| TraceTheorems.StepGrows | backend/image_processor.py:700 | a step only appends, at most one pixel |
| TraceTheorems.RunGrows | backend/image_processor.py:684-700 | a run only appends, at most one pixel per iteration |
| TraceTheorems.TraceIsValid | backend/image_processor.py:651-750 | every trace is a path of distinct in-bounds pixels, each after the first a nearest untraced skeleton pixel within distance 4 of its predecessor |
| TraceTheorems.SkeletonInSet | backend/image_processor.py:707 | a pixel passing the skeleton test belongs to the skeleton set |
| TraceTheorems.TraceCapped | backend/image_processor.py:684-688 | the trace has at most `2 * N` pixels |
| TraceTheorems.TraceOnSkeleton | backend/image_processor.py:703-748 | every pixel after the first is a skeleton pixel |
| TraceTheorems.TraceLength | backend/image_processor.py:684-700 | the trace has at most one pixel more than the skeleton, and no more than the skeleton when the start is on it |
| TraceTheorems.RunTracesCurrent | backend/image_processor.py:692-700 | a run from an in-bounds unvisited pixel traces that pixel first |
| TraceTheorems.TraceStart | backend/image_processor.py:689-700 | a start outside the image, or an empty skeleton, gives an empty trace; otherwise the trace begins with the start, which is only bounds-checked |
| PixelOrder.RowPixelsMembers | backend/image_processor.py:602 | the pixels listed for a row are exactly that row's skeleton pixels from the given column on |
| PixelOrder.RowPixelsSorted | backend/image_processor.py:602 | within a row the pixels come left to right |
| PixelOrder.PixelsFromMembers | backend/image_processor.py:602 | the pixels listed from a row on are exactly the skeleton pixels of those rows |
| PixelOrder.PixelsFromSorted | backend/image_processor.py:602 | the listing is in row-major order |
| PixelOrder.SkeletonPixelsMembers | backend/image_processor.py:602 | on a rectangular grid, `np.where(skeleton > 0)` lists exactly the skeleton pixels, in row-major order |
| PixelOrder.StartPointIsExtreme | backend/image_processor.py:635-649 | the start is a skeleton pixel in the left-most column for "left_to_right" and "auto", in the right-most otherwise, and the top-most skeleton pixel of that column |
| Masks.CombineRows | backend/image_processor.py:853-858 | each byte of the row is the operation applied to the two input bytes |
| Masks.MergeMasks | backend/image_processor.py:837-860 | an unknown operation returns the first mask; a known one fails exactly on masks of different shape, and otherwise combines the masks byte by byte |
| Masks.MergeIsSetAlgebra | backend/image_processor.py:853-858 | on binary masks of equal shape, union, intersect and subtract select the union, intersection and difference of the selected pixels, and give binary masks |
| Masks.CombineBinary | backend/image_processor.py:853-858 | on the bytes 0 and 255 the bitwise operations are the Boolean ones |
| Masks.UnionIdempotent | backend/image_processor.py:853-854 | the union of a mask with itself is that mask |
| Masks.UnionByteIdempotent | backend/image_processor.py:854 | or-ing a byte with itself gives that byte |
| Masks.SubtractSelfIsEmpty | backend/image_processor.py:857-858 | subtracting a mask from itself gives an empty mask of the same shape, whatever its bytes |
| Masks.SubtractByteSelf | backend/image_processor.py:858 | and-ing a byte with its complement gives 0 |
| Masks.IntersectEmptyIsEmpty | backend/image_processor.py:855-856 | intersecting with an empty mask of the same shape gives an empty mask |
| Masks.IntersectByteZero | backend/image_processor.py:856 | and-ing a byte with 0 gives 0 |
| Colors.ColorTable | backend/image_processor.py:524-539 | the table has its twelve entries, in the order the lookup tries them |
| Colors.FirstAccepting | backend/image_processor.py:559-565 | the index found is the first chromatic entry whose ranges hold the sample; none is found only when no entry holds it |
| Colors.LowSaturationIsAchromatic | backend/image_processor.py:550-556 | with saturation below 30 the name is black exactly below value 50, white exactly above 200, and grey exactly in between, whatever the hue |
| Colors.SaturatedIsChromatic | backend/image_processor.py:558-565 | with saturation 30 or more the name is never black, white or grey; it is unknown exactly when no chromatic entry accepts the sample, and otherwise the name of the first entry that does |
| Colors.PaleIsUnknown | backend/image_processor.py:527-565 | saturation from 30 to 49 names no colour |
| Colors.DarkIsUnknown | backend/image_processor.py:527-565 | a saturated sample with value below 100 names no colour |
| Colors.SharedHueTakesFirst | backend/image_processor.py:527-563 | hue 10 lies in both the red and the orange range, and red, listed first, wins |
| Colors.HsvRange | backend/image_processor.py:767-789 | for a valid HSV target and a non-negative tolerance every bound lies in its channel's range, and for any target each lower bound is at least 0 and each upper bound at most the channel maximum; a coloured target's bounds exclude saturation and value below 30 and span at most 30 hues |
| Colors.GrayscaleTestsAgree | backend/image_processor.py:190 | the grey test of `extract_curve` is the plain `s < 30` of `create_mask_from_color` |
| Colors.RangeHoldsTarget | backend/image_processor.py:767-789 | with a non-negative tolerance the range holds its own target, except a coloured target darker than value 30 |
| Colors.RangeSeparatesGrey | backend/image_processor.py:767-789 | a coloured range admits no pixel with saturation or value below 30; a grey range admits no saturation above 100 |
| Colors.RangeGrowsWithTolerance | backend/image_processor.py:767-789 | a larger tolerance never shrinks the range |
| Curve.GroupColumns | backend/image_processor.py:293-297 | the loop that fills `x_to_y` gives the specified key order and columns |
| Curve.ColumnKeys | backend/image_processor.py:293-297 | the columns present are those of some pixel, each key listed once in first-occurrence order, and each column holds at least one row |
| Curve.ColumnContents | backend/image_processor.py:293-297 | each column lists the rows of its pixels in scan order |
| Curve.MedianBetweenMiddle | backend/image_processor.py:306 | the median lies between the two middle elements of the sorted rows |
| Curve.MedianInRange | backend/image_processor.py:306 | the median lies between the smallest and the largest row |
| Curve.MedianOfConstant | backend/image_processor.py:306 | a column whose pixels share one row has that row as its median |
| Curve.StepOf | backend/image_processor.py:303 | the step is at least 1, and equals the down-sampling factor when that is at least 1 |
| Curve.SampleColumns | backend/image_processor.py:300-307 | the down-sampling loop gives the specified sampled list |
| Curve.SampledPositionsAt | backend/image_processor.py:304-305 | the positions kept are 0, step, 2*step, …: ceil(n / step) of them |
| Curve.SampledFollowsPositions | backend/image_processor.py:304-307 | the sampled list holds the kept columns, each with its median |
| Curve.SampledAt | backend/image_processor.py:300-307 | the sampled list holds exactly the columns at positions 0, step, 2*step, … with their medians, ceil(n / step) points |
| Curve.SampledPositionsIncrease | backend/image_processor.py:304-305 | the kept positions increase and stay below `n` |
| Curve.SampledIncreasing | backend/image_processor.py:300-307 | sampling increasing columns gives strictly increasing x |
| Curve.UnmarkedIsSubsequence | backend/image_processor.py:367 | the unmarked points are a subsequence of the points |
| Curve.UnmarkedKeepsLast | backend/image_processor.py:360-367 | the last point is never marked |
| Curve.RemoveOutliersShape | backend/image_processor.py:329-369 | the result is the input with interior points deleted: first and last survive; fewer than five points or a flat slope test give the input back; so does a result of three points or fewer |
| Processor.AxisMapInterpolates | backend/image_processor.py:114-155 | each axis map sends the first calibration pixel to the first value, the second to the second, and points between them linearly |
| Processor.CalibrationRegion | backend/image_processor.py:135-143 | the region is the bounding box of the four calibration pixels widened by 10 on every side, each side touched by some pixel |
| Processor.ImageProcessor.constructor | backend/image_processor.py:57-66 | a new processor is uncalibrated, with no calibration numbers and no plot region |
| Processor.ImageProcessor.PixelToPhysical | backend/image_processor.py:147-155 | fails unless calibrated, and otherwise applies the two axis maps |
| Processor.ImageProcessor.SetCalibration | backend/image_processor.py:98-145 | x pixels less than 1 apart fail with nothing written; y pixels less than 1 apart fail after the x numbers are written, with the calibration flag, region and y numbers untouched; otherwise the processor is calibrated, both axis maps are set, the region is the widened bounding box, and the calibration pixels map to their values |
| Processor.ImageProcessor.ExtractCurveFromMask | backend/image_processor.py:569-633 | fails unless calibrated; otherwise traces the skeleton, keeps the traced pixels in the region, converts, sorts and removes outliers as specified |
| Processor.ImageProcessor.ExtractCurve | backend/image_processor.py:164-327 | fails unless calibrated; otherwise keeps the skeleton pixels in the region, samples the column medians, converts, sorts, removes outliers and smooths when asked and there are more than 10 points |
| Processor.KeepInRegion | backend/image_processor.py:280-287 | the filter loop keeps exactly the pixels in the plot region, in order |
| Processor.ConvertPoints | backend/image_processor.py:310-313 | the conversion loop maps every sampled point to physical coordinates, in order |
| ProcessorProperties.CleanCurveShape | backend/image_processor.py:315-321 | sorting and outlier removal give points sorted by x, drawn from the input, and at most five points are only reordered |
| ProcessorProperties.TracePointsFrom | backend/image_processor.py:620-624 | every converted point is the physical image of a traced pixel inside the region |
| ProcessorProperties.MaskCurveShape | backend/image_processor.py:569-633 | the result is sorted by x, has at most one point more than the skeleton has pixels, and each point is the image of a traced pixel inside the region |
| ProcessorProperties.MaskCurveOutsideStart | backend/image_processor.py:608-617 | a caller's start pixel outside the image gives no points |
| ProcessorProperties.PhysicalPointsFrom | backend/image_processor.py:310-313 | conversion keeps the number of points, and each result is the image of an input point |
| ProcessorProperties.SampledFrom | backend/image_processor.py:300-307 | every sampled point is a column with its median, at most one per column |
| ProcessorProperties.SampledAreColumnMedians | backend/image_processor.py:300-307 | every sampled point is some column at the median of its rows |
| ProcessorProperties.ColumnMediansFrom | backend/image_processor.py:293-307 | the column points are at most one per column, each a column at its median row |
| ProcessorProperties.CleanedPhysicalFrom | backend/image_processor.py:310-321 | converting and cleaning gives points sorted by x, no more than were sampled, each the image of a sampled point |
| ProcessorProperties.SkeletonCurveShape | backend/image_processor.py:276-327 | without smoothing, the result is sorted by x, has at most one point per skeleton column in the region, and each point is the physical image of such a column at its median row |
| Cleaning.QuartilesOf | backend/ai_assistant.py:1131-1135 | the first quartile is at most the third, and both are y values of the points |
| Cleaning.QuartileIndices | backend/ai_assistant.py:1132-1133 | both quartile indices are valid, the first no larger than the third |
| Cleaning.RegionCheck | backend/ai_assistant.py:1094-1106 | the appending loop of one region check gives the specified survivors |
| Cleaning.FindNeighbor | backend/ai_assistant.py:1149-1155 | the early-exit search finds a neighbour exactly when some other point within two positions has a y closer than the threshold |
| Cleaning.RemoveIsolated | backend/ai_assistant.py:1142-1159 | the isolated-point rule gives the specified result |
| Cleaning.CheckRegions | backend/ai_assistant.py:1087-1106 | the region loop applies every region check in turn |
| Cleaning.RemoveNoise | backend/ai_assistant.py:1109-1121 | the noise loop applies every noise region in turn |
| Cleaning.ApplyRules | backend/ai_assistant.py:1124-1159 | the rule loop applies every cleaning rule in turn |
| Cleaning.ApplyCleaningRules | backend/ai_assistant.py:1057-1164 | the four stages and the final sort give the specified cleaning result |
| Cleaning.DeletionsSound | backend/ai_assistant.py:1039-1047 | each deletion names an earlier position and its point, which is not kept, with increasing positions |
| Cleaning.DeletionsComplete | backend/ai_assistant.py:1039-1047 | every position whose point is not kept is named |
| Cleaning.GenerateCleanOperations | backend/ai_assistant.py:1018-1055 | position `i` is listed exactly when `original[i]`'s coordinates are absent from the cleaned points; positions increase; only deletions are counted |
| CleaningProperties.ThresholdStageShape | backend/ai_assistant.py:1079-1084 | the threshold filter only deletes, and its survivors meet every threshold given |
| CleaningProperties.RegionStageShape | backend/ai_assistant.py:1093-1106 | one region check only deletes, and its survivors pass it |
| CleaningProperties.CheckRegionsShape | backend/ai_assistant.py:1087-1106 | the region checks only delete, and every survivor passes every check |
| CleaningProperties.NoiseStageShape | backend/ai_assistant.py:1111-1121 | one noise region only deletes, and no survivor lies in it when it is removed |
| CleaningProperties.RemoveNoiseShape | backend/ai_assistant.py:1109-1121 | the noise stage only deletes, and its survivors lie in no removed region |
| CleaningProperties.FenceShape | backend/ai_assistant.py:1140 | the fence filter keeps exactly the points between its fences |
| CleaningProperties.IqrFenceOutsideQuartiles | backend/ai_assistant.py:1136-1139 | with a non-negative multiplier the fences lie outside the quartiles |
| CleaningProperties.IqrStageShape | backend/ai_assistant.py:1128-1140 | the IQR rule only runs on more than ten points, then keeps only points within the fences and every point between the quartiles |
| CleaningProperties.NonIsolatedMultiset | backend/ai_assistant.py:1148-1157 | the points with a neighbour come from the sorted points, no more often than there |
| CleaningProperties.NonIsolatedSound | backend/ai_assistant.py:1148-1157 | each kept point has a neighbour |
| CleaningProperties.NonIsolatedComplete | backend/ai_assistant.py:1148-1157 | each point with a neighbour is kept |
| CleaningProperties.NonIsolatedSorted | backend/ai_assistant.py:1146-1157 | the kept points stay sorted by x |
| CleaningProperties.IsolatedStageShape | backend/ai_assistant.py:1142-1159 | the isolated-point rule only runs on more than five points, and its result is adopted only when it keeps more than half of them: then it is exactly the x-sorted points with a neighbour |
| CleaningProperties.RuleStageShape | backend/ai_assistant.py:1124-1159 | every cleaning rule only deletes |
| CleaningProperties.ApplyRulesShape | backend/ai_assistant.py:1124-1159 | the rule list only deletes |
| CleaningProperties.CleaningNeverAdds | backend/ai_assistant.py:1057-1164 | the cleaned points are a sub-multiset of the input, sorted by x |
| CleaningProperties.SurvivorsOfNoise | backend/ai_assistant.py:1109-1164 | every survivor came through the noise stage |
| CleaningProperties.CleaningRemovesNoise | backend/ai_assistant.py:1109-1121 | no survivor lies inside a noise region whose action is "remove" |
| CleaningProperties.SurvivorsOfRegions | backend/ai_assistant.py:1079-1106 | every survivor passed the thresholds and the region checks |
| CleaningProperties.CleaningKeepsBounds | backend/ai_assistant.py:1079-1106 | every survivor meets each y threshold that is given, and a survivor inside a checked region with both expected ends given has its y between them |
| Smoothing.ModificationsSound | backend/ai_assistant.py:1429-1443 | each modification records a changed pair at an earlier position, with increasing positions |
| Smoothing.ModificationsComplete | backend/ai_assistant.py:1429-1443 | every changed pair is recorded |
| Smoothing.GenerateSmoothOperations | backend/ai_assistant.py:1410-1451 | over the two x-sorted lists, paired up to the shorter length, pair `i` is listed exactly when its y changed by more than 1e-6; positions increase; only modifications are counted |
| Smoothing.OddWindow | backend/ai_assistant.py:1482-1485 | the window is odd and at least the minimum (3, or 5 for savitzky_golay), at most one above the capped request, and an odd request within range is kept |
| Smoothing.Weight | backend/ai_assistant.py:1520 | each weight is positive and at most 1, and 1 at the centre |
| Smoothing.Weights | backend/ai_assistant.py:1520 | one weight per window position, each positive and at most 1 |
| Smoothing.SumOf | backend/ai_assistant.py:1521 | positive weights have a positive total, so the weighted mean is defined |
| Smoothing.MovingAverageLoop | backend/ai_assistant.py:1487-1501 | the moving-average loop gives each point the mean y of its clipped window |
| Smoothing.WeightedAverageLoop | backend/ai_assistant.py:1510-1529 | the weighted loop gives each point the centre-weighted mean y of its clipped window |
| Smoothing.ExponentialLoop | backend/ai_assistant.py:1533-1544 | the exponential loop gives the specified smoothed list |
| Smoothing.ApplySmoothing | backend/ai_assistant.py:1454-1563 | the method dispatch, its defaults and the fallback give the specified result |
| SmoothingProperties.Convex | backend/ai_assistant.py:1538 | an exponential mix of two values of a band stays in the band |
| SmoothingProperties.MeanAtBounds | backend/ai_assistant.py:1490-1495 | a window mean of points in a band lies in the band |
| SmoothingProperties.WeightedAtBounds | backend/ai_assistant.py:1514-1522 | a weighted window mean of points in a band lies in the band |
| SmoothingProperties.ExponentialXs | backend/ai_assistant.py:1536-1544 | exponential smoothing keeps every x and the first point |
| SmoothingProperties.ExponentialWithin | backend/ai_assistant.py:1536-1544 | with alpha in [0, 1] every exponentially smoothed y lies in the band of the inputs |
| SmoothingProperties.SortedWithin | backend/ai_assistant.py:1473 | sorting keeps the band of the y values |
| SmoothingProperties.SmoothedShape | backend/ai_assistant.py:1469-1544 | the output is as long as the input; fewer than three points come back untouched; otherwise point `i` has the x of point `i` of the x-sorted input, the output is sorted by x, and exponential smoothing keeps the first sorted point |
| SmoothingProperties.SmoothedWithinBounds | backend/ai_assistant.py:1454-1563 | every smoothed y lies in any band that holds every input y |
| SmoothingProperties.SmoothedKeepsConstant | backend/ai_assistant.py:1454-1563 | a flat curve stays flat |
| SmoothingProperties.NoModificationsOfSame | backend/ai_assistant.py:1429-1443 | comparing a list with itself records no modification |
| Gaps.DetectGaps | backend/ai_assistant.py:657-672 | the gap loop gives the specified gap list |
| Gaps.GapsSound | backend/ai_assistant.py:661-672 | every gap is a neighbour pair of the sorted points more than three average spacings apart |
| Gaps.GapsComplete | backend/ai_assistant.py:661-672 | every such pair is reported |
| Gaps.GapsOrdered | backend/ai_assistant.py:660-672 | the gaps come in x order, each ending no later than the next begins |
| Gaps.GapsSpan | backend/ai_assistant.py:661-666 | `c` gaps span more than `c` times the threshold |
| Gaps.GapCountBound | backend/ai_assistant.py:664-666 | the span bound on the gaps limits their number to below a third of the points |
| Gaps.FewGaps | backend/ai_assistant.py:657-672 | at most one point gives no gaps, and `n` points give fewer than `n / 3` gaps |
| Gaps.GapsMeaning | backend/ai_assistant.py:657-672 | a neighbour pair of the sorted points is reported exactly when its distance exceeds three average spacings, and the gaps come in x order |

## Left out

- OpenCV, scikit-image and scikit-learn are outside the model: image loading, colour conversion, `inRange`, morphology, connected components, `skeletonize`, k-means, encoding and Excel export. The skeleton and the masks are input grids.
- The colour-mask and morphology steps of `extract_curve` (lines 164-275), with their early returns, are not modelled. `Processor.ImageProcessor.ExtractCurve` starts from the skeleton.
- `extract_curve_from_mask`'s binarisation and skeletonisation (lines 593-599) are not modelled; the skeleton is the input.
- The Euclidean norm and its floating-point square root are a parameter `norm` of the tracer. Neighbour scores are exact real arithmetic over that norm, with the 1e-10 epsilon kept. No claim is made about how particular crossings are resolved.
- `remove_outliers`' slope, median-absolute-deviation and threshold arithmetic is a parameter `verdict`. It stands for the decision which slope changes are flagged, or `None` when the deviation is below 1e-10. Only the structure of the function is proved.
- `smooth_curve` (the Savitzky-Golay filter of SciPy) is a parameter `smoother` of `extract_curve`.
- Floating-point rounding is not modelled: values are reals, and the constants 1e-10 and 1e-6 are kept as written.
- `main.py`, `origin_plotter.py` and `ai_segmentation.py` are not part of this model.
- In `ai_assistant.py`, the model-API calls, prompts, base64 encoding and `safe_parse_json` are not modelled. The analysis arrives as a parsed value.
- In a smoothing `Recommendation`, `None` stands for a missing key only. A key present with a JSON `null` value counts among the malformed values below; for `"method": null` the source would take the fixed window-5 fallback, which the model does not express.
- JSON shapes: a missing key takes its default from the source. Malformed values (a non-numeric threshold, a range that is not a pair) are not modelled. For the same reason the exception fallback of `_apply_smoothing` (lines 1565-1568), reachable only on such values, is not modelled.
- The linear-interpolation repair of `repair_curve_gaps` and its prompt are not modelled; only its gap scan is.
- Constant labels of the operation records (`"type"`, `"reason"`) and their dictionary wrapping are left out. The records keep the position and the points, and a modification also keeps its change of y.
- The in-place `list.sort` calls are modelled on values, by a stable sort that returns a new sequence.
- `numpy` integer widths are not modelled: pixel coordinates are unbounded integers, and a mask byte is a `bv8`.
- Tracer.BestIndex: its own contract only bounds the index. That the index is the first candidate of maximal score is stated by `Tracer.BestIndexIsFirstMaximum`.
- Colors.ColorTable: its own contract only fixes the number of entries. The table's contents are used by `Colors.PaleIsUnknown`, `Colors.DarkIsUnknown` and `Colors.SharedHueTakesFirst`.
