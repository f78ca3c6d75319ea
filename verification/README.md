# Layout segmentation core of the directory annotator

This project models, in Dafny, the layout segmentation engine of the
directory annotator back end and the small primitives it rests on. The
engine cuts a cleaned page image of a trade directory into a tree of layout
regions: the page, then sections and titles (vsplit), then columns (hsplit),
then text lines. All regions are kept in one flat, append-only arena whose
entries point to their parent by index.

The model covers:

- **Geometry.** Boxes, points and segments with containment, merge, inflate, emptiness, validity and the angle classification.
- **Intervals.** Closed integer intervals and the sorted, merged IntervalSet that records the rows a vertical separator protects.
- **Signal primitives.** The gap-based splitter `partitions` (both overloads, through `split_section_T`), the plateau-aware `find_peaks`, and the ink-count projection `is_number_of_black_pixels_less_than`.
- **KConfig.** Every threshold derived from one x-height.
- **The XY-cut.** `detect_border`, the mutually recursive `vsplit`/`hsplit` with forced and prevented cuts, the category table, and the seeding of the arena with the page.
- **The line extractor.** The per-label box and centroid accumulator, the greedy merge of labels on the same text line with its remap table, the emission of LINE regions, and the row marker scan of `blur_region_and_labelize`.
- **The DOM builder helpers.** Row and column sums, both `detect_leading_space` scans, the histogram rank lookup `get_rank` and `rank`.
- **`subsample_T`.** The integer 2x2 down-sampling.
- **The page-list parsers.** `parse_range` of the C++ command line, and `PageParserAction` and `__checkSuffix` of the batch tool.
- **The NER post-processing.** `_get_xml_string`, which tags the entities of an entry in its escaped text, and `_build_entry`, which groups street names and numbers into addresses and lists the texts of entities labelled "addresses" beside them.
- **The dictionary form of a layout region.** `LayoutRegion.to_json` and `from_json`.

Images are `seq<seq<int>>` rows over a box domain in absolute coordinates
(`Raster`). Operations are pure functions over immutable datatypes. Loops
become methods where the source is a loop over an array. Every throw or
argparse error is a `Result` error. The image morphology that produces the
inputs of these pieces (page crop, block openings, blur, closings,
watershed) is not modelled: its outputs are inputs here.

## Model

| member | source | states |
|---|---|---|
| Geometry.Merge | sources/src/CoreTypes.cpp:6-17 | the merged box contains both boxes and lies inside every box that contains both, so it is their least enclosing box; its left edge and its bottom edge each come from one of the two boxes |
| Geometry.MergeCoversPoints | sources/src/CoreTypes.cpp:6-17 | every point of either box is a point of their merge |
| Geometry.Inflate | sources/src/CoreTypes.cpp:28-34 | the sizes are never negative; the origin moves by -k; while a dimension is not clamped its far edge moves by +k; a dimension whose size plus 2k is not positive is clamped to exactly 0, which leaves an empty box |
| Geometry.InflateGrows | sources/src/CoreTypes.cpp:28-39 | growing a box by k >= 0 gives a box that contains it and keeps each of its points |
| Geometry.InflateRoundTrip | sources/src/CoreTypes.cpp:28-34 | inflating by -k undoes inflating by k when neither dimension was clamped |
| Geometry.DeflatedPointIsInner | sources/src/CoreTypes.cpp:28-39 | a point of the box shrunk by k >= 0 lies in the box, at least k away from each border |
| Geometry.Has | sources/src/CoreTypes.cpp:36-39 | `has(p)`, the half-open membership of a point; it has no contract of its own, and EmptyIffNoPoint, ContainsHas and IntersectsIffCommonPoint state what it means for a box |
| Geometry.HasSegment | sources/src/CoreTypes.cpp:41-44 | `has(s)`: both end points of the segment are in the box; used as the segment filter of the two splits, whose contracts (XYCut.Filter, XYCut.Spans) carry it |
| Geometry.IsValid | sources/src/CoreTypes.cpp:46-49 | `is_valid()`; ValidIsNotEmpty states that a valid box is non-empty and holds its origin |
| Geometry.Empty | sources/src/CoreTypes.cpp:72-75 | `empty()`; EmptyIffNoPoint states that it holds exactly when the box has no point |
| Geometry.IntersectsAsWritten | sources/src/CoreTypes.cpp:66-70 | `intersects` as the source writes it, with `\|\|` between the axes; IntersectsAsWrittenCounterexample shows it holding for two boxes without a common point |
| Geometry.EmptyIffNoPoint | sources/src/CoreTypes.cpp:36-75 | `empty()` holds exactly when `has(p)` holds for no point p |
| Geometry.ValidIsNotEmpty | sources/src/CoreTypes.cpp:36-75 | a valid box is not empty and holds its own origin |
| Geometry.ContainsHas | sources/src/CoreTypes.cpp:36-39 | a point of a box is a point of every box that contains it |
| Geometry.IntersectsAsWrittenCounterexample | sources/src/CoreTypes.cpp:54-70 | as written, `intersects` reports the boxes (0,0,1,1) and (5,0,1,1) as intersecting although they share no point |
| Geometry.IntersectsIffCommonPoint | sources/src/CoreTypes.cpp:54-70 | with both ranges required to overlap, two non-empty boxes intersect exactly when they share a point |
| Geometry.IsHorizontal | sources/src/CoreTypes.cpp:79-83 | `is_horizontal`: the angle folded at 90 degrees is below the tolerance; HorizontalVerticalExclusive and OrientationMirror state its relation to `is_vertical` and its symmetry |
| Geometry.IsVertical | sources/src/CoreTypes.cpp:85-88 | `is_vertical`: the angle is within the tolerance of 90 degrees; its contract is carried by HorizontalVerticalExclusive and OrientationMirror |
| Geometry.HorizontalVerticalExclusive | sources/src/CoreTypes.cpp:79-88 | with a tolerance of at most 45 degrees, no segment with an angle in [0, 180] is both horizontal and vertical |
| Geometry.OrientationMirror | sources/src/CoreTypes.cpp:79-88 | mirroring the angle (a becomes 180 - a) changes neither orientation test |
| Intervals.IntervalIntersectsIffCommonValue | sources/src/Interval.cpp:5-30 | two well-formed closed intervals intersect exactly when they share an integer |
| Intervals.ExtendAsWritten | sources/src/Interval.cpp:38-43 | as written, `extend` yields bounds no larger than either argument's: each bound is the smaller of the two |
| Intervals.ExtendAsWrittenCounterexample | sources/src/Interval.cpp:38-43 | extending [0,5] by the overlapping [3,10] as written loses the value 10 of the argument |
| Intervals.Extend | sources/src/Interval.cpp:38-43 | the corrected `extend` holds a value exactly when one of the two intervals holds it |
| Intervals.LowerBoundB | sources/src/Interval.cpp:57 | `lower_bound` on the upper bounds: every interval before the result ends below a, and the one at the result does not |
| Intervals.UpperBoundA | sources/src/Interval.cpp:58 | `upper_bound` on the lower bounds: every interval before the result starts at or below b, and the one at the result starts above b |
| Intervals.Splice | sources/src/Interval.cpp:60-68 | the intervals before `start` are kept, the range [start, end) is replaced by one interval, and the rest follows shifted |
| Intervals.BoundsDelimit | sources/src/Interval.cpp:55-58 | on a valid set, every interval after `end` starts above b, and every interval from `start` to `end` reaches a |
| Intervals.Insert | sources/src/Interval.cpp:46-69 | `IntervalSet::insert(a, b)`; InsertShape, InsertValid and InsertCoverage state its contract: the result is the prefix, then [a,b] fused with the intervals it meets, then the suffix; it keeps the set invariant; it covers exactly the old values and [a,b] |
| Intervals.InsertShape | sources/src/Interval.cpp:46-69 | `insert` keeps a prefix of intervals ending before a and a suffix starting after b; it puts in their place either [a, b] or the fusion of [a, b] with the intervals that meet it |
| Intervals.SpliceValid | sources/src/Interval.cpp:60-68 | replacing a run by an interval that fits between the kept prefix and the kept suffix keeps the list sorted and separated |
| Intervals.InsertValid | sources/src/Interval.cpp:46-69 | `insert` keeps the set invariant: well-formed intervals, sorted, each ending before the next one starts |
| Intervals.SeededCoverage | sources/src/Interval.cpp:50-53 | the first push into an empty set covers exactly [a, b] |
| Intervals.SpliceCoverageSound | sources/src/Interval.cpp:60-68 | a value covered after the splice is covered by the new interval or was covered before |
| Intervals.SpliceCoverageComplete | sources/src/Interval.cpp:60-68 | the splice covers the new interval and every kept interval |
| Intervals.InsertCoverageSound | sources/src/Interval.cpp:46-69 | a value covered after `insert(a, b)` was covered before or lies in [a, b] |
| Intervals.InsertCoverageComplete | sources/src/Interval.cpp:46-69 | `insert(a, b)` loses no covered value and covers all of [a, b] |
| Intervals.InsertCoverage | sources/src/Interval.cpp:46-75 | after `insert(a, b)`, `has(v)` holds exactly when it held before or a <= v <= b |
| Intervals.InsertContained | sources/src/Interval.cpp:46-69 | inserting a range that one stored interval already holds leaves the set unchanged |
| Intervals.InsertIntoEmpty | sources/src/Interval.cpp:46-69 | inserting into an empty set gives exactly the one interval [a, b] |
| Intervals.InsertAllCorrect | sources/src/Interval.cpp:46-75 | any run of inserts keeps the invariant and covers exactly the old values plus the inserted ranges |
| Intervals.InsertHoldsRange | sources/src/Interval.cpp:46-69 | after `insert(a, b)`, one stored interval holds all of [a, b] |
| Intervals.InsertKeepsHeld | sources/src/Interval.cpp:46-69 | a range that one stored interval held is still held by one interval after an insert, because fusing only widens intervals |
| Intervals.SpliceKeepsHeld | sources/src/Interval.cpp:60-68 | the splice step of the previous property |
| Intervals.InsertAllHolds | sources/src/Interval.cpp:46-69 | after a run of inserts, each inserted range is held by a single interval |
| Intervals.InsertAllHoldsFirst | sources/src/Interval.cpp:46-69 | the first inserted range is still held by one interval after the whole run |
| Intervals.InsertAllKeepsHeld | sources/src/Interval.cpp:46-69 | a held range stays held through any run of inserts |
| Intervals.SetIntersectsIffCoveredValue | sources/src/Interval.cpp:77-80 | on a valid set, `intersects(i)` holds exactly when some integer of i is covered |
| Intervals.UnitTestMerge | sources/tests/UTInterval.cpp:5-14 | inserting (2,5), (8,15), (5,8) leaves the single interval [2,15] |
| Intervals.UnitTestInsertFirst | sources/tests/UTInterval.cpp:16-26 | (2,5), (8,15), (-1,1) leaves the three intervals in sorted order |
| Intervals.UnitTestInsertLast | sources/tests/UTInterval.cpp:28-38 | (2,5), (8,15), (18,21) leaves the three intervals in sorted order |
| Intervals.UnitTestInsertMiddle | sources/tests/UTInterval.cpp:40-51 | (2,5), (8,15), (6,7) leaves [2,5], [6,7], [8,15] |
| Intervals.UnitTestMergeLeft | sources/tests/UTInterval.cpp:54-64 | (2,5), (8,15), (4,7) leaves [2,7], [8,15] |
| Intervals.UnitTestMergeRight | sources/tests/UTInterval.cpp:67-77 | (2,5), (8,15), (6,17) leaves [2,5], [6,17] |
| Numeric.Trunc | sources/src/config.cpp:32-33 | the float-to-int conversion truncates toward zero: within 1 of the value, and never farther from zero than the value |
| Numeric.Round | sources/src/config.cpp:30-31 | `std::round` gives an integer within 1/2 of the value, taking halves away from zero |
| Numeric.TruncMonotonic | sources/src/config.cpp:32-33 | truncation never decreases as its argument grows |
| Numeric.RoundMonotonic | sources/src/config.cpp:30-31 | rounding never decreases as its argument grows |
| Numeric.ConversionsOfIntegers | sources/src/config.cpp:30-44 | both conversions leave an integer unchanged |
| Config.EffectiveXHeight | sources/src/config.cpp:21-22 | the x-height halved toward zero when scale is 0; MakeConfig states every threshold in terms of it and HalveTowardZero states the halving |
| Config.HalveTowardZero | sources/src/config.cpp:21-22 | `xheight /= 2` halves toward zero, also for a negative x-height |
| Config.MakeConfig | sources/src/config.cpp:19-45 | every threshold as a closed form in the effective x-height (halved when scale is 0); for a non-negative x-height, the roundings become integer quotients |
| Config.RoundOfQuarter | sources/src/config.cpp:30-43 | for xh >= 0: round(1.5 xh), round(0.5 xh) and round(0.75 xh) are (3xh+1)/2, (xh+1)/2 and (3xh+2)/4; the two truncations are (xh+1)/2 and 10 xh |
| Config.FloorOfFraction | sources/src/config.cpp:30-43 | the floor of the real quotient n/d is the integer quotient, for n >= 0 and d > 0 |
| Config.HalveMonotonic | sources/src/config.cpp:21-22 | halving toward zero never decreases as its argument grows |
| Config.ThresholdsMonotonic | sources/src/config.cpp:19-45 | a larger x-height never gives a smaller threshold, for every threshold |
| Config.ConfigExample | sources/src/config.cpp:19-45 | a 10-pixel x-height at scale 1 gives one em 15, line height 20, column spacing 15, minimum column size 90, 8 empty lines, section spacing 5 and size 10, and block minima 5 and 100 |
| Signal.SepRunStart | sources/src/signal.cpp:54-67 | the start of the maximal separator run ending at k: every position from it up to k is a separator and the one before it is not |
| Signal.SepRunEnd | sources/src/signal.cpp:63-67 | the end of the maximal separator run starting at k: every position up to it is a separator and the one at it is not |
| Signal.RunBounds | sources/src/signal.cpp:63-69 | every position of a maximal separator run [a, b) reports the same run bounds a and b |
| Signal.RunEndFrom | sources/src/signal.cpp:63-67 | from any position of a separator run that ends at b, the run end found is b |
| Signal.RunOfSep | sources/src/signal.cpp:63-69 | a separator lies inside its own maximal run, and every position of that run reports the same bounds |
| Signal.SkipSeps | sources/src/signal.cpp:50-67 | the inner loop over 1-values stops at the first non-separator, having passed only separators |
| Signal.SkipNonSeps | sources/src/signal.cpp:57-58 | the inner loop over 0-values stops at the first separator, having passed only non-separators |
| Signal.RunCuts | sources/src/signal.cpp:69-70 | the separators of a run that does not open the signal are all cuts, or none is, according to the run's size, its reaching the end and its holding the type's maximum |
| Signal.ClosedSection | sources/src/signal.cpp:70-74 | a cut-free stretch bounded by cuts or the ends is a section, and the only one starting at its left end |
| Signal.ScanStep | sources/src/signal.cpp:54-76 | one iteration of the outer loop keeps the loop invariant: the emitted sections are exactly the reported sections starting before `left`, in order |
| Signal.CutStepAcc | sources/src/signal.cpp:70-75 | an iteration that closes [left, right) emits it exactly when it is at least `min_section_size` long, and the emitted list stays sound and ordered |
| Signal.ReportedProper | sources/src/signal.cpp:72-73 | every emitted section is a non-empty half-open range |
| Signal.CutOrdered | sources/src/signal.cpp:72-74 | appending the closed section keeps the list increasing, each section ending before the next begins |
| Signal.ReportedAppend | sources/src/signal.cpp:72-73 | appending a reported section to reported sections leaves only reported sections |
| Signal.NoStartBetween | sources/src/signal.cpp:70-74 | no section can start strictly between the start of a closed stretch and the end of the cut run after it |
| Signal.OrderedAppend | sources/src/signal.cpp:72-73 | a section starting after the last one keeps the list ordered |
| Signal.CutComplete | sources/src/signal.cpp:70-75 | after a section is closed, every reported section starting before the new `left` has been emitted |
| Signal.NoCutStepInv | sources/src/signal.cpp:69-70 | an iteration whose separator run is too short and unforced keeps `left` and the invariant |
| Signal.ScanCorrect | sources/src/signal.cpp:54-77 | the outer loop returns exactly the reported sections, in increasing order |
| Signal.SplitSection | sources/src/signal.cpp:42-78 | split_section_T returns, in increasing order, exactly the maximal cut-free stretches of at least `min_section_size`, where a cut is a separator run of at least `min_seperator_size`, or one that reaches the end or holds the type's maximum, or the leading run |
| Signal.LeadingRunIsCut | sources/src/signal.cpp:49-53 | the ignored leading 1-run is all cuts, so no section starts inside it |
| Signal.SectionShape | sources/src/signal.hpp:23-32 | a section starts and ends on 0-values, is bounded by 1-values or the ends, holds no forcing maximum, and every 1-run inside it is shorter than the separator size |
| Signal.MaxIsSep | sources/src/signal.cpp:89-93 | the type's maximum counts as a separator under either projection, so the forced split applies |
| Signal.SepInsideSection | sources/src/signal.cpp:69-75 | a separator inside a section belongs to an interior run that is too short and not forced |
| Signal.WorkedFirstRun | sources/src/signal.hpp:30-32 | in the documented example the 1-run at 4..5 is too short and does not split |
| Signal.WorkedSecondRun | sources/src/signal.hpp:30-32 | in the documented example the 1-run at 8..10 closes the section [1, 8) |
| Signal.WorkedLastRun | sources/src/signal.hpp:30-32 | in the documented example the end of the signal closes [11, 13) |
| Signal.Partitions | sources/src/signal.cpp:82-86 | `partitions` on bytes: `split_section_T` with the byte itself as separator test; SplitSection states what the sections are for any separator test |
| Signal.PartitionsThreshold | sources/src/signal.cpp:89-93 | `partitions` on ints: `split_section_T` with `x >= threshold` as separator test; SplitSection states the sections and PartitionsWorkedExample the documented example |
| Signal.PartitionsWorkedExample | sources/src/signal.hpp:30-32 | the documented example `[1 0 0 0 1 1 0 0 1 1 1 0 0 1]` with threshold 1 and separator size 3 gives [1,8) and [11,13) |
| Signal.PlateauStart | sources/src/signal.cpp:13-19 | the first index of the run of equal values through i |
| Signal.PlateauEnd | sources/src/signal.cpp:21-27 | the last index of the run of equal values through i |
| Signal.InsertByValue | sources/src/signal.cpp:34 | inserting an index into the sorted peaks adds exactly that index and keeps all indices in range |
| Signal.ConsOrdered | sources/src/signal.cpp:34 | an index of value at least every other may go first in the order by decreasing value |
| Signal.InsertKeepsOrder | sources/src/signal.cpp:34 | inserting keeps the list ordered by non-increasing value |
| Signal.SortByValue | sources/src/signal.cpp:34 | the sort is a permutation of its input ordered by non-increasing value |
| Signal.IncreasingCounts | sources/src/signal.cpp:29-32 | the peaks collected in index order hold each index once |
| Signal.RisesToStep | sources/src/signal.cpp:15-18 | the forward pass's recurrence: a plateau rises at i when the left neighbour is smaller, or equal and itself rising |
| Signal.FallsFromStep | sources/src/signal.cpp:23-26 | the backward pass's recurrence: a plateau falls at i when the right neighbour is smaller, or equal and itself falling |
| Signal.MarkRising | sources/src/signal.cpp:11-19 | after the forward pass, index k is still marked exactly when nothing greater precedes its plateau's left edge |
| Signal.MarkFalling | sources/src/signal.cpp:21-27 | after the backward pass, index k is marked exactly when it lies on a plateau that no neighbour exceeds |
| Signal.CollectMarked | sources/src/signal.cpp:29-32 | the collected indices are increasing, in range, and exactly the marked ones |
| Signal.FindPeaks | sources/src/signal.cpp:7-36 | find_peaks returns each index of every local-maximum plateau exactly once and no other index, ordered by non-increasing value |
| Projection.CountBelowIsCardinality | sources/src/signal.cpp:98-113 | the accumulated count of a line is the number of its pixels darker than the white level |
| Projection.BlankLines | sources/src/signal.cpp:95-116 | one flag per row (Axis::X) or column (Axis::Y); a flag is 1 exactly when its line holds fewer than `threshold` pixels below the white level, and 0 otherwise |
| Projection.LineFlag | sources/src/signal.cpp:115 | the byte written for a line is 1 exactly when fewer than `threshold` of its pixels are dark |
| Projection.BlankLinesPercentile | sources/src/signal.cpp:118-133 | the float overloads: one flag per line, 1 exactly when the line holds fewer dark pixels than the truncated fraction `percentile` of the line's length |
| Projection.BlankLinesExtremes | sources/src/signal.cpp:115 | a threshold of 0 or less marks no line blank; with a positive threshold a line without dark pixels is blank |
| Projection.BlankLinesMonotonic | sources/src/signal.cpp:115 | raising the threshold never turns a blank line into a non-blank one |
| Raster.Clip | sources/src/XYCutLayoutExtraction.cpp:132 | `input.clip(roi)` is the image on `roi` whose pixels are those of the input at the same positions |
| Raster.ClipBytes | sources/src/XYCutLayoutExtraction.cpp:132 | clipping a byte image gives a byte image |
| Layout.CategoryOf | sources/src/scribo-python.cpp:273-282 | a name found by the lookup is the binding name of the category it gives |
| Layout.CategoryNameRoundTrip | sources/src/scribo-python.cpp:273-282 | looking up a category's binding name gives the category back |
| Layout.CategoryNameInjective | sources/src/scribo-python.cpp:273-282 | no two categories share a binding name |
| XYCut.BackOverInk | sources/src/XYCutLayoutExtraction.cpp:29-30 | the left end moves back over ink and stops on a white position or at 0 |
| XYCut.SkipWhiteRight | sources/src/XYCutLayoutExtraction.cpp:32-33 | the left end then moves forward over white and stops on ink or at r |
| XYCut.ForwardOverInk | sources/src/XYCutLayoutExtraction.cpp:35-36 | the right end moves forward over ink and stops on a white position or at n - 1 |
| XYCut.SkipWhiteLeft | sources/src/XYCutLayoutExtraction.cpp:38-39 | the right end then moves back over white and stops on ink or at l |
| XYCut.DetectBorderFrom | sources/src/XYCutLayoutExtraction.cpp:24-42 | the border is a non-empty half-open range of the line (or (0, 1) for an empty line) whose two ends are ink unless it shrank to one position; an inky start point is kept together with the ink run before it, and an inky end point stays inside |
| XYCut.DetectBorder | sources/src/XYCutLayoutExtraction.cpp:24-27 | with the start points taken as the truncated page-margin fractions of n, the border is a non-empty range inside the line |
| XYCut.DetectBorderAllInk | sources/src/XYCutLayoutExtraction.cpp:24-42 | a line without white positions keeps its whole range |
| XYCut.DetectBorderAllWhite | sources/src/XYCutLayoutExtraction.cpp:24-42 | an all-white line collapses to the single position of the right start point |
| XYCut.Filter | sources/src/XYCutLayoutExtraction.cpp:123-129 | the filtered segments are exactly those of the input that pass the test |
| XYCut.Spans | sources/src/XYCutLayoutExtraction.cpp:205 | each preventing segment contributes the closed span from its start row to its end row |
| XYCut.PreventedSpans | sources/src/XYCutLayoutExtraction.cpp:191-206 | the interval set of vsplit is valid and covers exactly the rows spanned by a vertical segment inside the inner region that is not one of the horizontal segments |
| XYCut.PreventedBand | sources/src/XYCutLayoutExtraction.cpp:274-276 | the rows [max(0, a - y), min(y1, b) - y) that a stored span clears; SeparatorClearsRow and SeparatorPreventsCut state that each row inside a preventing span falls in one, and PreventedRowIsSpanned the converse |
| XYCut.ForcedBand | sources/src/XYCutLayoutExtraction.cpp:263-266 | the rows [max(0, sy - y - 3), min(ey + 3, y1) - y) that a long horizontal separator forces to 255; LongSeparatorForcesCut states its effect |
| XYCut.FillBand | sources/src/XYCutLayoutExtraction.cpp:265-276 | filling a band sets the positions of [lo, hi) and leaves every other position unchanged |
| XYCut.FillBands | sources/src/XYCutLayoutExtraction.cpp:256-277 | filling several bands with one value sets exactly the positions inside some band |
| XYCut.Strips | sources/src/XYCutLayoutExtraction.cpp:227-242 | three strips with the region's rows: the first quarter of the width, then the second third, then the last third up to the right edge |
| XYCut.StripFlags | sources/src/XYCutLayoutExtraction.cpp:229-242 | one flag per row of a strip, 1 exactly when that strip row has fewer than `kCountEmptyLine` dark pixels |
| XYCut.RowFlag | sources/src/XYCutLayoutExtraction.cpp:245-249 | the minimum of the three flags is 1 exactly when the row is blank in every strip |
| XYCut.BlankRows | sources/src/XYCutLayoutExtraction.cpp:222-252 | one flag per region row, 1 exactly when the row is blank in all three strips |
| XYCut.RowSignal | sources/src/XYCutLayoutExtraction.cpp:254-279 | a row is 0 when a preventing span clears it, otherwise 255 when a long horizontal segment forces it, otherwise its blank flag |
| XYCut.RowSections | sources/src/XYCutLayoutExtraction.cpp:283 | the sections of vsplit are non-empty row ranges of the region |
| XYCut.SeparatorPreventsCut | sources/src/XYCutLayoutExtraction.cpp:270-277 | a row strictly inside the span of a vertical separator in the inner region is 0 and is no cut |
| XYCut.PreventedRowIsSpanned | sources/src/XYCutLayoutExtraction.cpp:270-277 | a cleared row lies on the closed span of some preventing separator |
| XYCut.LongSeparatorForcesCut | sources/src/XYCutLayoutExtraction.cpp:256-283 | a row within 3 pixels of a horizontal separator at least a quarter of the region wide is 255 and lies in no section, unless a vertical separator clears it |
| XYCut.WhitenedBand | sources/src/XYCutLayoutExtraction.cpp:142-146 | the columns within 3 * kExtraMargin of a vertical separator's mean abscissa, clamped to the region; VerticalSeparatorWhitens and VerticalSeparatorForcesCut state its effect |
| XYCut.ColumnThreshold | sources/src/XYCutLayoutExtraction.cpp:132 | int(0.01 * height), the dark-pixel count below which a column is blank; ColumnSignal states the column flags in terms of it |
| XYCut.ColumnSignal | sources/src/XYCutLayoutExtraction.cpp:132-148 | a column is 255 within 3 * kExtraMargin of a vertical separator's mean abscissa, otherwise 1 exactly when it holds fewer than 1% of the region height in dark pixels, otherwise 0 |
| XYCut.ColumnSections | sources/src/XYCutLayoutExtraction.cpp:150 | the columns of hsplit are non-empty column ranges of the region |
| XYCut.VerticalSeparatorForcesCut | sources/src/XYCutLayoutExtraction.cpp:138-150 | every column within 5 pixels of a vertical separator's mean abscissa is 255 and lies in no column range |
| XYCut.ParentOf | sources/src/XYCutLayoutExtraction.cpp:299-319 | the categories a split may give a child of each parent category; SectionRegion and ColumnRegion state that every region they build fits it |
| XYCut.CatRank | sources/src/XYCutLayoutExtraction.cpp:299-319 | the nesting depth left below a category; ParentOfLowersRank states that every allowed step lowers it, which bounds the recursion of the two splits |
| XYCut.ParentOfLowersRank | sources/src/XYCutLayoutExtraction.cpp:299-314 | each parent and child category allowed by the two splits strictly lowers the remaining depth, and no child is a page |
| XYCut.RegionInPage | sources/src/XYCutLayoutExtraction.cpp:321-323 | every region of a well-formed arena lies inside the page with a non-negative size, and only region 0 is a page |
| XYCut.AppendOk | sources/src/XYCutLayoutExtraction.cpp:291-292 | appending a region nested in its parent keeps the arena invariant and extends the arena |
| XYCut.SectionBox | sources/src/XYCutLayoutExtraction.cpp:293-323 | the section box keeps the region's columns and holds exactly the region's points whose row lies within kExtraMargin of the section |
| XYCut.IsTitle | sources/src/XYCutLayoutExtraction.cpp:297 | a section whose height with both margins is below 3 * (kLineHeight / 2) is a title; SectionRegion states that exactly such sections become titles |
| XYCut.SectionRegion | sources/src/XYCutLayoutExtraction.cpp:291-323 | vsplit succeeds exactly for a page or a level-1 column and otherwise throws for the parent's category; a title is exactly a box shorter than 3 * (kLineHeight / 2); the category fits the parent and the box is the section box |
| XYCut.ColumnBox | sources/src/XYCutLayoutExtraction.cpp:157-159 | the column box keeps the region's rows and holds exactly the region's points whose column lies within 3 * kExtraMargin of the column range |
| XYCut.ColumnRegion | sources/src/XYCutLayoutExtraction.cpp:156-169 | hsplit succeeds exactly for a level-1 or level-2 section and otherwise throws; the column category fits the parent and the box is the column box |
| XYCut.AppendSections | sources/src/XYCutLayoutExtraction.cpp:287-325 | the first loop of vsplit fails exactly when there is a section and the parent is neither a page nor a level-1 column; on success it appends, in order, exactly the region of each section and keeps the arena invariant |
| XYCut.VSplit | sources/src/XYCutLayoutExtraction.cpp:180-335 | vsplit never fails on a page or a level-1 column; it keeps the arena invariant and only appends; it appends the section regions first, in order, and then only their descendants |
| XYCut.ChildrenRank | sources/src/XYCutLayoutExtraction.cpp:299-320 | every region the first loop appends ranks below its parent |
| XYCut.ChildrenFirst | sources/src/XYCutLayoutExtraction.cpp:328-334 | after the second loop the section regions are still in place, and every later region hangs under one of them |
| XYCut.SplitChildren | sources/src/XYCutLayoutExtraction.cpp:328-334 | cutting the level-1 and level-2 sections along x keeps the arena invariant, only appends, and hangs everything under the new regions |
| XYCut.HSplit | sources/src/XYCutLayoutExtraction.cpp:112-177 | hsplit never fails on a section; it keeps the arena invariant, only appends regions of the subtree of its parent, and each column's subtree follows that column directly |
| XYCut.AppendColumns | sources/src/XYCutLayoutExtraction.cpp:154-176 | the loop of hsplit fails exactly when a column is found under a parent that is not a section; each level-1 column is cut along y right after it is appended |
| XYCut.ColumnComposes | sources/src/XYCutLayoutExtraction.cpp:173-175 | a column, then its vsplit subtree, then the remaining columns together form a depth-first subtree of the parent |
| XYCut.XYCutLayout | sources/src/XYCutLayoutExtraction.cpp:390-396 | the arena starts with the page; no layout error escapes; regions 1.. are the page's sections in order |
| XYCut.SeparatorSpanHeld | sources/src/XYCutLayoutExtraction.cpp:193-207 | the closed y-span of every preventing vertical separator is held inside one interval of the set |
| XYCut.SeparatorClearsRow | sources/src/XYCutLayoutExtraction.cpp:269-279 | a row strictly inside the span of a preventing separator lies in one of the bands that are cleared to 0 |
| XYCut.VerticalSeparatorWhitens | sources/src/XYCutLayoutExtraction.cpp:138-150 | every column within 5 pixels of a vertical separator's mean abscissa is set to 255 |
| Lines.TakePoint | sources/src/DOMLinesExtractor.cpp:88-97 | `take(p)`; AccumulateEncloses and AccumulateCount state that the extrema enclose the pixels taken and the count grows |
| Lines.TakeAcc | sources/src/DOMLinesExtractor.cpp:99-108 | `take(bbox)`; AccumulateUnion states that merging the accumulators of two disjoint label sets gives that of their union |
| Lines.Centroid | sources/src/DOMLinesExtractor.cpp:123 | `get_mc_y()`, the mean row of the pixels taken; Cents and SortIsStable state the order it induces |
| Lines.Accumulate | sources/src/DOMLinesExtractor.cpp:148-149 | the accumulator of the ink of a label set, as `labeling::accumulate` computes one per label; AccumulateUnion, AccumulateEncloses, AccumulateNothing and AccBoxHoldsPixels carry its contract |
| Lines.AccBox | sources/src/DOMLinesExtractor.cpp:115-121 | `box()` is non-empty exactly when the extrema differ strictly along both axes, and then spans from the minima to the maxima inclusive |
| Lines.AccumulateUnion | sources/src/DOMLinesExtractor.cpp:99-108 | merging the accumulators of two disjoint label sets with `take(bbox)` gives the accumulator of the union of their ink |
| Lines.AccumulateEncloses | sources/src/DOMLinesExtractor.cpp:88-97 | the extrema enclose every pixel taken, and the count is positive once a pixel is taken |
| Lines.AccumulateCount | sources/src/DOMLinesExtractor.cpp:96-133 | the pixel count is never negative |
| Lines.AccumulateNothing | sources/src/DOMLinesExtractor.cpp:85-133 | an accumulator is still the fresh one exactly when none of its pixels was taken |
| Lines.AccBoxHoldsPixels | sources/src/DOMLinesExtractor.cpp:88-121 | a non-empty box holds every pixel its accumulator took |
| Lines.FlatInkHasNoBox | sources/src/DOMLinesExtractor.cpp:117-120 | the ink of a label that lies in one row or one column gives an empty box, so such a label never becomes a LINE |
| Lines.FlatRowExtrema | sources/src/DOMLinesExtractor.cpp:92-93 | ink confined to one row has that row as both row extrema, or none was taken |
| Lines.FlatColumnExtrema | sources/src/DOMLinesExtractor.cpp:90-91 | ink confined to one column has that column as both column extrema, or none was taken |
| Lines.LabelAccs | sources/src/DOMLinesExtractor.cpp:148-149 | `labeling::accumulate` gives one accumulator per label 0..nlabel: that of the ink pixels carrying the label |
| Lines.Candidates | sources/src/DOMLinesExtractor.cpp:152-154 | the labels 1..nlabel kept by the partition: exactly those with a non-empty box, in increasing order |
| Lines.InsertByCentroid | sources/src/DOMLinesExtractor.cpp:160 | inserting a label into the sorted candidates adds exactly that label |
| Lines.InsertKeepsSorted | sources/src/DOMLinesExtractor.cpp:160 | inserting a label larger than every present one keeps the order by (centroid, label) |
| Lines.SortByCentroid | sources/src/DOMLinesExtractor.cpp:160 | the sort is a permutation of the candidates |
| Lines.SortIsStable | sources/src/DOMLinesExtractor.cpp:154-160 | candidates listed in increasing label order come out ordered by centroid, with ties in label order, as a stable sort leaves them |
| Lines.SortedLexDistinct | sources/src/DOMLinesExtractor.cpp:160 | the stably sorted labels are pairwise distinct |
| Lines.SortedAreCandidates | sources/src/DOMLinesExtractor.cpp:160 | sorting neither adds nor drops a label |
| Lines.Cents | sources/src/DOMLinesExtractor.cpp:166-170 | the centroid `get_mc_y()` of every sorted candidate, in sort order |
| Lines.Leads | sources/src/DOMLinesExtractor.cpp:165-182 | the reference grouping: the first label leads; a label joins the current line when its centroid is less than kxheight below the leader's, and otherwise leads a new line |
| Lines.LeaderLeads | sources/src/DOMLinesExtractor.cpp:175-180 | a line's leader is its own leader |
| Lines.LineContiguous | sources/src/DOMLinesExtractor.cpp:167-182 | the labels of a line occupy consecutive positions of the sorted order |
| Lines.MemberNearLeader | sources/src/DOMLinesExtractor.cpp:170-171 | in sorted order, a member's centroid lies in [c, c + kxheight) of its leader's centroid c |
| Lines.LinesApart | sources/src/DOMLinesExtractor.cpp:171-180 | the leaders of two consecutive lines are at least kxheight apart |
| Lines.GroupAccNext | sources/src/DOMLinesExtractor.cpp:173 | a line's accumulator grows by `take` of exactly the members reached so far |
| Lines.GroupAccHasBox | sources/src/DOMLinesExtractor.cpp:173-189 | a line whose leader has a box still has one after its members are merged in |
| Lines.GroupLabelsStep | sources/src/DOMLinesExtractor.cpp:173-175 | each iteration adds the current label to its leader's line and to no other |
| Lines.GroupLabelsFirst | sources/src/DOMLinesExtractor.cpp:165 | a line begins with its leader's label alone |
| Lines.GroupLabelsBefore | sources/src/DOMLinesExtractor.cpp:167-175 | a label is not in any line before its own iteration |
| Lines.GroupAccIsUnion | sources/src/DOMLinesExtractor.cpp:165-182 | a line's accumulator is the accumulator of the ink of all its labels together |
| Lines.GroupAccUnionStep | sources/src/DOMLinesExtractor.cpp:165-182 | one more position keeps a line's accumulator equal to that of its labels' ink: a joining label adds its own ink, any other leaves both unchanged |
| Lines.Joined | sources/src/DOMLinesExtractor.cpp:173-175 | joining changes only the leader's and the joining label's accumulators and the joining label's entry of `newlabels` |
| Lines.MergeStep | sources/src/DOMLinesExtractor.cpp:169-181 | one iteration keeps the scan state well sized |
| Lines.MergeFrom | sources/src/DOMLinesExtractor.cpp:167-182 | the whole loop keeps the scan state well sized |
| Lines.Identity | sources/src/DOMLinesExtractor.cpp:162-163 | `newlabels` starts as the identity on 0..nlabel |
| Lines.ScanStart | sources/src/DOMLinesExtractor.cpp:162-166 | before the loop the scan agrees with the reference: nothing is merged and the first label leads |
| Lines.StepJoins | sources/src/DOMLinesExtractor.cpp:171-176 | a joining iteration keeps the scan in step with the reference |
| Lines.JoinsAccs | sources/src/DOMLinesExtractor.cpp:173-174 | after a join the leader holds its line's accumulator so far and the member a fresh one |
| Lines.JoinsRemap | sources/src/DOMLinesExtractor.cpp:175 | after a join the member is remapped to its leader |
| Lines.JoinsUntouched | sources/src/DOMLinesExtractor.cpp:173-175 | a join leaves the later labels and the non-candidates untouched |
| Lines.StepLeads | sources/src/DOMLinesExtractor.cpp:177-181 | an iteration starting a new line keeps the scan in step with the reference |
| Lines.LeadsAccs | sources/src/DOMLinesExtractor.cpp:179-180 | a new leader keeps its own accumulator |
| Lines.LeadsRemap | sources/src/DOMLinesExtractor.cpp:179-180 | a new leader keeps its own label |
| Lines.StepAny | sources/src/DOMLinesExtractor.cpp:169-181 | every iteration keeps the scan in step with the reference |
| Lines.ScanStep | sources/src/DOMLinesExtractor.cpp:167-182 | one iteration, stated on the state it leads to, keeps the invariant |
| Lines.ScanAll | sources/src/DOMLinesExtractor.cpp:167-182 | the loop ends in step with the reference grouping |
| Lines.LeaderPositions | sources/src/DOMLinesExtractor.cpp:186-189 | the leader positions, in increasing order |
| Lines.LeaderPositionsComplete | sources/src/DOMLinesExtractor.cpp:186-189 | every leader position is listed |
| Lines.LeaderPositionsGapless | sources/src/DOMLinesExtractor.cpp:186-189 | no leader lies between two consecutive listed leaders |
| Lines.LinesOf | sources/src/DOMLinesExtractor.cpp:186-197 | the reference output: one LINE per listed leader, boxing the ink of its whole line |
| Lines.LinesOfCons | sources/src/DOMLinesExtractor.cpp:186-197 | the reference output of a list is its first LINE followed by the output of the rest |
| Lines.EmitLines | sources/src/DOMLinesExtractor.cpp:186-198 | the emission loop over the sorted candidates; EmitIsLines states that it produces exactly the reference lines |
| Lines.EmitIsLines | sources/src/DOMLinesExtractor.cpp:186-198 | after the scan, the emission loop produces exactly the reference lines: one per leader, in sorted order, each boxing the ink of all its merged labels |
| Lines.LineOrder | sources/src/DOMLinesExtractor.cpp:152-160 | the scan order holds exactly the labels 1..nlabel with a box, each once, ordered by (centroid, label) |
| Lines.LineLeads | sources/src/DOMLinesExtractor.cpp:165-182 | the reference leader of every position of the scan order |
| Lines.ScanOutcome | sources/src/DOMLinesExtractor.cpp:162-198 | after the whole loop the emitted LINEs are the reference lines, every candidate maps to its leader, and every other label maps to itself |
| Lines.ComputeLineBoxes | sources/src/DOMLinesExtractor.cpp:137-200 | `newlabels` has one entry per label 0..nlabel; without candidates there is no LINE and the identity table |
| Lines.LinesAreReference | sources/src/DOMLinesExtractor.cpp:137-200 | compute_line_bboxes emits one LINE per line leader in scan order, boxing the ink of all labels merged into that line |
| Lines.RemapIsReference | sources/src/DOMLinesExtractor.cpp:162-184 | the table sends every candidate to its line's leader and leaves every other label alone |
| Lines.TableFacts | sources/src/DOMLinesExtractor.cpp:162-184 | a table that sends listed labels to their leaders and keeps the rest keeps 0, stays in 0..n and is idempotent |
| Lines.RemapTable | sources/src/DOMLinesExtractor.cpp:162-184 | the relabelling of the watershed image keeps the background 0, stays within the labels and is idempotent |
| Lines.RemapKeepsBoxless | sources/src/DOMLinesExtractor.cpp:154-184 | a label whose ink has no box is not relabelled |
| Lines.LineShape | sources/src/DOMLinesExtractor.cpp:186-197 | every LINE has a non-empty box and the region's parent, and its mask instance is a candidate that the table maps to itself |
| Lines.LineHoldsItsInk | sources/src/DOMLinesExtractor.cpp:184-197 | a LINE's box holds every ink pixel whose label the table maps to the LINE's mask instance |
| Lines.LinesApartByCentroid | sources/src/DOMLinesExtractor.cpp:171-197 | consecutive LINEs come in centroid order, their leading labels' centroids at least kxheight apart |
| Lines.MergedLabelNearLine | sources/src/DOMLinesExtractor.cpp:170-175 | a merged label's centroid lies in [c, c + kxheight) of the centroid c of the label it is mapped to |
| Lines.SortedCentsNonDecreasing | sources/src/DOMLinesExtractor.cpp:160 | the centroids of the sorted candidates never decrease |
| Markers.MarkerAt | sources/src/DOMLinesExtractor.cpp:229-237 | the marker written at a position: its value when it is the leftmost minimum of its dark run, 255 otherwise; RunMarkers, RunHasOneMarker and RowMarkers state that the scan writes exactly these |
| Markers.RunMarkers | sources/src/DOMLinesExtractor.cpp:229-235 | inside a maximal dark run, the leftmost minimum found over the run is the only position that is a leftmost minimum |
| Markers.SliceMin | sources/src/DOMLinesExtractor.cpp:229-235 | the inner loop keeps the leftmost position of the smallest value of the run: a later equal value does not replace it |
| Markers.RunHasOneMarker | sources/src/DOMLinesExtractor.cpp:225-237 | every maximal run of values at or below 230 holds exactly one marker |
| Markers.RowMarkers | sources/src/DOMLinesExtractor.cpp:220-238 | a scanned row holds, at each position, the value there when it is the leftmost minimum of its dark run, and 255 everywhere else |
| Markers.MarkerImage | sources/src/DOMLinesExtractor.cpp:219-239 | the marker image has the shape of the region, and every row is marked as one row is |
| Helpers.SumAlongX | sources/src/DOMBuilder_helpers.cpp:8-21 | the result holds, for every row of the domain, the sum of that row's pixels, equal to the reference row sums |
| Helpers.RowSums | sources/src/DOMBuilder_helpers.cpp:8-21 | the reference projection onto the y axis has one entry per row |
| Helpers.SumAlongY | sources/src/DOMBuilder_helpers.cpp:23-35 | accumulating every pixel, in raster order, into the bin of its column gives, for every column, the sum of that column's pixels |
| Helpers.ColumnSums | sources/src/DOMBuilder_helpers.cpp:23-35 | the reference projection onto the x axis has one entry per column |
| Helpers.ColumnStep | sources/src/DOMBuilder_helpers.cpp:29-33 | adding the pixel of row y to its column's running sum gives the sum of the column's first y+1 pixels |
| Helpers.ProjectionTotals | sources/src/DOMBuilder_helpers.cpp:8-35 | the row sums and the column sums add up to the same total, the sum of all pixels |
| Helpers.DetectLeadingSpace | sources/src/DOMBuilder_helpers.cpp:42-49 | the result is the first index whose value is below the threshold, or n when there is none: every earlier value reaches the threshold |
| Helpers.DetectLeadingSpaceBytes | sources/src/DOMBuilder_helpers.cpp:51-58 | the result is the first index holding a non-zero byte, or n when all bytes are zero |
| Helpers.GetRank | sources/src/DOMBuilder_helpers.cpp:101-107 | the histogram is replaced by its prefix sums; the index returned is the lower bound of int(rank * total) in them: every earlier prefix sum is below it, every later one reaches it, and for rank <= 1 it is a valid bin |
| Helpers.RankThresholdAtMostTotal | sources/src/DOMBuilder_helpers.cpp:104 | for 0 <= rank <= 1 the truncated count int(rank * total) lies between 0 and the total |
| Helpers.Histogram | sources/src/DOMBuilder_helpers.cpp:171-172 | the 256 bins hold non-negative counts |
| Helpers.HistogramPrefix | sources/src/DOMBuilder_helpers.cpp:171-173 | the sum of the first k bins of the histogram counts the pixels whose value is below k |
| Helpers.Rank | sources/src/DOMBuilder_helpers.cpp:169-175 | the result is the smallest grey level v such that at least int(r * N) of the N pixels are at most v; for r <= 1 it is a grey level |
| Subsample.Subsample | sources/src/subsample.cpp:10-29 | the output is (width/2) x (height/2); every output pixel reads only pixels inside the input, and four times it is the floor of the weighted sum of the block's top-left, top-right and twice its bottom-left pixel |
| Subsample.BlockValue | sources/src/subsample.cpp:26 | the block value is the floor of a quarter of that weighted sum |
| Subsample.SubsampleBounds | sources/src/subsample.cpp:26 | every output pixel lies between the least and the greatest pixel it reads |
| Subsample.SubsampleIsBytes | sources/src/subsample.cpp:19-27 | the down-sampling of a byte image holds bytes again, so storing it in the same pixel type loses nothing |
| Subsample.SubsampleIgnoresOddCorners | sources/src/subsample.cpp:24-26 | two images that differ only on pixels with both coordinates odd have the same down-sampling: the bottom-right pixel of a block is never read |
| Subsample.SubsampleConstant | sources/src/subsample.cpp:21-27 | a constant image down-samples to the same constant |
| Subsample.SubsampleAsWrittenCounterexample | sources/src/subsample.cpp:26 | the block [[0, 0], [255, 0]] gives 127 while its mirror image [[0, 255], [0, 0]] gives 63 |
| Subsample.SubsampleMean | sources/src/subsample.cpp:10-29 | with the bottom-right pixel read in place of the second bottom-left read, four times each output pixel is the floor of the sum of its whole 2x2 block |
| Subsample.SubsampleMeanTranspose | sources/src/subsample.cpp:21-27 | the corrected down-sampling commutes with mirroring the image along its diagonal |
| Subsample.SubsampleMatchesMean | sources/src/subsample.cpp:26 | where a block's two bottom pixels are equal, the source as written and the block mean agree |
| Text.ValueOfDigits | cli/batch_process.py:48-49 | int() of the decimal digits of a number is that number |
| Text.Split | cli/batch_process.py:44 | str.split always gives at least one piece |
| Text.JoinSplit | cli/batch_process.py:44 | joining the pieces of a split with the separator gives the text back |
| Text.SplitJoin | cli/batch_process.py:44-47 | splitting a join gives the pieces back when none of them holds the separator |
| Text.SplitPiecesAvoid | cli/batch_process.py:44 | no piece of a split holds the separator |
| PageRange.ParseRange | sources/src/main.cpp:19-35 | text without "--" selects the one page atoi reads, and fails only when that page is INT_MAX, whose successor overflows; a successful parse gives consecutive pages in increasing order, all below INT_MAX |
| PageRange.IotaView | sources/src/main.cpp:34 | `std::views::iota(a, b + 1)` in int: the pages a to b when b is below INT_MAX and a <= b + 1, an overflow of `b + 1` when b = INT_MAX, an invalid view otherwise |
| PageRange.LeadingInt | sources/src/main.cpp:25-31 | the integer `strtol` reads after white space and a sign, shared by atoi and stoi; LeadingIntOfShow states that it reads back every printed number |
| PageRange.Atoi | sources/src/main.cpp:25 | `std::atoi`: the leading integer, or 0 without digits; ParseRange and NoDigitsSelectsPageZero state its use |
| PageRange.Stoi | sources/src/main.cpp:30-31 | a value stoi returns fits an int |
| PageRange.SkipSpace | sources/src/main.cpp:25-31 | the position reached is the first one after the leading white space |
| PageRange.DigitsEnd | sources/src/main.cpp:25-31 | the position reached ends the run of digits that starts at the given position |
| PageRange.FindSeparator | sources/src/main.cpp:22 | the position found starts a "--" and no earlier position does; when none is found the text holds no "--" |
| PageRange.Iota | sources/src/main.cpp:34 | std::views::iota(a, b + 1) gives b - a + 1 pages, the t-th being a + t |
| PageRange.LeadingIntOfShow | sources/src/main.cpp:25-31 | the leading integer read from a number's decimal text, followed by anything not starting with a digit, is that number |
| PageRange.NoSeparatorInShow | sources/src/main.cpp:22 | the decimal text of a number holds no "--" |
| PageRange.SeparatorAfterShow | sources/src/main.cpp:22-31 | the first "--" of a number's text followed by "--" is the one right after the number |
| PageRange.ParseSinglePage | sources/src/main.cpp:22-34 | a page number's text selects exactly that page, except INT_MAX, for which `b + 1` overflows |
| PageRange.ParsePageRange | sources/src/main.cpp:28-34 | "a--b" for two ints selects the pages a to b, in order, when b < INT_MAX and a <= b + 1; b = INT_MAX overflows `b + 1`, and a > b + 1 gives no valid view |
| PageRange.NoDigitsSelectsPageZero | sources/src/main.cpp:23-26 | a single page without digits selects page 0, as atoi reads no digits as 0 |
| PageRange.RangeNeedsNumbers | sources/src/main.cpp:28-31 | the range form fails when one side has no number, as stoi throws |
| RegionJson.ToJson | back/scribo.py:10-15 | the dictionary holds the dynamic attributes and the three keys box, type and parent, which hold the region's box as a 4-tuple, its category name and its parent id; every other attribute is kept |
| RegionJson.PyInt | back/scribo.py:20-21 | int() of an integer is the integer; int() of a sequence raises a TypeError |
| RegionJson.StoreInt | sources/src/scribo-python.cpp:229-240 | an integer is stored in a C++ int field exactly when it fits 32 bits, and unchanged |
| RegionJson.Unpack4 | back/scribo.py:20 | unpacking succeeds on a sequence exactly when it has four items, and always gives four values |
| RegionJson.ConvertAll | back/scribo.py:21 | the tuple of the four `int()` conversions, built before any field is stored: it succeeds exactly when every item converts, and otherwise fails with the error of the first item that does not |
| RegionJson.StoreBox | sources/src/scribo-python.cpp:231-234 | the four property assignments: the box is stored exactly when every value fits a C++ int, and a TypeError is raised otherwise |
| RegionJson.ReadBox | back/scribo.py:20-21 | an integer cannot be unpacked; a sequence of other than four items raises a ValueError; when an item does not convert, the error is that of the conversions, before anything is stored; otherwise the result is that of storing the converted values; the tuple of a box whose fields fit an int reads back as that box |
| RegionJson.ReadBoxConvertsBeforeStoring | back/scribo.py:21 | the first box item `int()` refuses decides the error, even when an earlier item would not fit a C++ int |
| RegionJson.ReadBoxStoresConverted | back/scribo.py:21 | when every item converts, the box is read exactly when every value fits an int, and is then the box of the converted values |
| RegionJson.ReadBoxValueErrorFirst | back/scribo.py:21 | `[2**32, "a", 0, 0]` raises the ValueError of `int("a")`, not the TypeError of the store |
| RegionJson.ReadCategory | back/scribo.py:22 | a category read is the one the string names, and the name of every category reads back as it; a non-string, or an attribute of the enum class that is not a category (`name`, `value`, `__doc__`, `__members__`), raises TypeError; any other unknown name finds no category |
| RegionJson.FromJson | back/scribo.py:17-25 | a missing box or type raises a KeyError; the errors of reading the box, the category and the parent are passed on in that order; it succeeds exactly when all of them are read; on success the category is the type given, the parent is the one given or -1, the mask instance id is -1, and the dictionary is left with the non-reserved keys, which become the new region's attributes |
| RegionJson.RoundTrip | back/scribo.py:10-25 | from_json(to_json(r)) gives back the box, the category, the parent and the attributes of a region whose numbers fit an int, with the mask instance id reset to -1, and leaves the attributes in the dictionary |
| RegionJson.ReservedAttributeIsOverwritten | back/scribo.py:12-14 | an attribute named "box" does not survive to_json: the region's own box is written over it |
| RegionJson.FromJsonThenToJson | back/scribo.py:10-25 | to_json(from_json(d)) is d again when d holds a storable box as four integers, a category name and a parent |
| RegionJson.BoxFromText | back/scribo.py:20-21 | a string of four digits unpacks character by character into a box |
| BatchPages.ParsePages | cli/batch_process.py:39-51 | the action fails, with the message "Invalid pages: " followed by the text, exactly when some comma-separated piece is not one number or two numbers joined by a dash |
| BatchPages.Accepts | cli/batch_process.py:37-40 | every comma-separated piece is one number or two numbers joined by a dash; AcceptsIffFullMatch states that this is exactly the regex full match |
| BatchPages.AcceptsIffFullMatch | cli/batch_process.py:37-40 | the piece-by-piece test accepts exactly the texts that the pattern (\d+-\d+\|\d+)(,(\d+-\d+\|\d+))* fully matches |
| BatchPages.ItemIff | cli/batch_process.py:37 | a piece splits on '-' into one or two numbers exactly when it matches \d+-\d+\|\d+ |
| BatchPages.ItemSound | cli/batch_process.py:47 | a piece that splits into one or two numbers matches the item pattern |
| BatchPages.ItemComplete | cli/batch_process.py:47 | a piece that matches the item pattern splits into one or two numbers |
| BatchPages.RangeItemSplits | cli/batch_process.py:47 | "a-b" for two numbers splits on its dash into exactly those two numbers |
| BatchPages.ItemHasNoComma | cli/batch_process.py:37 | no item the pattern matches holds a comma, so splitting on ',' recovers the items |
| BatchPages.Range | cli/batch_process.py:50 | range(a, b) holds exactly the integers x with a <= x < b |
| BatchPages.InUnion | cli/batch_process.py:45-50 | a page is in the set the loop builds exactly when some piece selects it |
| BatchPages.ItemPagesMeaning | cli/batch_process.py:47-50 | the piece "a" selects {a}; the piece "a-b" selects the pages a to b inclusive, and none when b < a |
| BatchPages.ParseRendered | cli/batch_process.py:39-51 | a comma-joined list of matching items is accepted and selects exactly the union of what its items select |
| BatchPages.Name | cli/batch_process.py:54 | the name of a path holds no slash |
| BatchPages.LastComponent | cli/batch_process.py:54 | the name is one of the path's components, never ".", or empty when there is none |
| BatchPages.NameOfPath | cli/batch_process.py:54 | the name of dir/name is name |
| BatchPages.LastDot | cli/batch_process.py:55 | the result is the position of the last '.' of the name, or none when it holds no dot |
| BatchPages.Suffix | cli/batch_process.py:55 | the suffix is empty, or a dot followed by at least one character and no other dot |
| BatchPages.SuffixOfFileName | cli/batch_process.py:55 | the suffix of dir/stem.ext is ".ext" when neither stem nor ext is empty or holds a dot or a slash |
| BatchPages.CheckSuffix | cli/batch_process.py:53-60 | the argument is returned unchanged exactly when its suffix is ".json" or ".zip", and the argparse error with its message is raised otherwise |
| BatchPages.CheckSuffixOfFileName | cli/batch_process.py:53-60 | every dir/stem.json and dir/stem.zip with a plain non-empty stem is accepted |
| BatchPages.HiddenFileRefused | cli/batch_process.py:55-58 | ".json" names a hidden file without suffix, so it is refused |
| Ner.PySlice | back/ner/ner.py:122 | with bounds inside the text, s[a:b] is the ordinary slice; it is never longer than the text |
| Ner.Strip | back/ner/ner.py:122 | the stripped text is a contiguous piece of the input, everything cut off on either side is white space, and it neither starts nor ends with white space |
| Ner.LeadingBlank | back/ner/ner.py:172-176 | exactly a span starting with a tab, a space or a newline gives up its first character, and that character is the span's own |
| Ner.XmlString | back/ner/ner.py:150-186 | `_get_xml_string`; XmlRoundTrip states that untagging and unescaping it gives the entry text back, and XmlWithoutEntities the case without entities |
| Ner.Escape | back/ner/ner.py:161 | `html.escape(x, quote=False)`; DecodeEscape states that the three entity references undo it |
| Ner.XmlRoundTrip | back/ner/ner.py:150-186 | for entities in order, inside the text and without overlap, deleting the tags of the XML string and undoing the escapes gives the entry text back |
| Ner.XmlWithoutEntities | back/ner/ner.py:161-186 | without entities the XML string is the escaped entry text |
| Ner.DecodeEscape | back/ner/ner.py:161 | html.escape with quote=False is undone by turning the three entity references back into their characters |
| Ner.DecodeJoin | back/ner/ner.py:186 | joining readable parts and reading the result back gives the text the parts stand for |
| Ner.GapPlain | back/ner/ner.py:167-169 | the escaped gap before an entity stands for the source text between the cursor and the entity's start |
| Ner.ElementPlain | back/ner/ner.py:170-179 | the moved leading blank followed by the element stands for the whole span |
| Ner.EntityPlain | back/ner/ner.py:166-180 | the parts one entity appends stand for the source text from the cursor to the entity's end |
| Ner.PartsPlain | back/ner/ner.py:164-186 | the parts from one entity on, closed by the escaped rest, stand for the rest of the text from the cursor |
| Ner.PartsReadable | back/ner/ner.py:164-186 | every part the loop appends can be read back, as long as the labels hold no '>' |
| Ner.BuildStep | back/ner/ner.py:125-140 | one iteration of the loop of `_build_entry`: an entity labelled "addresses" puts its text on the address list before a non-CARDINAL closes the open address; StepCases, CardinalStep and OtherStep state its branches |
| Ner.BuildEntry | back/ner/ner.py:110-147 | `_build_entry`; BuildEntryIsReference states its address list and persons against an independent reference, and BuildEntryAddresses what the address list holds |
| Ner.StepCases | back/ner/ner.py:125-140 | a CARDINAL adds its text to the numbers of an open address and emits nothing; every other label first lists its own text when it is labelled "addresses", then closes the open address; a LOC opens the next one; an address without a street never has numbers |
| Ner.CardinalStep | back/ner/ner.py:129-137 | a CARDINAL step keeps the address list to come unchanged: its text moves from the run that follows into the open address |
| Ner.OtherStep | back/ner/ner.py:125-140 | any other step lists its stray text, emits the open address and opens the next LOC, which leaves the address list to come unchanged |
| Ner.BuildFromAddresses | back/ner/ner.py:125-143 | from any well-formed loop state, the address list emitted is the one already done, then the stray text of the next non-CARDINAL, the open address with the CARDINALs that follow it, and the rest of the reference list |
| Ner.BuildFromPersons | back/ner/ner.py:125-127 | the loop appends the stripped texts of the PER entities, in order |
| Ner.BuildEntryIsReference | back/ner/ner.py:110-147 | _build_entry returns the reference address list, in which each non-CARDINAL entity labelled "addresses" lists its text just before the address that entity closes, and each LOC whose stripped text is not empty gives one address carrying the CARDINALs that directly follow it; and it returns the PER texts in order |
| Ner.AddressesShape | back/ner/ner.py:129-143 | every reference address has a street name, and there are no more of them than LOC entities |
| Ner.BuildEntryAddresses | back/ner/ner.py:125-147 | the Address items _build_entry returns are, in order, one per LOC with a non-empty text, each with a street name, and no more of them than LOC entities; its other items are, in order, the texts of all entities labelled "addresses" |
| Ner.AddressListItems | back/ner/ner.py:125-143 | the reference list's Address items are one per LOC with a non-empty text, in order, and its stray items the texts of the entities labelled "addresses", in order |
| Ner.AfterItems | back/ner/ner.py:125-143 | after a non-CARDINAL entity, the list to come holds the addresses of the LOCs from that entity on and the stray texts of the entities after it |
| Ner.CardinalsAddNothing | back/ner/ner.py:129-137 | a run of CARDINAL entities adds neither an address nor a stray text of its own |
| Ner.NextOther | back/ner/ner.py:129-137 | the first position at or after i that is not a CARDINAL: everything before it is a CARDINAL |
| Ner.StrayLabelListed | back/ner/ner.py:127 | the text "x" under the label "addresses" gives the address list ["x"] and no persons |
| Ner.StrayBeforeClosedAddress | back/ner/ner.py:127-131 | for a LOC "a" followed by an "addresses" entity "b", "b" is listed before the address "a" it closes |

## Left out

- Image morphology and library image operations are not modelled, because they are computations of the image library and not of this core. This covers the page crop, the block openings, the Gaussian blur, the closings, the reconstruction, the watershed and `resize`/`upsample`. `XYCut.XYCutLayout` takes the block image as its input, with the page region as its domain. `Lines.ComputeLineBoxes` takes the watershed labels of the inked pixels as its input. `Markers.MarkerImage` takes the closed, blurred region.
- The `std::sort` of the segments by `start.y` before the XY-cut is not modelled. The splitter takes the segments in the order given.
- Floating-point numbers are modelled as exact reals, and single-precision rounding is not modelled. This covers the segment angle and length, `kOneEm`, `kLineHeight`, the centroid `get_mc_y`, the rank product `rank * total` and the percentile product of the float projection overload.
- `XYCut.DetectBorder` computes the start points int(0.1 * n) and int(0.9 * n) exactly. The source computes them in single precision, and 0.9 is not exact there. `XYCut.DetectBorderFrom` takes the start points as parameters and holds for any of them.
- `XYCut.ColumnThreshold` is int(0.01 * height) over exact reals. The source computes it in single precision.
- `Signal.FindPeaks` sorts with a stable insertion sort. The source's `std::sort` is not stable, so its contract states only the order by non-increasing value and leaves ties open.
- Integer overflow of accumulated sums is not modelled: integers are unbounded. This covers the `int` row and column sums, the `int` coordinate sums of the bbox accumulator and the `unsigned` histogram counts. `Helpers.GetRank` and `Helpers.Rank` require the total to fit in 32 bits.
- `Subsample.Subsample` requires the input domain to start at (0, 0). The source reads the input at absolute coordinates from (0, 0) and allocates a fresh output at the origin.
- `PageRange.ParseRange`: `std::atoi` on an out-of-range number is undefined behaviour in C++ and is modelled as the unbounded value. Two other undefined behaviours are modelled as errors. When b = INT_MAX, the int addition `b + 1` overflows, and this is the error `BoundOverflow`. When a > b + 1, `std::views::iota(a, b + 1)` violates the view's precondition, and this is the error `EmptyIota`. The log line is left out.
- `BatchPages.ParsePages` and `Text.IsNumber` read the ASCII digits only. Python's `\d` and `int()` also accept other Unicode decimal digits.
- `RegionJson.PyInt` reads a string as an optional sign followed by decimal digits. Python's `int()` also skips surrounding white space and accepts underscores between digits. Floats, booleans and None are not among the modelled values.
- RegionJson.ReadCategory: of the attributes `getattr` finds on the enum class without naming a category, only `name`, `value`, `__doc__` and `__members__` are modelled; the others, such as `__init__`, `__class__` or `__entries`, are treated like unknown names and give `NoSuchCategory` instead of the TypeError of the assignment.
- `RegionJson.ToJson` models the dictionary as a map, so the insertion order of the keys is left out.
- `Box::scale`, `Segment::scale` and `Interval::overlap` are left out because they are floating-point scaling.
- Deskew, skew estimation, segment detection, OCR, PDF rendering, JSON export, display, the HTTP server, the rest of `main.cpp` and of the batch tool, and the pipeline orchestration are outside this core.
- Logging, debug image dumps and the label-count mismatch warning are left out because they do not affect results.
- The spaCy and BERT recognisers that produce the named entities are left out because they are foreign models. Their output list is an input of `Ner.XmlString` and `Ner.BuildEntry`. The score and the recogniser's own text of an entity are not read by either builder.
- `Signal.FindPeaks` reports every position of a flat maximum, as `find_peaks` does (sources/src/signal.cpp:7-36), not one position per plateau.
- `XYCut.Strips` gives the first of the three vsplit strips a width of `w/4`, as the code does (sources/src/XYCutLayoutExtraction.cpp:227-242), although its comments call the strips thirds.
- `XYCut.VSplit` first appends all sections and titles of a region and only then recurses into them, as the code does (sources/src/XYCutLayoutExtraction.cpp:287-334).
- The header comment of the byte `detect_leading_space` (sources/src/DOMBuilder_helpers.hpp:17-18) announces the first zero. The loop stops at the first non-zero byte, and `Helpers.DetectLeadingSpaceBytes` follows the loop.

## Findings

| source | as written | input that shows it | evidently intended | confidence | as-written member | corrected member |
|---|---|---|---|---|---|---|
| sources/src/CoreTypes.cpp:66-70 | `Box::intersects` joins the x-overlap test and the y-overlap test with `\|\|` | the boxes (0,0,1,1) and (5,0,1,1) share no point, yet are reported as intersecting | `&&`: both ranges must overlap | not executed | Geometry.IntersectsAsWrittenCounterexample | Geometry.IntersectsIffCommonPoint |
| sources/src/Interval.cpp:42 | `Interval::extend` sets the upper bound to the smaller of the two upper bounds | extending [0,5] by the overlapping [3,10] gives [0,5], which loses 6..10 | `std::max`, so that the result holds both intervals | not executed | Intervals.ExtendAsWrittenCounterexample | Intervals.Extend |
| sources/src/subsample.cpp:26 | `subsample_T` reads the pixel `{x0, y0+1}` twice and never reads `{x0+1, y0+1}` | the block [[0,0],[255,0]] gives 127, while its mirror image [[0,255],[0,0]] gives 63 | the mean of the four pixels of the 2x2 block | not executed | Subsample.SubsampleAsWrittenCounterexample | Subsample.SubsampleMean |
