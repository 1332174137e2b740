# Verified kernels

A Dafny model of the algorithmic kernels of a perovskite solar-cell laboratory system: the batch and experiment
database with its web client, and the optimizer that suggests deposition recipes. Each module models one kernel and
proves what it is for. `dafny verify dfyconfig.toml` checks everything.

| module | kernel |
|---|---|
| `Swarm` | the greedy bee-swarm packing of box plots |
| `JvCurve`, `DescriptiveStats` | figures of merit of a J-V curve, and summary statistics |
| `Permutation`, `ExactTest`, `SeparatedGroups`, `BenjaminiHochberg` | the randomization test, what it counts, its value for groups that do not overlap, and its multiple-test adjustment |
| `Representatives`, `Substrates`, `GroupStatistics`, `Assignments` | the scan that represents a device, the grouping of devices by substrate, the statistics and comparisons of groups, and the assignment of substrates to control and target groups |
| `Crc`, `Png`, `Tiff`, `TiffReader` | the chart exporters, against RFC 2083 (sections 3.2, 3.4, 4.1.1 and 4.2.5) and TIFF 6.0 (sections 2 and 6) |
| `VcdProgram`, `JsonPath`, `Recipe`, `FrozenValues`, `DeviceRecipe`, `StoredRecipe` | the vacuum program in the snapshot editor, the validators behind it, the recipe it is flattened into, the nested device recipe, and all of it stored and read back |
| `ApiResource`, `RunSheet`, `BatchDetailPage` | the protocol that drops stale responses, and the isolation of routes built on it |
| `Middleware` | the cap on request bodies, and the search of an exception graph for its violation |
| `SearchSpace`, `Optimizer`, `Scoring` | the grid and the encoding of recipe candidates, the suggestion among them, and what its scores mean |
| `LegacyRepair` | the regrouping of old analyses by a data migration |

`Reals`, `Scalars`, `Sorting`, `Sequences`, `Bytes` and `Wrappers` hold what several of them share.

Code that updates objects, buffers or dictionaries is modelled by classes, arrays and loops, and proved against
functions; the theorems are about those functions, or about whole runs of a transition system. Floating-point numbers
are exact reals. The square root is any function that is non-negative and squares back. The exponential is any
non-negative function that is 1 at 0 and rises strictly wherever it is positive, so results hold even where a float
underflows to zero. Time, randomness and the network are arguments: draws, responses and their order are arbitrary.

## Where the code differs from what it says

- The migration calls its mapping of substrate ids 1-to-1. `A01` and `A011` are both mapped to `A011` when an analysis
  stores both (`LegacyRepair.NotOneToOne`); `LegacyRepair.OneToOneWhen` gives the exact condition. The row updates are
  right all the same, because a mark that is mapped to is a fixed point.
- `bestTrace` is documented to give null when a direction has no valid scan. It also gives null when no valid scan has
  a PCE, where the device record keeps the first scan (`Representatives.TablesDisagree`). A stored valid trace with points
  and no metrics is drawn although the record has no scan (`Representatives.FiguresDisagree`). `TablesAgree` and
  `FiguresAgree` give the exact conditions.
- The flat record of a v5 analysis is documented to be the device's sample. It is one only until the analysis is upgraded,
  which every assignment does first (`GroupStatistics.FlatRecordIsLost`); no statistic of an assignment depends on
  it (`Assignments.FlatRecordsAreNotSeen`).
- A save of a preparation patches the sheet its render saw, not the current one, so a save that resumes after a reload can
  put an older sheet over the fresh one (`RunSheet.OlderSheetOverFresh`); `RunSheet.SaveShows` says exactly when it does
  not.
- A failed recipe outside the search space rules out an untried point inside it, in every space with a parameter that
  admits only one number (`Optimizer.OutsideHistoryRulesOut`); `Optimizer.RuledOutWhen` says exactly which candidates are
  ruled out.
- Groups that do not overlap need not have the least p-value of the randomization test: with controls 0, 0 and targets
  10, 10, 1000 another choice of two values is as extreme (`SeparatedGroups.SeparatedButNotLeast`);
  `SeparatedGroups.SeparatedP` gives the exact condition.
- A recipe constructed with its step sequence as a list differs from the same recipe read back, whose sequence is a
  tuple (`Recipe.ListDoesNotComeBack`); it is the only way in which they differ (`StoredRecipe.RoundTrip`).
- The TIFF writer keeps the low 32 bits of every size and of the resolution (`TiffReader.TooWide`); `TiffReader.RoundTrip`
  holds exactly when they fit. The PNG injector raises on fewer than 33 bytes (`Png.InsertChunk`).

## Model

| member | source | states |
|---|---|---|
| Swarm.ForbiddenInterval | metric_boxplot.py:117-123 | beside a neighbour within reach, the positions that overlap it are exactly the open interval between its two tangents |
| Swarm.SomeCandidateIsClear | metric_boxplot.py:116-125 | from any position clear of all neighbours there is a candidate (centre or tangent) at least as near the centre that is clear as well |
| Swarm.ChooseAlwaysFinds | metric_boxplot.py:120-125 | the inner loop always breaks: what is chosen is a candidate its test accepts |
| Swarm.ChooseIsNearest | metric_boxplot.py:120-125 | no real position that truly avoids all earlier circles is nearer the centre than the chosen one |
| Swarm.ChooseGoesLeft | metric_boxplot.py:120-125 | of the candidates that are clear, none is nearer than the one taken, and of two as near the left one is taken |
| Swarm.SecondGoesLeft | metric_boxplot.py:120-125 | the second of two equal values is placed one width to the left |
| Swarm.ChooseSeparates | metric_boxplot.py:114-126 | the chosen circle is separated from every circle placed before, including those not counted as neighbours |
| Swarm.PackSeparates | metric_boxplot.py:113-126 | every pair placed, in order of height, satisfies the ellipse separation of at least 1 - 1e-9 |
| Swarm.PackIsTight | metric_boxplot.py:113-126 | each circle placed is as near the centre line as its predecessors allow |
| Swarm.OrderVisitsOnce | metric_boxplot.py:113 | sorting the indices by value visits each index once, in ascending order of value |
| Swarm.FirstFitting | metric_boxplot.py:120-125 | the loop over the sorted candidates returns the chosen offset |
| Swarm.PlaceInOrder | metric_boxplot.py:111-126 | the outer loop writes each circle's offset at its own index |
| Swarm.SwarmOffsets | metric_boxplot.py:102-127 | raises exactly for a spacing that is not positive, and otherwise returns a packing in placement order |
| Swarm.OffsetsSeparate | metric_boxplot.py:102-127 | for any values and positive spacings no two returned markers overlap beyond the tolerance |
| Swarm.OffsetsAreTight | metric_boxplot.py:102-127 | no returned offset is farther from 0 than a position that avoids all markers placed earlier |
| Permutation.EnumeratedOnce | src/web/jv_parser.py:1397-1400 | every k-element subset of the indices is enumerated once, and nothing else is |
| Permutation.CombIsBinomial | src/web/jv_parser.py:1385 | the count is the binomial coefficient |
| Permutation.EnumerationSize | src/web/jv_parser.py:1385-1401 | as many tuples are enumerated as the divisor says |
| Permutation.ExactCount | src/web/jv_parser.py:1387-1400 | counting extreme index tuples is counting extreme splits of the pooled sample |
| Permutation.ExactBounds | src/web/jv_parser.py:1382-1401 | an exact p-value lies between 1/C(n,k), or 2/C(n,k) for groups of equal size, and 1 |
| Permutation.MonteCarloBounds | src/web/jv_parser.py:1403-1410 | whatever is drawn, the Monte Carlo value lies between 1/5000 and 1 |
| Permutation.ComplementSplits | src/web/jv_parser.py:1387-1393 | choosing the control group is choosing its complement |
| Permutation.SwapSplits | src/web/jv_parser.py:1381-1393 | the pooled sample may list either group first |
| Permutation.GroupsAreInterchangeable | src/web/jv_parser.py:1371-1401 | exchanging control and target leaves an exact p-value unchanged |
| Permutation.ShiftInvariant | src/web/jv_parser.py:1371-1401 | adding a constant to every value leaves an exact p-value unchanged |
| ExactTest.CountsExtremes | src/web/jv_parser.py:1377-1401 | an exact p-value is the share, among all choices of as many pooled values as there are control values, of those whose two groups have means at least as far apart as observed, up to the larger of 1e-12 and 1e-12 times that distance |
| ExactTest.MonteCarloCounts | src/web/jv_parser.py:1394-1410 | a Monte Carlo value times 5000 is one more than the number of draws that are extreme in that sense |
| SeparatedGroups.PermutedCount | src/web/jv_parser.py:1377-1400 | how many choices are extreme depends on the pooled values, not on their order |
| SeparatedGroups.SeparatedP | src/web/jv_parser.py:1377-1401 | with every control value below every target value, p is 1/C(n,k) exactly when the least exchange matters by more than the tolerance and the highest choice does not separate as far; for groups of equal size it is 2/C(n,k) exactly when the least exchange matters |
| SeparatedGroups.SeparatedButNotLeast | src/web/jv_parser.py:1377-1401 | two groups that do not overlap and whose p-value is above 1/C(n,k) |
| BenjaminiHochberg.StepUpIsMinimum | src/web/jv_parser.py:1425-1430 | the value at a rank is the least of 1 and the scaled p-values from that rank up |
| BenjaminiHochberg.AdjustedIsNoSmaller | src/web/jv_parser.py:1425-1434 | adjusting never lowers a p-value and keeps their order |
| BenjaminiHochberg.TiesAreEqual | src/web/jv_parser.py:1416-1430 | equal p-values get equal adjusted values wherever the sort puts them |
| BenjaminiHochberg.AdjustedDecides | src/web/jv_parser.py:1425-1434 | for every alpha, adjusted <= alpha exactly when the step-up test rejects |
| BenjaminiHochberg.RankedIsExact | src/web/jv_parser.py:1416-1423 | the ranking holds each available comparison once, ascending, and nothing else |
| BenjaminiHochberg.MetricComparisons.AddBenjaminiHochbergAdjustment | src/web/jv_parser.py:1413-1434 | the method writes the adjusted value into every ranked comparison and changes nothing else |
| BenjaminiHochberg.AdjustmentDecides | src/web/jv_parser.py:1413-1434 | after the call, the written value decides the step-up test over all raw p-values, in whatever order they are listed |
| DescriptiveStats.AtPositionBetween | src/web/jv_parser.py:1463-1469 | an interpolated value lies between its neighbouring order statistics |
| DescriptiveStats.AtPositionMonotone | src/web/jv_parser.py:1463-1469 | interpolation is monotone in the position, across order statistics |
| DescriptiveStats.PercentileMonotone | src/web/jv_parser.py:1462-1469 | a higher fraction never gives a lower percentile |
| DescriptiveStats.PercentileIsOnLine | src/web/jv_parser.py:1462-1469 | a percentile is the point on the line between its two neighbouring order statistics, at the fractional part of its position |
| DescriptiveStats.MeanAndDeviation | src/web/jv_parser.py:1446-1456 | the square of the standard deviation times n - 1 is the sum of the squared deviations from the mean, and the deviation of one value is 0 |
| DescriptiveStats.RangeAndQuartiles | src/web/jv_parser.py:1446-1459 | minimum and maximum are values and bound the others; quartiles and median are the percentiles 0.25, 0.75 and 0.5 of the sorted values |
| DescriptiveStats.MedianIsHalfPercentile | frontend/src/lib/stats.ts:52 | the median of the server is the 0.5 percentile of the browser |
| DescriptiveStats.SummaryIsOrdered | src/web/jv_parser.py:1437-1459 | minimum, quartiles, median and maximum are in order, and the mean is within the range |
| DescriptiveStats.OrderDoesNotMatter | src/web/jv_parser.py:1437-1459 | the record depends only on the multiset of values |
| DescriptiveStats.ClientAgreesWithServer | frontend/src/lib/stats.ts:30-59 | browser and server compute the same record, field by field |
| Reals.MeanInRange | src/web/jv_parser.py:1452 | a mean lies within the range of its values |
| JvCurve.CrossingIsOnSegment | src/web/jv_parser.py:1574-1577 | the crossing computed for a straddling segment is a zero on that segment |
| JvCurve.ZeroIsCrossing | src/web/jv_parser.py:1574-1587 | a zero on a segment is the computed crossing, unless the segment is flat at zero |
| JvCurve.VocExists | src/web/jv_parser.py:1560-1580 | Voc is None exactly when the polyline through the voltage-sorted points never meets J = 0 |
| JvCurve.VocIsHighestZero | src/web/jv_parser.py:1560-1580 | Voc is a zero of the polyline and no zero lies at a higher voltage, flat segments and repeated voltages included |
| JvCurve.JscExists | src/web/jv_parser.py:1549-1557 | Jsc is None exactly when the polyline never reaches V = 0 |
| JvCurve.JscIsOnPolyline | src/web/jv_parser.py:1549-1557 | Jsc is a current of the polyline at V = 0 |
| JvCurve.InterpolateXAtYZero | src/web/jv_parser.py:1560-1580 | the loops that collect crossings compute Voc |
| JvCurve.InterpolateYAtXZero | src/web/jv_parser.py:1549-1557 | the two searches with early return compute Jsc |
| JvCurve.PolylineFalls | src/web/jv_parser.py:695-704 | a curve whose points are monotone is monotone between them |
| JvCurve.EfficiencyFactors | src/web/jv_parser.py:704-714 | pce = ff * abs(voc) * jsc for every curve that has metrics |
| JvCurve.PceIsMaximumPower | src/web/jv_parser.py:684-714 | pce is abs(v*j) of a listed point between 0 and Voc whose current has the sign of Jsc, and no such point has a higher one; voc and jsc of the record are Voc and abs(Jsc) |
| JvCurve.MetricsExist | src/web/jv_parser.py:675-714 | a curve has metrics exactly when it has two points, a Voc and a Jsc that are not 0, and such a point; each failure has its own condition |
| JvCurve.FillFactorIsFraction | src/web/jv_parser.py:684-714 | for every monotone curve, in either sign convention, 0 <= ff <= 1 |
| Representatives.FoldPicksRepresentative | src/web/jv_parser.py:1137-1151 | among any of the three kinds of eligible scan, folding with _has_higher_pce picks the first with the highest PCE, or the first if none has one, and there is only one such scan |
| Representatives.FoldIsHighest | src/web/jv_parser.py:1137-1151 | in numbers: the scan picked has a PCE that no eligible scan exceeds and every earlier one is below, or is the first eligible scan when none has a PCE |
| Representatives.DeviceMetrics | src/web/jv_parser.py:1154-1172 | the loop over all traces keeps, per direction, the metrics of that scan, and gives None when neither direction has one |
| Representatives.RebuiltTier | src/web/jv_parser.py:931-943 | the legacy rebuild of one direction keeps the same scan |
| Representatives.StoredDevice.Normalize | src/web/jv_parser.py:928-956 | upgrading a stored device rebuilds each direction from its scans, fills gaps from what was saved, and leaves None only when there is neither |
| Representatives.UpgradeKeepsFresh | src/web/jv_parser.py:928-956 | upgrading the metrics of a fresh record gives them back, tier by tier |
| Representatives.UpgradeFillsGaps | src/web/jv_parser.py:928-956 | tier by tier: a direction with scans gets the record of its representative, one without keeps what was saved, and a flat record becomes the combined tier |
| Representatives.BestTrace | frontend/src/lib/deviceMetrics.ts:103-123 | for any traces the table's loop picks the representative among the scans with a PCE |
| Representatives.RepresentativeTrace | src/web/publication_plots.py:307-322 | for any traces the figure's max picks the representative among the valid scans with points, with or without metrics |
| Representatives.TablesAgree | frontend/src/lib/deviceMetrics.ts:98-123 | tables and device record agree exactly when some scan has a PCE or there is no scan |
| Representatives.FiguresAgree | src/web/publication_plots.py:307-322 | figures and device record agree exactly when the recorded scan has points and, lacking a PCE, no drawable scan before it, or when nothing is recorded and nothing drawable |
| Representatives.TablesDisagree | frontend/src/lib/deviceMetrics.ts:98-123 | a valid scan without a PCE is recorded but not tabulated |
| Representatives.FiguresDisagree | src/web/publication_plots.py:307-322 | a valid trace with points and no metrics is drawn but not recorded |
| Representatives.AllAgree | frontend/src/lib/deviceMetrics.ts:98-123 | with a PCE among the scans and points in all of them, record, tables and figures show one scan, the first PCE maximum |
| Representatives.BestPceIsBestScan | frontend/src/lib/deviceMetrics.ts:62-69 | the best PCE shown for a fresh device record is that of its best scan over both directions |
| Representatives.BestPceIsMaximum | frontend/src/lib/deviceMetrics.ts:62-69 | of any record, stored or fresh, the best PCE is the maximum over its three tiers |
| Substrates.SubstrateRecords | src/web/jv_parser.py:1226-1241 | the dictionary loop lists one row per substrate in order of first appearance, with its devices in order |
| Substrates.RecordsPartition | src/web/jv_parser.py:1226-1241 | the rows partition the devices: none lost, none twice, each with those of its own substrate |
| Substrates.RecordsInOrder | src/web/jv_parser.py:1226-1241 | the rows stand in the order of their first devices, without a group, each label beside its device's id |
| Assignments.NormalizeLegacyAnalysis | src/web/jv_parser.py:924-963 | analyses of schema 5 and 6 have every device upgraded and derived tables dropped and become schema 7, and others stay as they are |
| Assignments.AnalysisUpgradeIs | src/web/jv_parser.py:924-963 | of an analysis of schema 5 or 6 the upgrade replaces each device's metrics, clears its tables and removes the two summaries, and keeps the rest; any other stays |
| Assignments.AssignRows | src/web/jv_parser.py:987-995 | every substrate gets its assigned group, or the call fails at one without a listed group |
| Assignments.AssignDeviceRows | src/web/jv_parser.py:997-1005 | every device gets its substrate's group and its exclusion set or cleared |
| GroupStatistics.ComputeStatistics | src/web/jv_parser.py:1267-1357 | the row of every group, and the comparison of every target with the first control |
| GroupStatistics.CompareTarget | src/web/jv_parser.py:1316-1356 | the dictionary of one target is filled metric by metric and adjusted in place |
| GroupStatistics.ComparedAreDescribed | src/web/jv_parser.py:1284-1311 | the values that are compared are those the group's statistics describe |
| GroupStatistics.RowCountsAre | src/web/jv_parser.py:1272-1300 | the three counts of a row are the numbers of the group's devices: all, those with metrics and not excluded, and the excluded ones |
| GroupStatistics.SamplesAre | src/web/jv_parser.py:1244-1290 | a value is a sample of a group as often as a device of it that is not excluded reads it, in a flat record or in each of the two directions |
| GroupStatistics.FirstControlIs | src/web/jv_parser.py:1313 | the control of all comparisons is the first group of that kind |
| GroupStatistics.TargetsAre | src/web/jv_parser.py:1316 | every group of kind target is compared, as often as it is listed, and no other |
| GroupStatistics.RowsDescribe | src/web/jv_parser.py:1272-1300 | the report has a row for every group, in order, with the statistics of the group's samples under each name |
| GroupStatistics.TargetsCompared | src/web/jv_parser.py:1313-1356 | and a comparison for every target, with the first control: that of the samples of the two groups under each name, but for the adjusted p-value; none without a control |
| GroupStatistics.ComparedWhen | src/web/jv_parser.py:1318-1347 | a metric is compared exactly when control and target both have a sample of it |
| GroupStatistics.DifferenceIs | src/web/jv_parser.py:1318-1347 | mean difference and percentage against the means of the two samples, the percentage absent exactly when the control mean is 0, and the p-value that of the randomization test, absent exactly for a sample of one value |
| GroupStatistics.EffectIs | src/web/jv_parser.py:1322-1368 | the effect size squared, times the sum of squared deviations of both samples, is the squared difference times n + m - 2, with the sign of the difference; it is absent exactly for a sample of one value or when all deviations are 0 |
| GroupStatistics.AdjustedDecidesTarget | src/web/jv_parser.py:1338-1348 | at every level, a target's adjusted value decides the step-up test among its metrics |
| GroupStatistics.ComparisonTurnsRound | src/web/jv_parser.py:1321-1347 | exchanging control and target negates difference and effect size and keeps an exact p-value |
| GroupStatistics.FlatRecordIsLost | src/web/jv_parser.py:1247-1264 | a v5 device without scans whose record is a sample before the upgrade and not after |
| Assignments.AssignSubstratesToGroups | src/web/jv_parser.py:966-1008 | the whole call, the upgrade of the stored analysis included, with its three failures in order |
| Assignments.AssignmentIsRecorded | src/web/jv_parser.py:985-1005 | a device ends up excluded exactly when its id is among the exclusions, with the first 200 characters of the reason; its group is the one its substrate is assigned to, which the call lists; substrate, traces and metrics are those of the upgraded device |
| Assignments.ExclusionsAreCounted | src/web/jv_parser.py:1272-1300 | the excluded count of a group is the number of its devices whose ids are among the exclusions |
| Assignments.FailsWhen | src/web/jv_parser.py:985-1033 | the call fails exactly for a substrate without a listed group, then for an exclusion of an unknown device or without a reason, then for a device of an unlisted substrate |
| Assignments.LastAssignmentWins | src/web/jv_parser.py:966-1008 | re-assigning depends only on the last assignments, groups and exclusions, for stored analyses of every schema |
| Assignments.FlatRecordsAreNotSeen | src/web/jv_parser.py:966-1008 | two analyses of schema 5 or 6 that differ only in what flat records hold fail alike or get the same statistics and comparisons |
| Assignments.GroupCountsConserveDevices | src/web/jv_parser.py:1267-1301 | the groups' device counts sum to at least the device total, and to the total exactly when the call lists every group that a device's substrate is assigned to once |
| Assignments.RowsCountApart | src/web/jv_parser.py:1278-1298 | counted and excluded devices are different devices of the group |
| GroupStatistics.StatisticsAlike | src/web/jv_parser.py:1267-1357 | the statistics depend only on each device's group, exclusion, presence of metrics and readings |
| GroupStatistics.ExcludedDoNotCount | src/web/jv_parser.py:1276-1311 | excluded devices have no influence on the metrics of any group, nor on any comparison |
| Crc.EightSteps | frontend/src/lib/chartExport.ts:105-107 | eight single-bit steps are one table entry and one shift |
| Crc.TableStepFeedsByte | frontend/src/lib/chartExport.ts:115-117 | one table step is feeding the eight bits of a byte |
| Crc.PolynomialValue | frontend/src/lib/chartExport.ts:106 | the constant is the reflected polynomial |
| Crc.DivisorTerms | frontend/src/lib/chartExport.ts:106 | the divisor has exactly the terms listed in section 3.4 of RFC 2083 |
| Crc.BuildEntry | frontend/src/lib/chartExport.ts:104-107 | the inner loop computes a table entry |
| Crc.BuildTable | frontend/src/lib/chartExport.ts:101-111 | the table holds all 256 entries |
| Crc.Crc32 | frontend/src/lib/chartExport.ts:113-119 | the table-driven loop computes, for every byte string, the bit-by-bit value |
| Crc.CrcIsRemainder | frontend/src/lib/chartExport.ts:113-119 | that value is the complemented remainder of polynomial long division, as RFC 2083 defines it |
| Png.ChunkReadsBack | frontend/src/lib/chartExport.ts:121-133 | a chunk is read back with its CRC accepted, whatever follows it |
| Png.PhysReadsBack | frontend/src/lib/chartExport.ts:140-146 | a reader finds equal densities per metre, the rounded one exactly when it fits 32 bits |
| Png.DensityReadsBack | frontend/src/lib/chartExport.ts:139-146 | the density stored, times 0.0254, is within 0.0127 of the dpi, in both directions and per metre |
| Png.InjectedReads | frontend/src/lib/chartExport.ts:139-154 | for a PNG whose first chunk has 13 bytes of data, the output reads as the same chunks with one valid pHYs chunk after the first |
| Png.PngChunk | frontend/src/lib/chartExport.ts:121-133 | the writer produces the bytes of the chunk |
| Png.InsertChunk | frontend/src/lib/chartExport.ts:147-153 | inserts after 33 bytes, and raises exactly when there are fewer |
| Png.InjectPngPhysicalDpi | frontend/src/lib/chartExport.ts:139-154 | the writer produces the injected file |
| Tiff.WriteTag | frontend/src/lib/chartExport.ts:194-204 | one directory entry is appended and the cursor moves past it |
| Tiff.WriteExtra | frontend/src/lib/chartExport.ts:218-226 | the end of the directory, the bit depths and the resolutions follow it without a gap |
| Tiff.WritePixels | frontend/src/lib/chartExport.ts:228-234 | the pixel loop writes the RGB triples and nothing else |
| Tiff.EncodeTiff | frontend/src/lib/chartExport.ts:173-236 | the buffer written in place is the whole file |
| TiffReader.FieldsAscend | frontend/src/lib/chartExport.ts:205-217 | the twelve tags a reader sees are strictly ascending |
| TiffReader.WhatIsRead | frontend/src/lib/chartExport.ts:173-236 | what an independent TIFF 6.0 reader makes of any file written, whether or not its numbers fit |
| TiffReader.RoundTrip | frontend/src/lib/chartExport.ts:173-236 | the reader recovers dimensions, resolution and all RGB triples exactly when the numbers fit 32 bits |
| TiffReader.ImageReadsBack | frontend/src/lib/chartExport.ts:173-236 | of a file whose numbers fit, the pixel read at i is the bytes 4i, 4i+1 and 4i+2 of the input, and the resolution is per inch and within 0.5 of the dpi |
| TiffReader.TooWide | frontend/src/lib/chartExport.ts:206 | a width of 2^32 is read back as 0 |
| TiffReader.LayoutIsTight | frontend/src/lib/chartExport.ts:174-226 | the regions that the offsets stored in the file refer to (header, directory, external values of every entry, strip) are disjoint, even-aligned and in bounds, and fill the file exactly when the pixel size fits 32 bits |
| VcdProgram.AcceptsPermutations | src/web/execution_snapshots.py:43-68 | equal length and equal set: the validator accepts exactly the sequences that list each of one to five evacuation and up to five gas stages once |
| VcdProgram.ApplyKeepsAccepted | frontend/src/components/SnapshotEditor.tsx:346-362 | one edit keeps the sequence acceptable to the backend |
| VcdProgram.RunKeepsAccepted | frontend/src/components/SnapshotEditor.tsx:282-362 | every run of adds, removals and swaps keeps it acceptable |
| VcdProgram.RemoveDeletesStep | frontend/src/components/SnapshotEditor.tsx:143-166 | after a removal the dereferenced program is the old one with exactly that stage deleted, in the same order |
| VcdProgram.AddAppendsStep | frontend/src/components/SnapshotEditor.tsx:346-358 | adding a stage appends one blank step |
| VcdProgram.EditIsOneChange | frontend/src/components/SnapshotEditor.tsx:143-362 | every edit that has a button is one change of the program of steps: what was added is appended, removed deleted, moved exchanged, edited replaced, and nothing else changes; an edit without one changes nothing |
| VcdProgram.ProgramRunsEverything | src/web/execution_snapshots.py:52-68 | an accepted program has no dangling reference and runs every stage once |
| JsonPath.SetThenGet | frontend/src/components/SnapshotEditor.tsx:121-135 | what was set is what is read |
| JsonPath.GetThenSet | frontend/src/components/SnapshotEditor.tsx:121-135 | setting what is there changes nothing |
| JsonPath.SetTwice | frontend/src/components/SnapshotEditor.tsx:121-135 | the last of two edits of one place wins |
| JsonPath.SetElsewhere | frontend/src/components/SnapshotEditor.tsx:121-135 | an edit changes nothing outside its own place |
| JsonPath.SetsCommute | frontend/src/components/SnapshotEditor.tsx:121-135 | edits of diverging places commute |
| DeviceRecipe.ReadIsPlain | src/perovskite_bo/device_recipe.py:732-737 | what is read is plain data, whatever kinds of dictionaries and sequences it is read from |
| DeviceRecipe.ReadSettles | src/perovskite_bo/device_recipe.py:118-415 | for every shape whose defaults settle, what was read gives itself when it is read again, or is refused |
| DeviceRecipe.RecipeSettles | src/perovskite_bo/device_recipe.py:118-527 | the models of a device recipe are such shapes: stripping, defaults, filled roles and renamed keys of every level settle |
| DeviceRecipe.ValidatedOnce | src/perovskite_bo/device_recipe.py:740-757 | a validated device recipe is plain data that validates, unchanged, ever after |
| DeviceRecipe.OlderDataReadsAlike | src/perovskite_bo/device_recipe.py:252-527 | data with older keys reads exactly as its upgraded form does, for each of the three upgrades |
| DeviceRecipe.OlderRecipeIs | src/perovskite_bo/device_recipe.py:514-527 | what the upgrade of a recipe changes, key by key |
| DeviceRecipe.OlderKeysAre | src/perovskite_bo/device_recipe.py:252-404 | what the other two upgrades change: the renamed key, and the default sequence of evacuation and then gas stages |
| DeviceRecipe.LayersHaveRoles | src/perovskite_bo/device_recipe.py:407-413 | a layer that passes has the role its type belongs to, and a role that was given stays |
| DeviceRecipe.StripIs | src/perovskite_bo/device_recipe.py:180-195 | stripping removes white space at both ends and nothing else, and leaves none at an end |
| StoredRecipe.ContextReadsBack | src/perovskite_bo/recipe.py:430-444 | a resolved fabrication context resolves to itself |
| StoredRecipe.ResolvedIs | src/perovskite_bo/recipe.py:430-444 | a resolved context has the values given, and those of its baseline for every other key of the baseline |
| StoredRecipe.DeviceReadsBack | src/perovskite_bo/recipe.py:446-452 | a device recipe that was validated and frozen is, thawed, one that validates unchanged |
| StoredRecipe.ReadsBack | src/perovskite_bo/recipe.py:502-532 | reading back what a recipe serialises to succeeds and gives that recipe, contexts and device stack included, with its sequence as a tuple |
| StoredRecipe.RoundTrip | src/perovskite_bo/recipe.py:502-532 | from_mapping(r.to_dict()) == r exactly for recipes not given their sequence as a list, partial legacy backfills and nested contexts included |
| Recipe.ListDoesNotComeBack | src/perovskite_bo/recipe.py:516-529 | the fields of a flattened process give a recipe that differs from itself read back |
| Recipe.PressuresAre | src/perovskite_bo/recipe.py:239-251 | pressures are settled exactly when no alias in mbar is fractional in Pa or contradicts its pressure; then what was given stays, and both are there for the same pressure or neither |
| Recipe.FlattenProcess | src/perovskite_bo/device_recipe.py:785-825 | the loops fill every numbered field, and fail exactly when validation does |
| Recipe.FieldsHoldStages | src/perovskite_bo/device_recipe.py:785-825 | stage by stage: the numbered fields hold the values of the stage with that number and None beyond the last, and the sequence is the one given or evacuation before gas stages |
| Recipe.FlattenedIsAccepted | src/perovskite_bo/device_recipe.py:785-825 | every valid process flattens to fields the recipe accepts unchanged, without stage gaps, directly or from a mapping |
| Recipe.FlattenIsInvertible | src/perovskite_bo/device_recipe.py:785-825 | the process can be rebuilt from the flattened fields |
| FrozenValues.EveryLevel | src/perovskite_bo/recipe.py:45-58 | freezing reaches every level, and thawing undoes it at every level |
| FrozenValues.FreezeAfterThaw | src/perovskite_bo/recipe.py:45-58 | freezing sees content only |
| FrozenValues.RoundTrips | src/perovskite_bo/recipe.py:45-58 | as Python compares, a value equals its frozen and thawed form exactly when it holds no tuple, and its thawed and frozen form exactly when it holds no list |
| ApiResource.NextIsSafe | frontend/src/lib/useApiResource.ts:48-80 | every step of any interleaving keeps the invariant |
| ApiResource.RunIsSafe | frontend/src/lib/useApiResource.ts:48-80 | every run keeps the invariant |
| ApiResource.PageGuarantees | frontend/src/lib/useApiResource.ts:30-80 | success means data is the response to the latest request, ids of applied responses increase, and a mounted hook with nothing pending is not loading |
| ApiResource.PageSees | frontend/src/lib/useApiResource.ts:48-80 | what each step shows: a current response or failure its own data or message, a stale one nothing, and a new request no error |
| ApiResource.SupersededForever | frontend/src/lib/useApiResource.ts:54-66 | a superseded or retired request is never applied later, whatever happens |
| ApiResource.AppliedIsTrue | frontend/src/lib/useApiResource.ts:53-59 | a reload reports "applied" exactly when its own response became the data |
| ApiResource.ApiResource.Reload | frontend/src/lib/useApiResource.ts:48-51 | the synchronous part of reload is the issue step |
| ApiResource.ApiResource.Resolved | frontend/src/lib/useApiResource.ts:53-59 | the continuation after a response is the resolve step |
| ApiResource.ApiResource.Rejected | frontend/src/lib/useApiResource.ts:60-66 | the continuation after a failure is the reject step |
| ApiResource.ApiResource.RunEffect | frontend/src/lib/useApiResource.ts:69-75 | the effect is the mount step, with the reset of data on a new loader |
| ApiResource.ApiResource.CleanUp | frontend/src/lib/useApiResource.ts:76-79 | the cleanup is the unmount step |
| RunSheet.NextIsIsolated | frontend/src/pages/BatchDetailPage.tsx:61-233 | every step keeps the invariant |
| RunSheet.PageIsIsolated | frontend/src/pages/BatchDetailPage.tsx:61-233 | the invariant holds in every state reached from the first render |
| RunSheet.ToastsAreCurrent | frontend/src/pages/BatchDetailPage.tsx:175-190 | a toast belongs to the current route, and a status change is announced only when the handler's own reload was applied and the optimistic copy dropped |
| RunSheet.PageShows | frontend/src/pages/BatchDetailPage.tsx:61-233 | for the optimistic copy, the refresh block, the error, the disabled button and the toasts: exactly which steps set and which clear them |
| RunSheet.StaleHandlersDoNotInterfere | frontend/src/pages/BatchDetailPage.tsx:61-233 | leaving out every stale continuation of a run is again a run, with the same sheet, errors, flags, toasts and resource: a stale continuation writes nothing |
| RunSheet.SaveShows | frontend/src/pages/BatchDetailPage.tsx:101-146 | exactly when a save shows the sheet on the page with its preparation replaced |
| RunSheet.SaveOnSameData | frontend/src/pages/BatchDetailPage.tsx:101-146 | in every reachable state it does, if no response was applied since it started and the data was not cleared |
| RunSheet.OlderSheetOverFresh | frontend/src/pages/BatchDetailPage.tsx:101-146 | a run in which a save puts an older sheet over a reloaded one |
| BatchDetailPage.BatchDetailPage.EnterRoute | frontend/src/pages/BatchDetailPage.tsx:71-79 | the layout effect is the route step |
| BatchDetailPage.BatchDetailPage.AfterSuccess | frontend/src/pages/BatchDetailPage.tsx:88-94 | the effect on success clears the three states |
| BatchDetailPage.BatchDetailPage.SavePreparation | frontend/src/pages/BatchDetailPage.tsx:101-141 | savePreparation captures its generation and its render's data before the await |
| BatchDetailPage.BatchDetailPage.PreparationSavedOnServer | frontend/src/pages/BatchDetailPage.tsx:101-146 | and runs on only under that generation, on the optimistic copy or the captured data |
| BatchDetailPage.BatchDetailPage.ChangeBatchStatus | frontend/src/pages/BatchDetailPage.tsx:208-219 | changeBatchStatus up to its await |
| BatchDetailPage.BatchDetailPage.StatusSavedOnServer | frontend/src/pages/BatchDetailPage.tsx:220-223 | and on to the reload of the sheet |
| BatchDetailPage.BatchDetailPage.StatusNotSaved | frontend/src/pages/BatchDetailPage.tsx:224-232 | its failure path |
| BatchDetailPage.BatchDetailPage.Refreshed | frontend/src/pages/BatchDetailPage.tsx:175-206 | refetchSheet after its reload, by outcome |
| Middleware.FindRequestBodyViolation | src/web/middleware.py:112-140 | on any finite graph, cycles and sharing included, the search ends and returns a reachable violation exactly when there is one |
| Middleware.CountingReceive.Receive | src/web/middleware.py:67-74 | a message is passed on unless with it the body exceeds the cap |
| Middleware.PullAll | src/web/middleware.py:67-74 | pulling every message through the channel passes on exactly those before the first refusal |
| Middleware.CapIsExact | src/web/middleware.py:44-74 | however the body is cut, what is passed on is within 12 MiB, a refusal happens exactly when the whole body is over, and one message at most is read past it |
| SearchSpace.EachIndexOnce | src/perovskite_bo/strategies.py:174-177 | the product lists each index tuple once |
| SearchSpace.GridValues | src/perovskite_bo/strategies.py:157-177 | the loop with its running total and early returns computes the grid |
| SearchSpace.GridListsEachIndexOnce | src/perovskite_bo/strategies.py:157-177 | the grid is empty exactly for an unknown parameter kind or too many points, and otherwise has one in-space entry per index tuple |
| SearchSpace.GridIsFactorial | src/perovskite_bo/strategies.py:157-177 | a grid that is not refused has exactly the points that take both ends and the middle of a range of reals, each integer of a range, and each choice |
| SearchSpace.GridIsOrdered | src/perovskite_bo/strategies.py:174-177 | of two grid points the one that is behind in the first parameter on which they differ comes first |
| SearchSpace.EncodeValues | src/perovskite_bo/strategies.py:191-206 | the loop computes the encoding, or the first failure |
| SearchSpace.EncodesIntoUnitCube | src/perovskite_bo/strategies.py:191-206 | in-space points encode, into the unit cube |
| SearchSpace.EncodingIs | src/perovskite_bo/strategies.py:191-206 | the encoding holds, side by side and in order, the place of each number in its range and the one-hot vector of each choice |
| SearchSpace.EncodesWhen | src/perovskite_bo/strategies.py:191-206 | encoding fails exactly for a value that is no choice of its parameter, or is no number where a range is not a point |
| SearchSpace.EncodingsAgree | src/perovskite_bo/strategies.py:191-206 | two encodings are equal exactly when the points agree on every parameter that has more than one value |
| SearchSpace.EncodingIsInjective | src/perovskite_bo/strategies.py:184-206 | for dictionaries the space admits, whatever other fields they have, equal encodings mean equal keys |
| Optimizer.CandidateTable.AddCandidate | src/perovskite_bo/strategies.py:113-125 | raises exactly for a point outside the space or one the recipe rejects, and otherwise gains the point exactly when the key of its recipe is neither observed nor listed |
| Optimizer.CandidateRecipes | src/perovskite_bo/strategies.py:101-111 | grid and draws are offered in order, and the first that is refused raises |
| Optimizer.CandidatesAreUntried | src/perovskite_bo/strategies.py:101-125 | candidates are untried in-space points with distinct keys, and no untried offer is lost |
| Optimizer.FeasibilityIsZero | src/perovskite_bo/strategies.py:146-154 | feasibility is a fraction, and 0 exactly when a failed encoding equals the candidate's |
| Optimizer.RuledOutWhen | src/perovskite_bo/strategies.py:146-206 | a candidate is ruled out exactly when it agrees with a failed recipe on every parameter that has more than one value |
| Optimizer.NoCandidateIsRuledOut | src/perovskite_bo/strategies.py:101-154 | no candidate has feasibility 0 when the space admits the failed recipes and their keys are observed |
| Optimizer.AdmittedHistoryRulesNothingOut | src/perovskite_bo/strategies.py:66-86 | with a history of recipes the space admits, no candidate collected has feasibility 0 |
| Optimizer.OutsideHistoryRulesOut | src/perovskite_bo/strategies.py:146-199 | in every space with a parameter the encoding does not look at, every point is ruled out, though untried, by the failed recipe that differs from it in that parameter alone |
| Optimizer.EstimateInRange | src/perovskite_bo/strategies.py:134-141 | the weighted mean stays within the completed scores and the variance within their squared range |
| Optimizer.AcquisitionInRange | src/perovskite_bo/strategies.py:127-144 | a candidate's score is bounded by the completed scores and the exploration weight, and is 0 when it is ruled out |
| Scoring.WeightIs | src/perovskite_bo/strategies.py:209-214 | the weight of an experiment is the exponential of minus the sum of squared coordinate differences |
| Scoring.NearerWeighsMore | src/perovskite_bo/strategies.py:209-214 | a nearer experiment weighs strictly more, unless both weights underflow to 0, and one at distance 0 weighs 1 |
| Scoring.EstimateIs | src/perovskite_bo/strategies.py:134-141 | mean and variance are the weighted ones, or the plain mean and 0 when all weights are 0 |
| Scoring.EstimateFollowsNearer | src/perovskite_bo/strategies.py:134-141 | with two completed scores the estimate lies strictly nearer the score of the nearer experiment |
| Scoring.UncertaintyIs | src/perovskite_bo/strategies.py:142 | the squared uncertainty times 1 + the weights is the variance |
| Scoring.UncertaintyOrder | src/perovskite_bo/strategies.py:142 | uncertainty rises with the variance and falls with the weight of what is known |
| Scoring.FeasibilityIs | src/perovskite_bo/strategies.py:146-154 | feasibility is the distance to the nearest failure over the radius, and 1 from the radius on |
| Scoring.ScoreIs | src/perovskite_bo/strategies.py:142-144 | the score is the estimate plus the weighted uncertainty, times the feasibility |
| Scoring.ScoreOrder | src/perovskite_bo/strategies.py:142-144 | of two equally feasible candidates the higher estimate scores higher, and for equal estimates the higher uncertainty |
| Scoring.SidesAre | src/perovskite_bo/strategies.py:66-70 | completed and failed records are those of the history, each as often as there |
| Optimizer.RandomUntried | src/perovskite_bo/strategies.py:88-99 | the first draw that is not observed, all earlier ones being observed, or a failure when all are |
| Optimizer.Highest | src/perovskite_bo/strategies.py:82-85 | max returns the first of the highest |
| Optimizer.Suggest | src/perovskite_bo/strategies.py:66-86 | a suggestion is a recipe the space admits whose key is untried, made of the first of the best candidates once enough experiments are completed; the call fails only when the draws, and after the initial phase grid and draws, are exhausted, or where a history cannot be encoded or has nothing completed |
| LegacyRepair.RepairLegacyAnalysis | migrations/versions/0014_deployment_integrity_repairs.py:54-142 | the loops compute the repair, or return the document unchanged |
| LegacyRepair.CarryOver | migrations/versions/0014_deployment_integrity_repairs.py:112-137 | the loop over stored substrates builds the mapping and hands their fields on, or stops at an ambiguous one |
| LegacyRepair.AllOrNothing | migrations/versions/0014_deployment_integrity_repairs.py:54-142 | the document is unchanged, or has the same devices in order with rows that partition them by full mark |
| LegacyRepair.RepairIsIdempotent | migrations/versions/0014_deployment_integrity_repairs.py:54-142 | repairing the result gives the same document |
| LegacyRepair.MappingIsFunctional | migrations/versions/0014_deployment_integrity_repairs.py:112-130 | every old id maps to the one mark it matches, and a mapped-to mark that is an old id maps to itself |
| LegacyRepair.RowsInherit | migrations/versions/0014_deployment_integrity_repairs.py:112-137 | a repaired row has the group and the conditions of the last old substrate mapped to it that has them, and none from elsewhere |
| LegacyRepair.OneToOneWhen | migrations/versions/0014_deployment_integrity_repairs.py:57-67 | the mapping is one-to-one exactly when no old id is a full mark stored beside its own prefix; it is when all old ids are three-character prefixes |
| LegacyRepair.NotOneToOne | migrations/versions/0014_deployment_integrity_repairs.py:57-67 | a document whose mapping is not one-to-one |
| LegacyRepair.ResultFile.UpdateRows | migrations/versions/0014_deployment_integrity_repairs.py:255-264 | one UPDATE changes the rows with the old id only |
| LegacyRepair.ResultFile.RewriteRows | migrations/versions/0014_deployment_integrity_repairs.py:255-264 | one update per entry, in any order, equals a simultaneous substitution |
| LegacyRepair.ResultFile.Upgrade | migrations/versions/0014_deployment_integrity_repairs.py:225-264 | a file is left alone, or repaired with every row referring to a substrate of the repaired analysis |

## Left out

- Floating-point rounding: all numbers with a fraction are exact reals, and non-finite values do not occur.
- SearchSpace.EncodeValues: which number float() reads in a text comes with the text; the grammar of numerals is not modelled.
- SearchSpace.Covers: histories are taken to have a value for every parameter, as a recipe's dictionary does; the KeyError of a parameter that is no recipe field is not modelled.
- Optimizer.CandidateTable.AddCandidate: which values the recipe's constructor rejects, and what its dictionary holds besides them, are arbitrary; a parameter named by a deprecated alias, which that dictionary lacks, is not modelled.
- Permutation.MonteCarloBounds: draws are an arbitrary sequence of index tuples, so nothing is said about their distribution.
- Representatives.DeviceMetrics: the hysteresis index and the irradiance of a device record are left out.
- LegacyRepair.RepairLegacyAnalysis: marks are taken as stripped and upper-cased, and channel numbers as already found in the label; other keys of a document are not modelled.
- Assignments.AssignSubstratesToGroups: group ids and reasons are taken as stripped, and the two kinds of invalid exclusion are one failure.
- GroupStatistics.ComparisonTurnsRound: where the test is Monte Carlo, the draws of the two directions are unrelated and the p-values may differ.
- StoredRecipe.RoundTrip: validate_fabrication_context is an arbitrary predicate on contexts of scalars; the four deprecated PVK fields, which from_mapping moves into a context, are no part of the model.
- DeviceRecipe.ReadSettles: how pydantic reads a number or a flag is a parameter, of which only is used that a value of the right type stays; the validators that only raise are arbitrary predicates; experimental groups that are left out are taken as refused, and the renaming of a key in the caller's own dictionary is not modelled.
- FrozenValues.RoundTrips: keys are strings already; a key that str() changes is not modelled.
- VcdProgram.RemoveDeletesStep: references are data, not strings; a reference of an unknown form is one that no edit renumbers.
- JsonPath.SetThenGet: only paths through existing objects and array items, which are those the editor builds.
- RunSheet.NextIsIsolated: saveExecution, completeBatch, split and merge follow the pattern of the two handlers modelled; the pending confirmation dialog is not state here.
- Middleware.FindRequestBodyViolation: an exception graph is a finite map of identities to links; the response sent after a violation is not modelled.
- Tiff.EncodeTiff: allocation failure of very large buffers is not modelled.
- Swarm.SwarmOffsets: the renderer that converts marker diameters to data units is not part of this model.
- CSV decoding, label parsing, timestamps, the summary table and the info rows of instrument exports.
- pooledMetric and metricRows of the client, and random sampling of the search space, which would only add easy members.
- Persistence, routes, authentication, rendering, fonts and page layout.
