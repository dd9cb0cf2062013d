# Colour palette extraction, modelled in Dafny

The model covers the palette-extraction engine of an iOS demo app, together with a small result builder.

**Four extractors.** Each one turns an RGBA image into a handful of representative colours.

- **Enhanced median cut** (`MMCQ_ColorExtractor.swift`):
  1. Build a histogram of 5-bit colour keys from the opaque pixels.
  2. Pre-select visually distinct outlier colours.
  3. Cut the colour space into boxes by repeated median splits along the longest axis.
  4. Average each box.
  5. Score the colours, merge near ones greedily, and rank them.
  6. Backfill from the most frequent colours up to the target count.
- **DBSCAN** (`DBSCANColorExtractor.swift`):
  1. Quantize to 3 bits and drop rare buckets.
  2. Label the points by density: a point is visited, unclassified (-1), noise (-2) or in a cluster (≥ 0), and `expandCluster` grows a work-list.
  3. Take the most important noise points as outliers, then one representative per cluster.
  4. De-duplicate at distance 8.
- **Simple smart** (`SimpleSmartColorExtractor.swift`):
  1. Quantize to 2 bits and keep every bucket.
  2. Score the points.
  3. Select greedily in score order, at least 12 apart.
  4. Run a last de-duplication at distance 10.
- **k-means**, in two versions:
  - `UIImage+ColorExtract.swift` runs a fixed number of rounds from random pixels.
  - `UIImage+ColorExtract_Improved.swift` seeds with k-means++ and batches the assignment. Its progressive loop reports each round and stops at convergence.
  - Both format colours as `#rrggbb`.

**`NumbersBuilder`** (`ResultBuilderSample.swift`) is a Swift result builder over `Int`.

**What is a parameter.** The floating-point colour science is a set of function parameters:

- the CIE Lab conversion and the Delta-E distance become `dist`;
- the visual-importance and final scores become `weigh` and `score`;
- the Lab averaging of merged colours becomes `blend`.

Properties that need `dist` to behave like a distance (0 on equal colours, symmetric) require `IsDistance(dist)`. The image reaches the model as the drawn RGBA byte buffer (`seq<Byte>`, four bytes per pixel, row-major).

**How the model is organised:**

- Colours are integer triples (`Rgb`).
- A Swift dictionary used as a histogram is a sequence of entries with distinct keys.
- The k-means pixels have `real` channels.
- Each loop of the source is a `method` with a `while` or `for` loop. For most of them the contract ties the result to a specification function, and lemmas then prove what the source promises about that function. `MedianCut.PerformMMCQ` is tied to the function `MedianCut.Rounds` and also states its properties directly.
- A few loop methods state properties only, with no specification function: `Dbscan.PerformDBSCAN` and `Dbscan.ExpandCluster` (the DBSCAN labelling), and `EnhancedPipeline.PerformEnhancedMMCQ` (see "## Left out").
- The DBSCAN labelling keeps its per-point state (`visited`, `clusterIds`) in arrays updated in place.

Modules:

| module | file | models |
|---|---|---|
| `Colors` | colors.dfy | colour triples, bit-shift quantization, Swift's truncating division, uniqueness |
| `Sampling` | sampling.dfy | the row/column scan of a pixel buffer into a histogram |
| `Greedy` | greedy.dfy | greedy selection with a cap and greedy de-duplication |
| `Sorting` | sorting.dfy | `sorted(by: >)` and `prefix(n)` |
| `MedianCut` | mmcq.dfy | `ColorKey`, `ColorBox`, `split`, `performMMCQ`, `buildColorHistogram`, `averageColor` |
| `Merge` | merge.dfy | `mergeColors` / `createMergedColor` |
| `Enhanced` | enhanced.dfy | `EnhancedColor`, `detectOutlierColors`, the scoring loop |
| `EnhancedPipeline` | pipeline.dfy | `performEnhancedMMCQ` |
| `Dbscan` | dbscan.dfy | `buildColorPoints`, `regionQuery`, `expandCluster`, `performDBSCAN`, `selectFinalColors`, `deduplicateColors` |
| `Smart` | smart.dfy | `extractColorPoints`, `calculateScores`, `smartSelectColors`, `finalDeduplication` |
| `KMeans` | kmeans.dfy | pixels, nearest centre, one k-means round shared by both versions |
| `BasicKMeans` | kmeans_basic.dfy | `kMeansClustering` of `UIImage+ColorExtract.swift` |
| `ProgressiveKMeans` | kmeans_progressive.dfy | `chunked`, `performKMeansIteration`, `initializeClusters`, `checkConvergence`, the progressive loop |
| `Hex` | hex.dfy | `toHexString` |
| `NumbersBuilder` | builder.dfy | the result builder and `numbersMadeViaBuilder` |

## Model

| member | source | states |
|---|---|---|
| Colors.Quantize | MyDemo/Demo/ColorExtractor/DBSCANColorExtractor.swift:300-302 | `(v >> s) << s` is a multiple of 2^s, at most `v` and more than `v - 2^s`, and non-negative for non-negative `v` |
| Colors.QuantizeIdempotent | MyDemo/Demo/ColorExtractor/SimpleSmartColorExtractor.swift:233-235 | quantizing an already quantized value changes nothing |
| Colors.QuantizeRgb | MyDemo/Demo/ColorExtractor/SimpleSmartColorExtractor.swift:233-235 | each channel is rounded down to a multiple of 2^s, less than 2^s below the input |
| Colors.MinDistanceToOthers | MyDemo/Demo/ColorExtractor/MMCQ_ColorExtractor.swift:540-544 | `compactMap { other != self ? deltaE : nil }.min()` is None exactly when every colour has the same RGB; otherwise it is the distance to some differently coloured entry and no larger than the distance to any of them |
| Colors.Uniqueness | MyDemo/Demo/ColorExtractor/MMCQ_ColorExtractor.swift:111-116 | a colour's uniqueness is the fallback when no other RGB exists, else the least distance to a differently coloured member |
| Sampling.Find | MyDemo/Demo/ColorExtractor/MMCQ_ColorExtractor.swift:448 | the dictionary lookup: the index holding the key, or -1 exactly when no entry holds it |
| Sampling.HistogramOfCounts | MyDemo/Demo/ColorExtractor/MMCQ_ColorExtractor.swift:434-455 | the histogram of the opaque samples has one bucket per distinct colour holding that colour's number of occurrences |
| Sampling.HistogramOf | MyDemo/Demo/ColorExtractor/MMCQ_ColorExtractor.swift:434-457 | the histogram of a sample sequence (stated by `HistogramOfCounts` and `HistogramCounts`) |
| Sampling.HistogramCounts | MyDemo/Demo/ColorExtractor/MMCQ_ColorExtractor.swift:448 | a colour gets no bucket iff it does not occur; a bucket's count is its number of occurrences |
| Sampling.RowMajorBound | MyDemo/Demo/ColorExtractor/MMCQ_ColorExtractor.swift:436-441 | pixel `(x, y)` is read at offset `4 * (width * y + x)`, and all four bytes lie inside the buffer |
| Sampling.ScanStep | MyDemo/Demo/ColorExtractor/MMCQ_ColorExtractor.swift:438-448 | one pixel of the scan: an opaque pixel adds one to its quantized colour's bucket, any other leaves the histogram unchanged |
| Sampling.SamplesQuantized | MyDemo/Demo/ColorExtractor/DBSCANColorExtractor.swift:297-302 | every sample is a colour of bytes whose channels are multiples of 2^s |
| Sampling.SamplesLength | MyDemo/Demo/ColorExtractor/MMCQ_ColorExtractor.swift:445 | there are exactly as many samples as pixels with alpha above 125 |
| Sampling.BuildHistogram | MyDemo/Demo/ColorExtractor/MMCQ_ColorExtractor.swift:434-457 | the nested row/column loop returns the histogram of the quantized opaque pixels in scan order |
| Sampling.HistogramOfBuffer | MyDemo/Demo/ColorExtractor/MMCQ_ColorExtractor.swift:434-457 | the buckets have distinct quantized byte keys, every count is at least 1, and the counts add up to the number of pixels with alpha above 125 |
| Greedy.Select | MyDemo/Demo/ColorExtractor/SimpleSmartColorExtractor.swift:265-281 | the selection keeps what was chosen in front, never exceeds the cap, adds an ordered subsequence of the candidates, and keeps a pairwise-far set pairwise far |
| Greedy.SelectDropsOnlyNearOrFull | MyDemo/Demo/ColorExtractor/SimpleSmartColorExtractor.swift:266-280 | a candidate is left out only when it is near a kept colour or the cap is reached |
| Greedy.SelectKeepsSeparated | MyDemo/Demo/ColorExtractor/SimpleSmartColorExtractor.swift:265-281 | candidates already pairwise far and within the cap are all kept, in order |
| Greedy.SelectElements | MyDemo/Demo/ColorExtractor/SimpleSmartColorExtractor.swift:265-281 | every selected colour is a chosen colour or a candidate |
| Greedy.Dedup | MyDemo/Demo/ColorExtractor/DBSCANColorExtractor.swift:493-522 | the de-duplication returns an order-preserving subsequence of its input whose members are pairwise far |
| Greedy.DedupKeepsFirst | MyDemo/Demo/ColorExtractor/DBSCANColorExtractor.swift:493-522 | the first colour always survives |
| Greedy.DedupIdempotent | MyDemo/Demo/ColorExtractor/SimpleSmartColorExtractor.swift:292-309 | de-duplicating twice is de-duplicating once |
| Sorting.SortDesc | MyDemo/Demo/ColorExtractor/DBSCANColorExtractor.swift:449-451 | `sorted(by: >)` on a key: a rearrangement of the input (same multiset) in descending key order |
| Sorting.Prefix | MyDemo/Demo/ColorExtractor/MMCQ_ColorExtractor.swift:589-590 | `prefix(n)` is the first `min(n, count)` elements, none for `n <= 0` |
| Sorting.PrefixIsTop | MyDemo/Demo/ColorExtractor/DBSCANColorExtractor.swift:449-451 | the prefix of a sorted list holds its best elements: nothing after it has a larger key |
| MedianCut.ColorKey | MyDemo/Demo/ColorExtractor/MMCQ_ColorExtractor.swift:292-297 | each channel becomes a multiple of 8 that is at most the input and more than the input minus 8 |
| MedianCut.ColorKeyIdempotent | MyDemo/Demo/ColorExtractor/MMCQ_ColorExtractor.swift:292-297 | building a key from a key gives the same key |
| MedianCut.BuildColorHistogram | MyDemo/Demo/ColorExtractor/MMCQ_ColorExtractor.swift:405-458 | the keys are distinct 5-bit colour keys of byte channels, every count is at least 1, and the counts add up to the number of pixels with alpha above 125 |
| MedianCut.FilterInside | MyDemo/Demo/ColorExtractor/MMCQ_ColorExtractor.swift:166-170 | the box's histogram keeps exactly the entries whose key lies in all three closed ranges |
| MedianCut.FilterInsideDistinct | MyDemo/Demo/ColorExtractor/MMCQ_ColorExtractor.swift:166-170 | filtering keeps keys distinct |
| MedianCut.MakeBox | MyDemo/Demo/ColorExtractor/MMCQ_ColorExtractor.swift:159-173 | `ColorBox.init` keeps exactly the entries inside the ranges, its population is the sum of their counts and its volume the product of the ranges plus one |
| MedianCut.Volume | MyDemo/Demo/ColorExtractor/MMCQ_ColorExtractor.swift:171 | the product of the three ranges plus one (stated by `MakeBox`) |
| MedianCut.MakeBoxDistinct | MyDemo/Demo/ColorExtractor/MMCQ_ColorExtractor.swift:159-173 | a box over distinct keys has distinct keys |
| MedianCut.LongestDimension | MyDemo/Demo/ColorExtractor/MMCQ_ColorExtractor.swift:206-218 | the chosen axis has the largest range; green only when it beats red strictly, blue only when it beats both strictly |
| MedianCut.PointBoxCannotSplit | MyDemo/Demo/ColorExtractor/MMCQ_ColorExtractor.swift:221-223 | a box whose three ranges are single values cannot be split |
| MedianCut.CanSplit | MyDemo/Demo/ColorExtractor/MMCQ_ColorExtractor.swift:221-223 | more than one pixel and some range longer than one value (used by `BestSplittable`, `Split` and `PointBoxCannotSplit`) |
| MedianCut.SortedByAxis | MyDemo/Demo/ColorExtractor/MMCQ_ColorExtractor.swift:230-236 | the keys sorted along the axis: a rearrangement of the box's entries in ascending axis order |
| MedianCut.CountAtMostPermutation | MyDemo/Demo/ColorExtractor/MMCQ_ColorExtractor.swift:239-253 | the pixels at or below a value do not depend on the order of the entries |
| MedianCut.ScanSplitMedian | MyDemo/Demo/ColorExtractor/MMCQ_ColorExtractor.swift:239-253 | the cumulative scan stops at an axis value of some entry, where the pixels at or below it first reach the target |
| MedianCut.ChildCounts | MyDemo/Demo/ColorExtractor/MMCQ_ColorExtractor.swift:256-272 | the lower child holds the pixels at or below the split value, the upper child the rest |
| MedianCut.SplitPopulations | MyDemo/Demo/ColorExtractor/MMCQ_ColorExtractor.swift:256-272 | cutting at any value divides the box's pixels between the two children |
| MedianCut.Upper | MyDemo/Demo/ColorExtractor/MMCQ_ColorExtractor.swift:258-271 | the upper child starts just above the split value on the axis (stated by `ChildCounts` and `SplitPopulations`) |
| MedianCut.UpperAsWritten | MyDemo/Demo/ColorExtractor/MMCQ_ColorExtractor.swift:265 | as written, the green upper child starts one above the box's own green minimum (stated by `GreenSplitCountsTwice`) |
| MedianCut.SplitValueIsMedian | MyDemo/Demo/ColorExtractor/MMCQ_ColorExtractor.swift:238-253 | the split value is a median along the longest axis: some key has it, at least half the pixels (rounded down) are at or below it and fewer are strictly below it |
| MedianCut.MedianOfArrangement | MyDemo/Demo/ColorExtractor/MMCQ_ColorExtractor.swift:230-253 | the scan over any ascending arrangement of the entries stops at the same median |
| MedianCut.Split | MyDemo/Demo/ColorExtractor/MMCQ_ColorExtractor.swift:226-280 | `split` (with the green child corrected) returns nil when the box cannot be split or a child is empty; otherwise two well-formed non-empty children whose populations add up to the parent's |
| MedianCut.GreenSplitCountsTwice | MyDemo/Demo/ColorExtractor/MMCQ_ColorExtractor.swift:263-266 | as written, the green cut of the example box gives children holding 5 pixels between them where the box holds 4 |
| MedianCut.ExampleAsWrittenChildren | MyDemo/Demo/ColorExtractor/MMCQ_ColorExtractor.swift:263-266 | as written, the example's children hold 2 and 3 pixels |
| MedianCut.GreenSplitCorrected | MyDemo/Demo/ColorExtractor/MMCQ_ColorExtractor.swift:263-266 | with the right child starting at the split value plus one, the example splits into 2 and 2 pixels |
| MedianCut.ExampleBox | MyDemo/Demo/ColorExtractor/MMCQ_ColorExtractor.swift:206-223 | the example box holds 4 pixels, can be split and is longest along green |
| MedianCut.ExampleMedian | MyDemo/Demo/ColorExtractor/MMCQ_ColorExtractor.swift:238-253 | the median of the example lies at green 8 |
| MedianCut.BestSplittable | MyDemo/Demo/ColorExtractor/MMCQ_ColorExtractor.swift:712-718 | the box chosen is splittable and of largest population times volume, the last of equal maxima (`max(by:)` keeps a later equal element); none exactly when no box can be split |
| MedianCut.ReplaceBox | MyDemo/Demo/ColorExtractor/MMCQ_ColorExtractor.swift:725-728 | removing the chosen box and appending its children adds one box, keeps every box well formed and moves the parent's pixels to the children |
| MedianCut.Populated | MyDemo/Demo/ColorExtractor/MMCQ_ColorExtractor.swift:741 | `filter { population > 0 }` keeps only boxes with pixels and keeps the pixel total |
| MedianCut.ChannelExtremes | MyDemo/Demo/ColorExtractor/MMCQ_ColorExtractor.swift:694-696 | the `min()!`/`max()!` of a channel over the keys are attained and bound every key |
| MedianCut.InitialBox | MyDemo/Demo/ColorExtractor/MMCQ_ColorExtractor.swift:698-703 | the first box holds the whole histogram and all its pixels; with a single key it cannot be split |
| MedianCut.PerformMMCQ | MyDemo/Demo/ColorExtractor/MMCQ_ColorExtractor.swift:684-742 | no boxes for an empty histogram; otherwise the boxes with pixels among those `Rounds` reaches from the box around all keys, at most `max(1, targetColors)` well-formed boxes, each with pixels, together holding every pixel; a single key with pixels gives exactly one box |
| MedianCut.Rounds | MyDemo/Demo/ColorExtractor/MMCQ_ColorExtractor.swift:709-738 | the loop's rounds: below the target, the best splittable box is replaced by its halves; stop when none can be split or the chosen one will not split (stated by `RoundsStop`) |
| MedianCut.RoundsStop | MyDemo/Demo/ColorExtractor/MMCQ_ColorExtractor.swift:709-738 | the rounds never remove a box, never pass the target unless they start past it, and stop below the target only when no box can be split or the best box will not split |
| MedianCut.InitialState | MyDemo/Demo/ColorExtractor/MMCQ_ColorExtractor.swift:698-705 | the loop starts from one well-formed box holding every pixel, which cannot be split when there is one key |
| MedianCut.FinalState | MyDemo/Demo/ColorExtractor/MMCQ_ColorExtractor.swift:741 | dropping empty boxes at the end keeps every pixel and, for one key with pixels, one box |
| MedianCut.SingleKeyCannotSplit | MyDemo/Demo/ColorExtractor/MMCQ_ColorExtractor.swift:709-723 | a single-key histogram leaves the loop nothing to split |
| MedianCut.PopulatedWellFormed | MyDemo/Demo/ColorExtractor/MMCQ_ColorExtractor.swift:741 | the boxes returned are well formed and hold pixels |
| MedianCut.BoxTotals | MyDemo/Demo/ColorExtractor/MMCQ_ColorExtractor.swift:184-191 | the accumulator loop gives the count-weighted channel sums and the pixel count |
| MedianCut.AverageColor | MyDemo/Demo/ColorExtractor/MMCQ_ColorExtractor.swift:176-203 | `averageColor` is the count-weighted mean key (integer division), the centre of the ranges for a box without keys, black for a box without pixels |
| MedianCut.ChannelSumBounds | MyDemo/Demo/ColorExtractor/MMCQ_ColorExtractor.swift:197-202 | a weighted channel sum lies between the least and the largest value times the pixel count |
| MedianCut.AverageColorInside | MyDemo/Demo/ColorExtractor/MMCQ_ColorExtractor.swift:176-203 | the average colour of a box lies inside the box |
| Merge.Near | MyDemo/Demo/ColorExtractor/MMCQ_ColorExtractor.swift:474-481 | the inner scan collects, in ascending order, indices other than the opening one that are not yet processed |
| Merge.NearExactly | MyDemo/Demo/ColorExtractor/MMCQ_ColorExtractor.swift:474-481 | the group holds exactly the unprocessed indices other than `i` closer than the threshold to colour `i` |
| Merge.PassUpTo | MyDemo/Demo/ColorExtractor/MMCQ_ColorExtractor.swift:467-491 | after visiting `k` indices there are at most `k` groups, none empty, all indices in range |
| Merge.Pick | MyDemo/Demo/ColorExtractor/MMCQ_ColorExtractor.swift:470-479 | the colours of a group are the input colours at its indices |
| Merge.MergedOf | MyDemo/Demo/ColorExtractor/MMCQ_ColorExtractor.swift:485-490 | a group's output colour carries the group's total frequency |
| Merge.CreateMerged | MyDemo/Demo/ColorExtractor/MMCQ_ColorExtractor.swift:497-515 | the blended colour with the group's total frequency (stated by `MergedOf`) |
| Merge.MergedAll | MyDemo/Demo/ColorExtractor/MMCQ_ColorExtractor.swift:485-490 | one output colour per group |
| Merge.MergeColors | MyDemo/Demo/ColorExtractor/MMCQ_ColorExtractor.swift:463-494 | the nested loops compute the greedy grouping and emit one colour per group |
| Merge.MergeOf | MyDemo/Demo/ColorExtractor/MMCQ_ColorExtractor.swift:463-494 | the greedy grouping merged group by group (stated by `MergeColors`, `GroupsPartition` and `MergeKeepsFrequency`) |
| Merge.CollectGroup | MyDemo/Demo/ColorExtractor/MMCQ_ColorExtractor.swift:470-482 | the inner loop returns the group's colours and adds its indices to the processed set |
| Merge.OpenStep | MyDemo/Demo/ColorExtractor/MMCQ_ColorExtractor.swift:467-491 | visiting an unprocessed index opens one group and appends one merged colour |
| Merge.CollectStep | MyDemo/Demo/ColorExtractor/MMCQ_ColorExtractor.swift:474-482 | one turn of the inner loop keeps the group and the processed set in step with the scan |
| Merge.ScanStep | MyDemo/Demo/ColorExtractor/MMCQ_ColorExtractor.swift:474-482 | index `j` joins the group iff it is not the opening index, is unprocessed and is close enough |
| Merge.MergeShrinks | MyDemo/Demo/ColorExtractor/MMCQ_ColorExtractor.swift:463-494 | the output is no longer than the input |
| Merge.PassConsistent | MyDemo/Demo/ColorExtractor/MMCQ_ColorExtractor.swift:465-491 | the groups never repeat an index and the processed set is exactly their indices |
| Merge.VisitConsistent | MyDemo/Demo/ColorExtractor/MMCQ_ColorExtractor.swift:467-491 | each visit of the outer loop preserves that consistency |
| Merge.PassCovers | MyDemo/Demo/ColorExtractor/MMCQ_ColorExtractor.swift:467-471 | every index the outer loop has visited is processed |
| Merge.GroupsPartition | MyDemo/Demo/ColorExtractor/MMCQ_ColorExtractor.swift:463-494 | the groups partition the indices: every input index lies in exactly one group, once |
| Merge.MergeKeepsFrequency | MyDemo/Demo/ColorExtractor/MMCQ_ColorExtractor.swift:463-498 | merging keeps the total frequency of the colours |
| Merge.MergedFrequencies | MyDemo/Demo/ColorExtractor/MMCQ_ColorExtractor.swift:485-498 | the merged colours' frequency total is the total over the grouped indices |
| Merge.PickPermutation | MyDemo/Demo/ColorExtractor/MMCQ_ColorExtractor.swift:498 | rearranging indices does not change the frequency total |
| Enhanced.OutlierMeaning | MyDemo/Demo/ColorExtractor/MMCQ_ColorExtractor.swift:538-550 | a colour is an outlier iff some candidate has a different RGB and every such candidate is more than 10 away |
| Enhanced.Outliers | MyDemo/Demo/ColorExtractor/MMCQ_ColorExtractor.swift:538-551 | the outliers kept are candidates, all outliers, and every outlier candidate is kept |
| Enhanced.DetectOutlierColors | MyDemo/Demo/ColorExtractor/MMCQ_ColorExtractor.swift:532-565 | the loop and sort compute the outlier detection as specified by `DetectedOutliers` (all colours when there are at most three) |
| Enhanced.DetectedOutliersAreOutliers | MyDemo/Demo/ColorExtractor/MMCQ_ColorExtractor.swift:532-565 | with more than three colours the result holds exactly the outliers, most unique first |
| Enhanced.DetectedOutliers | MyDemo/Demo/ColorExtractor/MMCQ_ColorExtractor.swift:532-565 | all colours for at most three, else the outliers most unique first (stated by `DetectedOutliersAreOutliers`) |
| Enhanced.ScoreColors | MyDemo/Demo/ColorExtractor/MMCQ_ColorExtractor.swift:638-642 | the in-place scoring loop equals scoring each colour against the original colours |
| Enhanced.ScoredKeepsColors | MyDemo/Demo/ColorExtractor/MMCQ_ColorExtractor.swift:638-642 | scoring keeps every RGB and frequency, and each uniqueness is no more than the distance to any differently coloured member |
| EnhancedPipeline.DominantColors | MyDemo/Demo/ColorExtractor/MMCQ_ColorExtractor.swift:602-622 | the `compactMap` loop computes the colour of each box with pixels |
| EnhancedPipeline.DominantAreAverages | MyDemo/Demo/ColorExtractor/MMCQ_ColorExtractor.swift:602-622 | each box median cut returns yields exactly one colour: its average colour weighted by its population |
| EnhancedPipeline.MinDistance | MyDemo/Demo/ColorExtractor/MMCQ_ColorExtractor.swift:626-628 | `map { deltaE }.min()` is None exactly for no colours, else attained and least |
| EnhancedPipeline.MinDistanceAbove | MyDemo/Demo/ColorExtractor/MMCQ_ColorExtractor.swift:626-630 | `(min ?? infinity) > 10` iff the candidate is more than 10 from every chosen colour |
| EnhancedPipeline.AddDominant | MyDemo/Demo/ColorExtractor/MMCQ_ColorExtractor.swift:625-634 | the loop keeps the chosen colours in front and, below the target, is the greedy selection capped at the target |
| EnhancedPipeline.Ranked | MyDemo/Demo/ColorExtractor/MMCQ_ColorExtractor.swift:656-659 | at most `targetColors` colours and no more than were merged |
| EnhancedPipeline.RankedKeepsBest | MyDemo/Demo/ColorExtractor/MMCQ_ColorExtractor.swift:656-659 | the ranked colours are the first of the merged colours sorted by importance; none left out is more important than one kept |
| EnhancedPipeline.FarCandidates | MyDemo/Demo/ColorExtractor/MMCQ_ColorExtractor.swift:665-674 | every backfill candidate is an input colour far (over 8) from every ranked colour as read back |
| EnhancedPipeline.BackfillBound | MyDemo/Demo/ColorExtractor/MMCQ_ColorExtractor.swift:664-678 | the backfill keeps the ranked colours in front and never goes past the target |
| EnhancedPipeline.BackfillSeparated | MyDemo/Demo/ColorExtractor/MMCQ_ColorExtractor.swift:664-678 | with the intended read-back, every added colour is more than 8 from, and different from, each ranked colour |
| EnhancedPipeline.BackfillRepeatsAsWritten | MyDemo/Demo/ColorExtractor/MMCQ_ColorExtractor.swift:669-671 | as written, one ranked colour and the same colour in the histogram give that colour twice |
| EnhancedPipeline.BackfillRepeatsNothing | MyDemo/Demo/ColorExtractor/MMCQ_ColorExtractor.swift:669-671 | with the intended read-back the same input gives the colour once |
| EnhancedPipeline.OutlierQuota | MyDemo/Demo/ColorExtractor/MMCQ_ColorExtractor.swift:586-590 | the leading outliers, `min(count, targetColors / 2)` of them, so at most half the target |
| EnhancedPipeline.PerformEnhancedMMCQ | MyDemo/Demo/ColorExtractor/MMCQ_ColorExtractor.swift:568-681 | never more than `targetColors` colours, none for an empty histogram |
| EnhancedPipeline.EmptyPipeline | MyDemo/Demo/ColorExtractor/MMCQ_ColorExtractor.swift:638-678 | with nothing chosen, ranking and backfill give nothing |
| Dbscan.MaxCount | MyDemo/Demo/ColorExtractor/DBSCANColorExtractor.swift:318-319 | `max()` of the counts bounds every count and is attained |
| Dbscan.Frequent | MyDemo/Demo/ColorExtractor/DBSCANColorExtractor.swift:320-321 | the kept buckets are exactly those reaching the rarity threshold, in order |
| Dbscan.ScoredPoints | MyDemo/Demo/ColorExtractor/DBSCANColorExtractor.swift:324-326 | scoring keeps each point's colour and count |
| Dbscan.ScorePoints | MyDemo/Demo/ColorExtractor/DBSCANColorExtractor.swift:324-326 | the in-place scoring loop equals scoring every point against the original colours |
| Dbscan.ColorPointsAsWritten | MyDemo/Demo/ColorExtractor/DBSCANColorExtractor.swift:318-321 | as written, the force-unwrapped `max()` fails exactly on an empty histogram |
| Dbscan.TransparentImageTraps | MyDemo/Demo/ColorExtractor/DBSCANColorExtractor.swift:297-321 | a one-pixel transparent buffer leaves the histogram empty, and the code as written traps on it |
| Dbscan.PointsFromBuckets | MyDemo/Demo/ColorExtractor/DBSCANColorExtractor.swift:318-328 | the points come from the histogram, reach the threshold, and cover every bucket that does |
| Dbscan.ColorPointsKept | MyDemo/Demo/ColorExtractor/DBSCANColorExtractor.swift:318-328 | for a non-empty histogram there is at least one point, and the points are exactly the buckets reaching `max(1, max/200)` |
| Dbscan.FrequentNotEmpty | MyDemo/Demo/ColorExtractor/DBSCANColorExtractor.swift:318-321 | the largest bucket is never rare |
| Dbscan.BuildColorPoints | MyDemo/Demo/ColorExtractor/DBSCANColorExtractor.swift:261-329 | the points of the quantized (3-bit) opaque pixels of the buffer |
| Dbscan.BufferHasPoints | MyDemo/Demo/ColorExtractor/DBSCANColorExtractor.swift:261-329 | a buffer has points iff some pixel has alpha above 125 |
| Dbscan.BufferPointsQuantized | MyDemo/Demo/ColorExtractor/DBSCANColorExtractor.swift:297-302 | point channels are multiples of 32 in 0..255, counts between 1 and the number of opaque pixels |
| Dbscan.Neighbors | MyDemo/Demo/ColorExtractor/DBSCANColorExtractor.swift:390-401 | neighbour indices are ascending and in range |
| Dbscan.NeighborsExactly | MyDemo/Demo/ColorExtractor/DBSCANColorExtractor.swift:390-401 | the neighbourhood holds exactly the points within `eps` |
| Dbscan.RegionQuery | MyDemo/Demo/ColorExtractor/DBSCANColorExtractor.swift:390-401 | `regionQuery` returns exactly the ascending indices within `eps` of the query point |
| Dbscan.RegionHasQuery | MyDemo/Demo/ColorExtractor/DBSCANColorExtractor.swift:390-401 | a point is always its own neighbour |
| Dbscan.VisitOne | MyDemo/Demo/ColorExtractor/DBSCANColorExtractor.swift:415-417 | visiting a point leaves one unvisited point fewer, so the work-list loop terminates |
| Dbscan.ExpandStep | MyDemo/Demo/ColorExtractor/DBSCANColorExtractor.swift:412-433 | one turn of the work-list loop keeps its invariant |
| Dbscan.StepCovers | MyDemo/Demo/ColorExtractor/DBSCANColorExtractor.swift:415-422 | the work-list grows by the neighbourhood of each newly visited core point |
| Dbscan.ExpandCluster | MyDemo/Demo/ColorExtractor/DBSCANColorExtractor.swift:403-434 | the seed gets the id; every neighbour of the seed gets an id; points already in a cluster keep theirs; only unclassified or noise points are relabelled; every newly visited core point's neighbours are on the list; for a core seed every relabelled point is core or within `eps` of a core point with the id |
| Dbscan.AnchorStart | MyDemo/Demo/ColorExtractor/DBSCANColorExtractor.swift:406-408 | a core seed's neighbourhood, the first work-list, lies within `eps` of a core point with the cluster id |
| Dbscan.AnchorStep | MyDemo/Demo/ColorExtractor/DBSCANColorExtractor.swift:412-428 | one turn of the work-list loop keeps every list entry and every relabelled point anchored at a core point of the cluster |
| Dbscan.ExpandDone | MyDemo/Demo/ColorExtractor/DBSCANColorExtractor.swift:412-433 | when the list is exhausted, every neighbour of the seed is labelled |
| Dbscan.ScanStart | MyDemo/Demo/ColorExtractor/DBSCANColorExtractor.swift:339-343 | before the scan nothing is visited or labelled |
| Dbscan.ScanSkip | MyDemo/Demo/ColorExtractor/DBSCANColorExtractor.swift:344 | a point visited by an earlier expansion is passed over |
| Dbscan.ScanNoise | MyDemo/Demo/ColorExtractor/DBSCANColorExtractor.swift:346-350 | an unvisited non-core point is labelled noise |
| Dbscan.ScanCluster | MyDemo/Demo/ColorExtractor/DBSCANColorExtractor.swift:351-362 | an unvisited core point opens cluster `currentClusterId` and expansion keeps the scan invariant |
| Dbscan.ShapeNoise | MyDemo/Demo/ColorExtractor/DBSCANColorExtractor.swift:349-350 | marking a non-core point as noise keeps core pairs together and cluster members anchored |
| Dbscan.ShapeCluster | MyDemo/Demo/ColorExtractor/DBSCANColorExtractor.swift:351-361 | opening and expanding a cluster keeps visited, mutually close core points under one id and every member core or within `eps` of a core point with its id |
| Dbscan.ScanPoint | MyDemo/Demo/ColorExtractor/DBSCANColorExtractor.swift:344-362 | one turn of the scan keeps its invariant and opens a cluster exactly at an unvisited core point |
| Dbscan.Having | MyDemo/Demo/ColorExtractor/DBSCANColorExtractor.swift:376-384 | `filter { clusterId == id }` returns no more points than there are |
| Dbscan.HavingFrom | MyDemo/Demo/ColorExtractor/DBSCANColorExtractor.swift:376-384 | every filtered point is a point with that id |
| Dbscan.ClustersOf | MyDemo/Demo/ColorExtractor/DBSCANColorExtractor.swift:376-382 | the returned clusters are non-empty and in ascending id order |
| Dbscan.GroupClusters | MyDemo/Demo/ColorExtractor/DBSCANColorExtractor.swift:376-384 | the grouping loop returns the non-empty clusters by id, their points, and the noise |
| Dbscan.InClustersStep | MyDemo/Demo/ColorExtractor/DBSCANColorExtractor.swift:376-382 | one more id adds that cluster's points |
| Dbscan.LabelsPartition | MyDemo/Demo/ColorExtractor/DBSCANColorExtractor.swift:376-384 | when every label is noise or a cluster id, noise and clusters together are all the points |
| Dbscan.PerformDBSCAN | MyDemo/Demo/ColorExtractor/DBSCANColorExtractor.swift:332-387 | clusters are non-empty and in ascending id order; clusters and noise partition the points; a noise point is not core and is farther than `eps` from every core point; a non-core cluster member is within `eps` of a core member of its own cluster; core points within `eps` of each other share a cluster |
| Dbscan.ScanResult | MyDemo/Demo/ColorExtractor/DBSCANColorExtractor.swift:343-386 | a finished scan partitions the points into noise and clusters, with noise points not core and away from core points |
| Dbscan.ShapeBorders | MyDemo/Demo/ColorExtractor/DBSCANColorExtractor.swift:375-382 | after the grouping, a non-core member of a cluster has a core member of the same cluster within `eps` |
| Dbscan.ShapeCores | MyDemo/Demo/ColorExtractor/DBSCANColorExtractor.swift:344-382 | after the full scan and grouping, mutually close core points are in the same cluster |
| Dbscan.CorePair | MyDemo/Demo/ColorExtractor/DBSCANColorExtractor.swift:344-382 | two mutually close core points found under two ids of a finished scan were labelled with the same id |
| Dbscan.BestIndex | MyDemo/Demo/ColorExtractor/DBSCANColorExtractor.swift:134-140 | `max(by:)` picks a point of greatest importance, the last of them |
| Dbscan.Representative | MyDemo/Demo/ColorExtractor/DBSCANColorExtractor.swift:134-140 | the colour of the last most important point of the cluster, black for none |
| Dbscan.Representatives | MyDemo/Demo/ColorExtractor/DBSCANColorExtractor.swift:473-480 | one representative per cluster, in order |
| Dbscan.SelectFinalColors | MyDemo/Demo/ColorExtractor/DBSCANColorExtractor.swift:437-485 | the selection loops compute `FinalColors` |
| Dbscan.FinalColorsOf | MyDemo/Demo/ColorExtractor/DBSCANColorExtractor.swift:445-484 | the selection is the top noise colours, then cluster representatives by best importance up to the target |
| Dbscan.FinalColors | MyDemo/Demo/ColorExtractor/DBSCANColorExtractor.swift:445-484 | the top noise colours, then representatives by best importance up to the target (stated by `FinalColorsOf`, `FinalColorsBound`, `FinalColorsOutliers` and `FinalColorsClusters`) |
| Dbscan.AppendOutliers | MyDemo/Demo/ColorExtractor/DBSCANColorExtractor.swift:454-458 | the outlier loop appends each outlier's colour, in order |
| Dbscan.AppendRepresentatives | MyDemo/Demo/ColorExtractor/DBSCANColorExtractor.swift:473-480 | the cluster loop appends representatives, in order, until the target is reached |
| Dbscan.FinalColorsBound | MyDemo/Demo/ColorExtractor/DBSCANColorExtractor.swift:445-484 | at most `targetColors` colours for a positive target and at most one otherwise |
| Dbscan.FinalColorsOutliers | MyDemo/Demo/ColorExtractor/DBSCANColorExtractor.swift:448-458 | the selection starts with the `min(|noise|, max(1, 0.35 * target))` most important noise colours |
| Dbscan.FinalColorsClusters | MyDemo/Demo/ColorExtractor/DBSCANColorExtractor.swift:462-481 | after the noise colours, representatives fill the quota as far as there are clusters, and nothing else |
| Dbscan.SortedRepresentatives | MyDemo/Demo/ColorExtractor/DBSCANColorExtractor.swift:466-480 | representatives of the clusters in any order are theirs |
| Dbscan.DeduplicateColors | MyDemo/Demo/ColorExtractor/DBSCANColorExtractor.swift:488-526 | the loop computes the greedy de-duplication at distance 8 |
| Dbscan.DeduplicatedColors | MyDemo/Demo/ColorExtractor/DBSCANColorExtractor.swift:488-526 | an order-preserving subsequence whose colours are pairwise at least 8 apart, starting with the first colour; every dropped colour is within 8 of a kept one |
| Dbscan.ExtractColorsDBSCAN | MyDemo/Demo/ColorExtractor/DBSCANColorExtractor.swift:189-258 | at most `max(targetColors, 1)` colours, pairwise at least 8 apart, none for a buffer without opaque pixels |
| Dbscan.NoPointsNoColors | MyDemo/Demo/ColorExtractor/DBSCANColorExtractor.swift:445-484 | without points there is nothing to select |
| Smart.ExtractColorPoints | MyDemo/Demo/ColorExtractor/SimpleSmartColorExtractor.swift:195-254 | the scan returns the points of the 2-bit quantized opaque pixels |
| Smart.ColorPointsCountPixels | MyDemo/Demo/ColorExtractor/SimpleSmartColorExtractor.swift:222-253 | the frequencies add up to the number of pixels with alpha above 125; colours are distinct multiples of 4 in 0..255, counts at least 1 |
| Smart.UnscoredTotal | MyDemo/Demo/ColorExtractor/SimpleSmartColorExtractor.swift:251-253 | keeping every bucket keeps every pixel |
| Smart.ScoredAll | MyDemo/Demo/ColorExtractor/SimpleSmartColorExtractor.swift:158-161 | scoring gives one point per point |
| Smart.ScoreColors | MyDemo/Demo/ColorExtractor/SimpleSmartColorExtractor.swift:158-161 | the in-place scoring loop equals scoring every point against the original colours |
| Smart.ScoredUniqueness | MyDemo/Demo/ColorExtractor/SimpleSmartColorExtractor.swift:88-106 | scoring keeps colours and frequencies; uniqueness is 100 when no other RGB exists, else the least distance to a differently coloured point |
| Smart.ScoredAt | MyDemo/Demo/ColorExtractor/SimpleSmartColorExtractor.swift:90-95 | the uniqueness of one point, as above |
| Smart.SmartSelectColors | MyDemo/Demo/ColorExtractor/SimpleSmartColorExtractor.swift:257-284 | the loop computes the sorted greedy selection |
| Smart.SmartSelection | MyDemo/Demo/ColorExtractor/SimpleSmartColorExtractor.swift:257-284 | candidates are visited best score first; at most `targetCount` colours, pairwise at least 12 apart, a subsequence of the sorted candidates; a candidate is dropped only when the quota is full or it is within 12 of a selected colour |
| Smart.SmartSelected | MyDemo/Demo/ColorExtractor/SimpleSmartColorExtractor.swift:257-284 | the greedy selection over the candidates sorted by score (stated by `SmartSelection`) |
| Smart.SmartSelectedFromPoints | MyDemo/Demo/ColorExtractor/SimpleSmartColorExtractor.swift:257-284 | every selected colour is a point's colour |
| Smart.FinalDeduplication | MyDemo/Demo/ColorExtractor/SimpleSmartColorExtractor.swift:287-310 | the loop computes the last de-duplication at distance 10 |
| Smart.FinalDeduplicationKeeps | MyDemo/Demo/ColorExtractor/SimpleSmartColorExtractor.swift:287-310 | inputs of at most one colour are returned unchanged; otherwise an order-preserving, no longer subsequence pairwise at least 10 apart, keeping the first colour and dropping only colours within 10 of a kept one |
| Smart.FinalDeduplicated | MyDemo/Demo/ColorExtractor/SimpleSmartColorExtractor.swift:287-310 | the last de-duplication at distance 10 (stated by `FinalDeduplicationKeeps` and `FinalDeduplicationIdempotent`) |
| Smart.FinalDeduplicationIdempotent | MyDemo/Demo/ColorExtractor/SimpleSmartColorExtractor.swift:292-309 | applying it twice is applying it once |
| Smart.SeparatedSurvive | MyDemo/Demo/ColorExtractor/SimpleSmartColorExtractor.swift:292-309 | colours already at least 10 apart pass unchanged |
| Smart.ExtractColorsSimpleSmart | MyDemo/Demo/ColorExtractor/SimpleSmartColorExtractor.swift:130-192 | the result is the selection over the scored points: at most `targetColors` colours, pairwise at least 12 apart, each a point's colour, none without opaque pixels |
| Smart.NoPixelsNoPoints | MyDemo/Demo/ColorExtractor/SimpleSmartColorExtractor.swift:251-253 | positive frequencies adding up to 0 mean no points |
| KMeans.SquaredDistance | MyDemo/Demo/ColorExtractor/UIImage+ColorExtract_Improved.swift:397-401 | the square of `euclideanDistance`: non-negative and 0 from a pixel to itself |
| KMeans.FartherThanMeansDistance | MyDemo/Demo/ColorExtractor/UIImage+ColorExtract_Improved.swift:397-401 | comparing squared distances against the squared threshold is comparing the distance itself |
| KMeans.GetPixelData | MyDemo/Demo/ColorExtractor/UIImage+ColorExtract.swift:28-77 | the row/column walk returns the pixels of the buffer in row-major order |
| KMeans.PixelDataRowMajor | MyDemo/Demo/ColorExtractor/UIImage+ColorExtract.swift:66-76 | exactly `width * height` pixels; the pixel at `(x, y)` has index `width * y + x` and the bytes at offset `4 * (width * y + x)`, with no alpha test |
| KMeans.Closest | MyDemo/Demo/ColorExtractor/UIImage+ColorExtract_Improved.swift:338-351 | the first index of least distance, 0 without centres |
| KMeans.FindClosestCluster | MyDemo/Demo/ColorExtractor/UIImage+ColorExtract_Improved.swift:338-351 | the strict `<` scan returns the first nearest centre |
| KMeans.ClosestSnoc | MyDemo/Demo/ColorExtractor/UIImage+ColorExtract.swift:150-161 | a later centre replaces the nearest so far only when strictly nearer |
| KMeans.MembersAppend | MyDemo/Demo/ColorExtractor/UIImage+ColorExtract.swift:148-165 | assignment distributes over concatenated pixel lists |
| KMeans.MembersExact | MyDemo/Demo/ColorExtractor/UIImage+ColorExtract.swift:148-165 | every pixel is in the list of its nearest centre, and only there |
| KMeans.CountAll | MyDemo/Demo/ColorExtractor/UIImage+ColorExtract_Improved.swift:288-312 | with at least one centre, the member lists together hold every pixel once |
| KMeans.MeanWithin | MyDemo/Demo/ColorExtractor/UIImage+ColorExtract.swift:167-187 | the mean of pixels in 0..255 is in 0..255 |
| KMeans.UpdateCenters | MyDemo/Demo/ColorExtractor/UIImage+ColorExtract.swift:167-187 | a cluster without points keeps its centre, any other moves to the mean of its points |
| KMeans.Iteration | MyDemo/Demo/ColorExtractor/UIImage+ColorExtract.swift:142-187 | a round keeps the number of clusters |
| KMeans.IterationMeaning | MyDemo/Demo/ColorExtractor/UIImage+ColorExtract_Improved.swift:288-332 | a round keeps the number of clusters, puts every pixel into the cluster of its nearest old centre (member total = pixel count), keeps the centre of an empty cluster and moves the others to their means |
| KMeans.Iterate | MyDemo/Demo/ColorExtractor/UIImage+ColorExtract.swift:140-188 | repeated rounds keep the number of clusters |
| KMeans.IterateValid | MyDemo/Demo/ColorExtractor/UIImage+ColorExtract.swift:140-188 | centres in 0..255 stay there through any number of rounds |
| BasicKMeans.InitialClusters | MyDemo/Demo/ColorExtractor/UIImage+ColorExtract.swift:130-137 | `colorCount` clusters whose centres are pixels and without points; none when there are no pixels |
| BasicKMeans.Round | MyDemo/Demo/ColorExtractor/UIImage+ColorExtract.swift:142-187 | clear, assign in place, update: one k-means round |
| BasicKMeans.AppendStep | MyDemo/Demo/ColorExtractor/UIImage+ColorExtract.swift:148-165 | appending a pixel to its nearest cluster keeps every cluster the members of the pixels seen so far |
| BasicKMeans.KMeansClustering | MyDemo/Demo/ColorExtractor/UIImage+ColorExtract.swift:124-190 | exactly `maxIterations` rounds from the initial clusters, with no early exit |
| BasicKMeans.KMeansClusteringResult | MyDemo/Demo/ColorExtractor/UIImage+ColorExtract.swift:124-190 | the result has `colorCount` clusters (none without pixels), every centre in 0..255 |
| ProgressiveKMeans.ChunkCountBounds | MyDemo/Demo/ColorExtractor/UIImage+ColorExtract_Improved.swift:36-41 | the number of chunks is the least `k` with `k * size >= n` |
| ProgressiveKMeans.FlattenChunks | MyDemo/Demo/ColorExtractor/UIImage+ColorExtract_Improved.swift:36-41 | the first `k` chunks put together are the first `min(k * size, n)` elements |
| ProgressiveKMeans.ChunkedMeaning | MyDemo/Demo/ColorExtractor/UIImage+ColorExtract_Improved.swift:36-41 | no chunks for a size of 0 or less; otherwise the least number of chunks, all of `size` except a non-empty last one of at most `size`, that put together give the array |
| ProgressiveKMeans.Chunked | MyDemo/Demo/ColorExtractor/UIImage+ColorExtract_Improved.swift:36-41 | `chunked(into:)` (stated by `ChunkedMeaning`) |
| ProgressiveKMeans.FullChunk | MyDemo/Demo/ColorExtractor/UIImage+ColorExtract_Improved.swift:36-41 | every chunk before the last is `size` long |
| ProgressiveKMeans.AssignStep | MyDemo/Demo/ColorExtractor/UIImage+ColorExtract_Improved.swift:296-303 | appending a pixel to its nearest centre's list keeps every list the members of the batch so far |
| ProgressiveKMeans.AssignBatch | MyDemo/Demo/ColorExtractor/UIImage+ColorExtract_Improved.swift:296-303 | each pixel of the batch goes to the list of its nearest centre |
| ProgressiveKMeans.MergeBatch | MyDemo/Demo/ColorExtractor/UIImage+ColorExtract_Improved.swift:308-312 | each cluster's points are extended by its batch list |
| ProgressiveKMeans.PerformKMeansIteration | MyDemo/Demo/ColorExtractor/UIImage+ColorExtract_Improved.swift:287-335 | the batched round is exactly one plain k-means round |
| ProgressiveKMeans.MergeStep | MyDemo/Demo/ColorExtractor/UIImage+ColorExtract_Improved.swift:306-312 | after merging batch `b`, every list holds the members among batches `0..b` |
| ProgressiveKMeans.CheckConvergence | MyDemo/Demo/ColorExtractor/UIImage+ColorExtract_Improved.swift:354-369 | false for lists of different lengths, else true iff every paired centre moved at most the threshold |
| ProgressiveKMeans.NearestSquared | MyDemo/Demo/ColorExtractor/UIImage+ColorExtract_Improved.swift:244-249 | the squared distance to the nearest centre, no more than that to any centre |
| ProgressiveKMeans.Weights | MyDemo/Demo/ColorExtractor/UIImage+ColorExtract_Improved.swift:244-249 | one weight per pixel, its squared distance to the nearest centre |
| ProgressiveKMeans.PickFrom | MyDemo/Demo/ColorExtractor/UIImage+ColorExtract_Improved.swift:253-261 | the first index at which the cumulative weight reaches the drawn value, none if never reached |
| ProgressiveKMeans.Seeded | MyDemo/Demo/ColorExtractor/UIImage+ColorExtract_Improved.swift:234-262 | the seeding starts with the first picked pixel |
| ProgressiveKMeans.NextCentersPick | MyDemo/Demo/ColorExtractor/UIImage+ColorExtract_Improved.swift:252-261 | a round adds the picked pixel, or nothing when no index reaches the drawn value |
| ProgressiveKMeans.NearestDistances | MyDemo/Demo/ColorExtractor/UIImage+ColorExtract_Improved.swift:244-250 | the distance loop returns every pixel's weight and the total |
| ProgressiveKMeans.FirstReaching | MyDemo/Demo/ColorExtractor/UIImage+ColorExtract_Improved.swift:253-261 | the cumulative loop returns the first index reaching the drawn value |
| ProgressiveKMeans.InitializeClusters | MyDemo/Demo/ColorExtractor/UIImage+ColorExtract_Improved.swift:228-265 | the seeding loop computes `InitialClusters` |
| ProgressiveKMeans.SeededCount | MyDemo/Demo/ColorExtractor/UIImage+ColorExtract_Improved.swift:234-262 | with draws in `0...total`, every round adds a pixel as a centre, the first one the first pick |
| ProgressiveKMeans.NextCentersGrows | MyDemo/Demo/ColorExtractor/UIImage+ColorExtract_Improved.swift:252-261 | with a draw in `0...total` a round over pixels always adds a pixel |
| ProgressiveKMeans.SeededStep | MyDemo/Demo/ColorExtractor/UIImage+ColorExtract_Improved.swift:239-262 | each round adds the first pixel where the cumulative weight reaches the draw; for a positive draw it is none of the earlier centres |
| ProgressiveKMeans.KMeansClustering | MyDemo/Demo/ColorExtractor/UIImage+ColorExtract_Improved.swift:372-381 | seeding, then `maxIterations` rounds, with no early exit |
| ProgressiveKMeans.InitialClustersMeaning | MyDemo/Demo/ColorExtractor/UIImage+ColorExtract_Improved.swift:228-265 | no clusters without pixels or for `count <= 0`; otherwise `count` clusters without points, each centre a pixel, the first the first pick |
| ProgressiveKMeans.InitialClusters | MyDemo/Demo/ColorExtractor/UIImage+ColorExtract_Improved.swift:228-265 | the k-means++ seeding wrapped as clusters without points (stated by `InitialClustersMeaning`) |
| ProgressiveKMeans.InitialClustersValid | MyDemo/Demo/ColorExtractor/UIImage+ColorExtract_Improved.swift:228-265 | initial centres have channels in 0..255 |
| ProgressiveKMeans.KMeansClusteringResult | MyDemo/Demo/ColorExtractor/UIImage+ColorExtract_Improved.swift:372-381 | `colorCount` clusters (none without pixels or for a count of 0 or less), every centre in 0..255 |
| ProgressiveKMeans.SettledMeaning | MyDemo/Demo/ColorExtractor/UIImage+ColorExtract_Improved.swift:162-166 | `zip(...).allSatisfy { <= 1.0 }` iff every pair of the zip moved at most the threshold |
| ProgressiveKMeans.Converged | MyDemo/Demo/ColorExtractor/UIImage+ColorExtract_Improved.swift:354-366 | `checkConvergence` (stated by `CheckConvergence` and `SettledMeaning`) |
| ProgressiveKMeans.RepeatIsIterate | MyDemo/Demo/ColorExtractor/UIImage+ColorExtract_Improved.swift:150-198 | repeating the progressive round is the plain iteration |
| ProgressiveKMeans.ExtractColorsProgressive | MyDemo/Demo/ColorExtractor/UIImage+ColorExtract_Improved.swift:145-198 | seeding, then the loop of rounds, reports and early exit, as `Progress` describes it |
| ProgressiveKMeans.ProgressiveRounds | MyDemo/Demo/ColorExtractor/UIImage+ColorExtract_Improved.swift:148-198 | the loop's clusters and reports are those of `Progress` |
| ProgressiveKMeans.ProgressStep | MyDemo/Demo/ColorExtractor/UIImage+ColorExtract_Improved.swift:158-194 | one round: its report, then the end or the rounds after it |
| ProgressiveKMeans.ProgressReports | MyDemo/Demo/ColorExtractor/UIImage+ColorExtract_Improved.swift:150-198 | one report per round, at most 10, numbered from 1; a round is complete exactly when it converged or was the tenth; only the last can be complete |
| ProgressiveKMeans.ProgressClusters | MyDemo/Demo/ColorExtractor/UIImage+ColorExtract_Improved.swift:150-198 | the loop ends with the clusters of as many plain rounds as it reported, and the last report shows their centres |
| ProgressiveKMeans.ProgressRepeats | MyDemo/Demo/ColorExtractor/UIImage+ColorExtract_Improved.swift:150-198 | the same for any round function |
| Hex.HexDigit | MyDemo/Demo/ColorExtractor/UIImage+ColorExtract_Improved.swift:550 | a lowercase hexadecimal digit |
| Hex.DigitValueOfHex | MyDemo/Demo/ColorExtractor/UIImage+ColorExtract_Improved.swift:550 | a digit reads back as its value |
| Hex.HexOf | MyDemo/Demo/ColorExtractor/UIImage+ColorExtract_Improved.swift:550 | `%x`: non-empty hex digits, one digit iff below 16, at most two iff below 256 |
| Hex.HexOfRoundTrip | MyDemo/Demo/ColorExtractor/UIImage+ColorExtract_Improved.swift:550 | the digits read back as the number |
| Hex.Field | MyDemo/Demo/ColorExtractor/UIImage+ColorExtract_Improved.swift:550 | `%02x` of one channel (meaning stated by `FieldMeaning` and `FieldOfByte`) |
| Hex.FieldMeaning | MyDemo/Demo/ColorExtractor/UIImage+ColorExtract_Improved.swift:550 | `%02x`: at least two digits, reading back as the low 32 bits; exactly two iff those are below 256 |
| Hex.FieldOfByte | MyDemo/Demo/ColorExtractor/UIImage+ColorExtract.swift:245 | a byte gives exactly two digits that read back as the byte |
| Hex.ToHexString | MyDemo/Demo/ColorExtractor/UIImage+ColorExtract_Improved.swift:539-551 | `#` and three `%02x` fields (meaning stated by `ToHexStringOfBytes` and `ToHexStringInjective`) |
| Hex.ToHexStringOfBytes | MyDemo/Demo/ColorExtractor/UIImage+ColorExtract_Improved.swift:539-551 | for channels in 0..255: `#` and three two-digit lowercase fields, reading back as r, g and b |
| Hex.ToHexStringInjective | MyDemo/Demo/ColorExtractor/UIImage+ColorExtract.swift:233-247 | different byte colours give different strings |
| Hex.NegativeOne | MyDemo/Demo/ColorExtractor/UIImage+ColorExtract_Improved.swift:550 | a negative channel prints its 32-bit two's complement |
| NumbersBuilder.PartialBlocksKeepOrder | MyDemo/Sample/ResultBuilderSample.swift:40-57 | folding with `first:` and `accumulated:next:` gives the values in source order, as `buildBlock` does |
| NumbersBuilder.BuildBlock | MyDemo/Sample/ResultBuilderSample.swift:40-43 | the variadic block is the values themselves (stated by `PartialBlocksKeepOrder`) |
| NumbersBuilder.BuildPartialBlockFirst | MyDemo/Sample/ResultBuilderSample.swift:47-50 | the first value alone (stated by `PartialBlocksKeepOrder`) |
| NumbersBuilder.BuildPartialBlockNext | MyDemo/Sample/ResultBuilderSample.swift:54-57 | the values so far followed by the next one (stated by `PartialBlocksKeepOrder`) |
| NumbersBuilder.BuildExpressionInt | MyDemo/Sample/ResultBuilderSample.swift:62-65 | an `Int` is kept as it is (stated by `NumbersMadeViaBuilderValue`) |
| NumbersBuilder.BuildExpressionString | MyDemo/Sample/ResultBuilderSample.swift:67-69 | a decimal string gives its number, any other string 5 (stated by `ParseShowInt` and `BuildExpressionStringFallback`) |
| NumbersBuilder.BuildOptional | MyDemo/Sample/ResultBuilderSample.swift:73-76 | the block's first value, 0 for none (stated by `ConditionalsAgree`) |
| NumbersBuilder.BuildEitherFirst | MyDemo/Sample/ResultBuilderSample.swift:79-82 | the block's first value, 0 for an empty one (stated by `ConditionalsAgree`) |
| NumbersBuilder.BuildEitherSecond | MyDemo/Sample/ResultBuilderSample.swift:85-88 | the block's first value, 0 for an empty one (stated by `ConditionalsAgree`) |
| NumbersBuilder.BuildLimitedAvailability | MyDemo/Sample/ResultBuilderSample.swift:91-93 | the block unchanged; the sample builds no `#available` block |
| NumbersBuilder.ParseInt | MyDemo/Sample/ResultBuilderSample.swift:67-69 | `Int(String)` gives only 64-bit values |
| NumbersBuilder.ParseShowInt | MyDemo/Sample/ResultBuilderSample.swift:67-69 | every 64-bit number's decimal string parses back to it, so `buildExpression` gives the number |
| NumbersBuilder.BuildExpressionStringFallback | MyDemo/Sample/ResultBuilderSample.swift:67-69 | strings that are not numbers give 5 |
| NumbersBuilder.BuildExpressionStringSigns | MyDemo/Sample/ResultBuilderSample.swift:67-69 | `"4"`, `"+4"` and `"-4"` give 4, 4 and -4 |
| NumbersBuilder.ConditionalsAgree | MyDemo/Sample/ResultBuilderSample.swift:73-88 | `buildOptional` and both `buildEither` give the first element, 0 for an empty block or a missing one |
| NumbersBuilder.SumAppend | MyDemo/Sample/ResultBuilderSample.swift:96-99 | the sum of a concatenation is the sum of the sums |
| NumbersBuilder.BuildArraySums | MyDemo/Sample/ResultBuilderSample.swift:96-99 | `buildArray` is the sum of the iterations' sums; one more iteration adds its own sum |
| NumbersBuilder.BuildArray | MyDemo/Sample/ResultBuilderSample.swift:96-99 | the sum of all iterations' values (stated by `BuildArraySums`) |
| NumbersBuilder.BuildArrayExample | MyDemo/Sample/ResultBuilderSample.swift:96-99 | `[[5], [6], [7]]` gives 18 |
| NumbersBuilder.NumbersMadeViaBuilderValue | MyDemo/Sample/ResultBuilderSample.swift:13-24 | the body, closed by `buildFinalResult` appending 100, gives `[1, 2, 3, 0, 18, 100]` (4 in place of 0 when the condition holds) |
| NumbersBuilder.NumbersMadeViaBuilder | MyDemo/Sample/ResultBuilderSample.swift:13-24 | the builder applied to the sample body (its value stated by `NumbersMadeViaBuilderValue`) |


## Left out

**Floating point and colour science**

- Colour conversion, Delta-E and the scores (`LABColor`, `AdvancedLABColor`, `SimpleLABColor`, `calculateVisualImportance`, `finalScore`) are floating point. They are the parameters `dist`, `weigh` and `score`.
- The Lab-space average of `createMergedColor` is the parameter `blend`. Its frequency total is modelled.
- k-means compares squared distances instead of `sqrt`. `KMeans.FartherThanMeansDistance` shows the comparisons agree. Pixel channels are exact reals, and `averageMovement` with its division by zero (NaN when there are no centres) is not modelled. Nor are the progress fractions.
- `Colors.DivT`: `Int(Double(targetColors) * 0.35)` in `selectFinalColors` is modelled as the exact `targetColors * 35 / 100` truncated. It agrees with the double computation except where rounding of 0.35 matters.
- A colour read back through `UIColor` (`getRed`, `Int(r * 255)`, `labColor.uiColor`) is modelled as the colour itself. Exception: the backfill comparison of `performEnhancedMMCQ`, whose read-back is a finding below.

**UIKit and CoreGraphics**

- Not modelled: `downSized`, `calloc`/`CGContext` drawing, `UIColor` construction, `clustersToColors` with its hue sort, and the views and view models.
- The extractors start from the drawn buffer, so the image-size guards and the error throws before it are not modelled.

**Concurrency and I/O**

- Not modelled: `AsyncThrowingStream`, `continuation.yield`, `Task.yield`, `MainActor.run`, the progress callbacks and `print`.
- `Task.isCancelled` in the progressive loop is not modelled. The loop runs as if never cancelled.
- `withTaskGroup` in `performKMeansIteration` is modelled in chunk order. The source merges batches in completion order, so the points of a cluster may come in another order; the set of points and the mean do not change.

**Randomness**

- `randomElement()` is the parameters `picks` and `firstIndex`.
- `CGFloat.random(in: 0...total)` is the parameter `draw`. `DrawsWithin(draw)` states that it returns a value in the closed range.

**Order and integer width**

- Swift dictionary iteration order is unspecified. The model takes the histogram in the order it lists its entries, so results that depend on ties (a sort of equal keys, equal maxima) follow that order.
- Swift's `max(by:)` keeps a later element when it is not smaller than the best so far, so among equal maxima it returns the last. `MedianCut.BestSplittable` and `Dbscan.BestIndex` do the same.
- `Sorting.SortDesc` is a stable sort, which Swift's `sorted(by:)` does not promise.
- Swift `Int` arithmetic traps on 64-bit overflow. Pixel counts and channel sums here stay far below that, so integers are unbounded. `toHexString`'s `%02x` does model the truncation of its argument to 32 bits.

**Operations modelled only in part**

- `extractColorsMMCQ` (`MMCQ_ColorExtractor.swift:304-402`) is not a member of its own. It runs `buildColorHistogram` and then `performEnhancedMMCQ`, both modelled, and otherwise only reports progress.
- `extractColorsProgressive` before seeding and `getPixelData` of `UIImage+ColorExtract_Improved.swift:61-104` are not modelled separately. That `getPixelData` is the same walk as `KMeans.GetPixelData`.

**Weaker contracts and traps turned into preconditions**

- `EnhancedPipeline.PerformEnhancedMMCQ`: its contract states only the `targetColors` cap and the empty case. What each phase computes is stated by the phases' own members: outlier quota, dominant colours, greedy addition, scoring, merging, ranking and backfill.
- `Dbscan.PerformDBSCAN`: does not state that the core points of one cluster are density-connected. It states that mutually close core points share a cluster and that every non-core member is within `eps` of a core member of its own cluster.
- `EnhancedPipeline.PerformEnhancedMMCQ`: requires `targetColors >= 0`, because `prefix` of a negative count traps.
- `BasicKMeans.KMeansClustering` and `ProgressiveKMeans.KMeansClustering`: require non-negative loop bounds where the source uses `0..<n`. With pixels, they also require at least one cluster (or no round), since assigning a pixel indexes `clusters[0]`.
- `ProgressiveKMeans.ExtractColorsProgressive`, `ProgressiveKMeans.PerformKMeansIteration` and `BasicKMeans.Round`: with pixels, they require at least one cluster, for the same `clusters[0]` reason.

## Findings

| source | as written | input that shows it | evidently intended | confidence | as-written member | corrected member |
|---|---|---|---|---|---|---|
| MyDemo/Demo/ColorExtractor/MMCQ_ColorExtractor.swift:265 | the green split's right child starts at `gMin + 1`, so it overlaps the left child | one pixel each at green 0 and 8 and two at green 16, box green 0..16 (red and blue 0): children of 2 and 3 pixels from a box of 4 | the right child starts at `splitValue + 1`, as the red and blue branches do, giving 2 and 2 | high (not executed) | MedianCut.GreenSplitCountsTwice | MedianCut.GreenSplitCorrected |
| MyDemo/Demo/ColorExtractor/DBSCANColorExtractor.swift:318 | `max()!` over the bucket counts traps when every pixel was skipped | a one-pixel buffer `[0, 0, 0, 0]` (alpha 0) leaves the histogram empty | an empty image gives no points and so no colours | high (not executed) | Dbscan.TransparentImageTraps | Dbscan.BufferHasPoints |
| MyDemo/Demo/ColorExtractor/MMCQ_ColorExtractor.swift:669-671 | `components?[0] ?? 0 * 255` parses as `components?[0] ?? (0 * 255)`, so each ranked colour is read back as 0 or 1 per channel and the backfill compares candidates with near-black | ranked `[(200, 0, 0)]`, histogram with the one colour (200, 0, 0), target 2: the backfill adds (200, 0, 0) again | the components are scaled by 255, so a candidate is compared with the ranked colour itself and never repeats it | high (not executed) | EnhancedPipeline.BackfillRepeatsAsWritten | EnhancedPipeline.BackfillRepeatsNothing |

The model uses the corrected behaviour everywhere else:

- `MedianCut.Upper` starts the right child of a green split at the split value plus one; `MedianCut.UpperAsWritten` keeps the version the source has.
- `Dbscan.BuildColorPoints` returns no points for an empty histogram; `Dbscan.ColorPointsAsWritten` keeps the trapping version.
- `EnhancedPipeline.PerformEnhancedMMCQ` backfills with the intended read-back. `EnhancedPipeline.BackfillSeparated` proves that no added colour is within 8 of, or equal to, a ranked colour.
