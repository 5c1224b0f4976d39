# Label-seeded k-means and class colours

A Dafny model of the computational core of a browser image segmenter.

- **`kmeans(pixels, points, classCount, maxIter)`** (`src/utils/kmeans.js`) clusters the pixels of an image.
  - Each centroid is seeded with the mean colour of the points the user labelled with that class.
  - Out-of-range labels are skipped.
  - It then runs exactly `maxIter` rounds. Each round assigns every pixel to its nearest centroid, with ties going to the lowest index, and moves every centroid to the mean of the pixels it won.
- **`hexToRgb`** (`src/components/ClassManager.jsx`) decodes the colour picker's `#rrggbb` string into three bytes.
- **`addClass`** (same file) appends a named class with that colour to the class list, and ignores the request when the name is empty.

Files:

- `results.dfy`: `Option` and `Result`.
- `color.dfy`: colours with exact `real` channels, sums, means, squared distance, and why dropping `Math.sqrt` changes no comparison.
- `kmeans.dfy`: the algorithm as pure functions: `Group`, `Seed`, `Nearest`, `Assign`, `Update`, `Round`, `Iterate` and `Cluster`.
- `kmeans_facts.dfy`: properties of the algorithm. These are the tie rule, skipped points, empty clusters reset to Black, colours staying in the 0..255 cube, fixed points, and concrete scenarios.
- `kmeans_loops.dfy`: the loop-based implementation, with each method proved equal to its functional counterpart. It follows the JavaScript loop by loop, except that the `iter` loop is split into a counter (`IterationCount`) and a loop that runs that many rounds (`RunRounds`).
- `class_manager.dfy`: `hexToRgb` for every string of Unicode code points (see Left out for where this differs from JavaScript's UTF-16 strings), its inverse for picker values, and `addClass` over the form state.

How the model follows the code:

- **Error cases.** `kmeans` does not constrain its callers, so `Cluster` returns a `Result`:
  - A `classCount` that is negative or at least 2^32 makes `Array(classCount)` throw a RangeError (`InvalidArrayLength`), since an array length must be a whole number below 2^32.
  - `classCount == 0` with at least one pixel and one round makes `newCentroids[0]` undefined at line 59, which throws (`MissingCentroid`).
  - `maxIter <= 0` runs no round. The label slots stay unwritten (`None`) and the centroids are the seeds.
- **Empty clusters.** A centroid that wins no pixel is reset to Black `(0,0,0)`, because `newCentroids` replaces the old table outright. This differs from k-means variants that keep an empty cluster's previous centroid.
- **No rounding.** Means are exact quotients.
- **Which centroids the labels refer to.** The labels returned refer to the centroids that entered the last round, not to the centroids returned.

## Model

| member | source | states |
|---|---|---|
| KMeans.Group | src/utils/kmeans.js:16-24 | bucket `k` holds exactly the colours of the points labelled `k`, in input order (the reference filter `ColoursOf`); out-of-range points land nowhere |
| KMeans.Seed | src/utils/kmeans.js:12-35 | a class with labelled points starts at the mean of their colours; a class without any starts at Black |
| KMeans.Start | src/utils/kmeans.js:12-13 | the state before the first round has one unwritten (`None`) label slot per pixel, as `new Array(pixels.length)` leaves it, and `classCount` centroids |
| KMeans.Nearest | src/utils/kmeans.js:41-50 | its contract states only the range: an index below the number of centroids, or 0 with no centroids; what the index means is in `NearestIsFirstNearest` |
| KMeans.ScanFindsFirstNearest | src/utils/kmeans.js:43-49 | the scan keeps its loop invariant (best index and its distance so far, `Infinity` before the first centroid) and ends on a centroid at minimum squared distance with every earlier centroid strictly farther |
| KMeans.NearestIsFirstNearest | src/utils/kmeans.js:41-50 | with at least one centroid, the index a pixel gets is its first nearest centroid, so the lowest index wins ties |
| KMeans.Assign | src/utils/kmeans.js:40-51 | one label per pixel, each the result of the scan for that pixel; this ensures repeats the body, and what the labels mean is in `AssignIsFirstNearest` |
| KMeans.AssignIsFirstNearest | src/utils/kmeans.js:40-51 | every label of the assignment step names the first nearest centroid of its pixel |
| KMeans.Tally | src/utils/kmeans.js:54-61 | the accumulated sum and count of cluster `k` are the sum and size of the pixels labelled `k` |
| KMeans.Update | src/utils/kmeans.js:54-70 | a cluster with members moves to their mean; a cluster without members is reset to Black |
| KMeans.Round | src/utils/kmeans.js:39-70 | a round writes every label with an index below the number of centroids and keeps the number of centroids |
| KMeans.RoundMeaning | src/utils/kmeans.js:39-70 | after a round every label is written with the first nearest centroid, and every centroid is the mean of the pixels so labelled, or Black if none |
| KMeans.Iterate | src/utils/kmeans.js:38-71 | after one or more rounds every label slot is written and in range; zero rounds change nothing |
| KMeans.Cluster | src/utils/kmeans.js:11-74 | throws a RangeError exactly when `classCount < 0` or `classCount >= 2^32`, and the missing-centroid error exactly when `classCount == 0` with pixels and a round; otherwise one label per pixel and `classCount` centroids, all labels in range after a round, seeds and unwritten labels after none |
| KMeansFacts.FirstNearestUnique | src/utils/kmeans.js:41-49 | at most one index is the first nearest centroid |
| KMeansFacts.NearestIffFirstNearest | src/utils/kmeans.js:41-50 | the scan returns `k` if and only if `k` is the first nearest centroid |
| KMeansFacts.TieGoesToLowerIndex | src/utils/kmeans.js:45 | a pixel halfway between two centroids is labelled with the lower index |
| KMeansFacts.SqDistPositive | src/utils/kmeans.js:82-86 | different colours are at a positive distance |
| Color.SqrtKeepsOrder | src/utils/kmeans.js:82-86 | for non-negative values, `s < t` exactly when `s*s < t*t`, so comparing squared distances picks the same centroid as comparing distances |
| KMeansFacts.IterateStep | src/utils/kmeans.js:38-71 | `n + 1` rounds are `n` rounds followed by one more round, with no early exit |
| KMeansFacts.IterateAdd | src/utils/kmeans.js:38-71 | `a + b` rounds are `a` rounds followed by `b` rounds |
| KMeansFacts.ClusterEndsWithRound | src/utils/kmeans.js:38-73 | a run with rounds returns exactly the last round applied to the centroids the earlier rounds left |
| KMeansFacts.ClusterLabelsAndCentroids | src/utils/kmeans.js:38-73 | each returned label is the first nearest of the centroids entering the last round; each returned centroid is the mean of the pixels so labelled, or Black |
| KMeansFacts.ColoursOfValidPoints | src/utils/kmeans.js:18-24 | removing the out-of-range points first leaves every class's colours unchanged |
| KMeansFacts.SeedIgnoresInvalidPoints | src/utils/kmeans.js:18-35 | the seeds are the same with or without the out-of-range points |
| KMeansFacts.ClusterIgnoresInvalidPoints | src/utils/kmeans.js:18-24 | the whole result is the same with or without the out-of-range points |
| KMeansFacts.OutOfRangePointIsDropped | src/utils/kmeans.js:19-22 | a single point with class index `classCount` has no effect: the run equals one with no points |
| KMeansFacts.MeanOfTwo | src/utils/kmeans.js:29-32 | the mean of two colours is their per-channel midpoint |
| KMeansFacts.SeedAveragesLabelledColours | src/utils/kmeans.js:27-35 | points (10,10,10) and (20,20,20) of one class seed it at (15,15,15) |
| KMeansFacts.MembersOfUnusedLabel | src/utils/kmeans.js:57-61 | a label no pixel carries collects no pixel |
| KMeansFacts.UnclaimedCentroidIsReset | src/utils/kmeans.js:54-70 | a centroid that is nobody's nearest becomes Black after the round |
| KMeansFacts.FarCentroidIsReset | src/utils/kmeans.js:54-70 | one pixel and two centroids, one on the pixel: the other centroid is reset to Black, not kept |
| KMeansFacts.SeedInCube | src/utils/kmeans.js:27-35 | seeds of colours in the 0..255 cube lie in the cube |
| KMeansFacts.RoundInCube | src/utils/kmeans.js:54-70 | a round over pixels in the cube leaves every centroid in the cube |
| KMeansFacts.IterateInCube | src/utils/kmeans.js:38-71 | any number of rounds keeps centroids in the cube |
| KMeansFacts.ClusterCentroidsInCube | src/utils/kmeans.js:11-74 | pixels and labelled colours in the cube give returned centroids in the cube |
| KMeansFacts.PixelOnCentroid | src/utils/kmeans.js:41-50 | among distinct centroids, a pixel equal to centroid `k` is labelled `k` |
| KMeansFacts.AssignOnCentroids | src/utils/kmeans.js:40-51 | pixels that each equal one of distinct centroids are labelled with the centroid they equal |
| KMeansFacts.CentroidStays | src/utils/kmeans.js:57-67 | if every pixel equals one of distinct centroids and every centroid is hit, each centroid's members have it as their mean |
| KMeansFacts.RoundFixedPoint | src/utils/kmeans.js:39-70 | such centroids are a fixed point of a round |
| KMeansFacts.IterateFixedPoint | src/utils/kmeans.js:38-71 | from a fixed point every positive number of rounds returns the same clustering |
| KMeansFacts.ClusterFromExactSeeds | src/utils/kmeans.js:11-74 | when the image consists exactly of distinct seed colours, the run keeps the seeds and labels each pixel with its colour's class |
| KMeansFacts.TwoToneImage | src/utils/kmeans.js:11-74 | `n` pixels of `a` then `m` of `b`, one labelled point each: labels are `n` zeros then `m` ones and the centroids are `a`, `b` |
| KMeansFacts.SeedOfTwoClasses | src/utils/kmeans.js:16-35 | one point per class seeds each class at that point's colour |
| KMeansLoops.NearestIndex | src/utils/kmeans.js:41-50 | the loop with `Infinity` as the starting minimum returns the first nearest centroid, equal to `Nearest` |
| KMeansLoops.AssignPixels | src/utils/kmeans.js:40-51 | the assignment loop computes `Assign` |
| KMeansLoops.TallyPixels | src/utils/kmeans.js:54-61 | the accumulation loop fails exactly when a label has no centroid, and otherwise computes `Tally` |
| KMeansLoops.DivideSums | src/utils/kmeans.js:64-68 | the averaging loop divides the buckets with a positive count and leaves the others as they are |
| KMeansLoops.UpdateCentroids | src/utils/kmeans.js:53-70 | accumulation and averaging together fail exactly when a label has no centroid, and otherwise compute `Update` |
| KMeansLoops.GroupPoints | src/utils/kmeans.js:16-24 | the grouping loop computes `Group` |
| KMeansLoops.SeedCentroids | src/utils/kmeans.js:12-35 | the seeding loops compute `Seed` |
| KMeansLoops.RunRound | src/utils/kmeans.js:39-70 | one loop round fails exactly when there are pixels but no centroid, and otherwise computes `Round` |
| KMeansLoops.IterationCount | src/utils/kmeans.js:38 | the `for (iter = 0; iter < maxIter; iter++)` counter ends at `Rounds(maxIter)`: `maxIter` when it is positive, 0 otherwise |
| KMeansLoops.RunRounds | src/utils/kmeans.js:38-71 | running the body of the `iter` loop `rounds` times fails exactly when there are pixels, no centroid and a round to run, and otherwise computes `Iterate` |
| KMeansLoops.RunKMeans | src/utils/kmeans.js:11-74 | the whole loop program computes `Cluster`, including both exceptions and the array-length bound |
| Color.SumBounds | src/utils/kmeans.js:29-31 | the channel sums of colours in the cube lie between 0 and 255 times their number |
| Color.MeanInCube | src/utils/kmeans.js:32 | the mean of colours in the cube is in the cube |
| Color.MeanOfCopies | src/utils/kmeans.js:32 | the mean of `n` copies of one colour is that colour |
| Color.MeanTimesCount | src/utils/kmeans.js:29-32 | each channel of the mean times the number of colours is the channel sum, so the mean is the sum divided by the count |
| Color.SqDist | src/utils/kmeans.js:82-86 | the squared distance is never negative; `SqDistPositive` shows it is positive between different colours, and `SqrtKeepsOrder` why it can stand in for `Math.sqrt` |
| ClassManager.ParseHex | src/components/ClassManager.jsx:15 | for strings without leading whitespace, sign or `0x` prefix, `parseInt(…, 16)` is NaN exactly when the string does not start with a hexadecimal digit |
| ClassManager.HexValue | src/components/ClassManager.jsx:15 | the value of `n` hex digits is below 16^n; `HexValueAppend` gives its digit-by-digit meaning |
| ClassManager.ToInt32 | src/components/ClassManager.jsx:17-19 | the operand of `>>` and `&` is the signed 32-bit value congruent to the parsed value modulo 2^32, and 0 for NaN |
| ClassManager.ShiftRight | src/components/ClassManager.jsx:17-18 | `n >> 8` and `n >> 16` are the floor of `n / 256` and `n / 65536`: the result times the divisor is at most `n`, and `n` is below the next multiple |
| ClassManager.LowByte | src/components/ClassManager.jsx:17-19 | `n & 255` is a byte congruent to `n` modulo 256, which is the low byte of its two's complement form |
| ClassManager.HexToRgb | src/components/ClassManager.jsx:14-21 | every input decodes to three channels, each in 0..255 |
| ClassManager.HexToRgbChannels | src/components/ClassManager.jsx:15-20 | red, green and blue are bits 16..23, 8..15 and 0..7 of the parsed value modulo 2^32, all zero for NaN |
| ClassManager.HexToRgbRecomposes | src/components/ClassManager.jsx:15-20 | for `#` and six hex digits, `r*65536 + g*256 + b` is the parsed 24-bit value |
| ClassManager.HexValueAppend | src/components/ClassManager.jsx:15 | the value of two digit strings joined is the first shifted by the length of the second, plus the second |
| ClassManager.RgbToHex | src/components/ClassManager.jsx:33-37 | formatting a byte triple gives `#` and six lower-case hex digits, the value format of the colour input |
| ClassManager.HexToRgbInvertsRgbToHex | src/components/ClassManager.jsx:14-21 | decoding the `#rrggbb` formatting of any byte triple gives the triple back |
| ClassManager.RgbToHexInvertsHexToRgb | src/components/ClassManager.jsx:14-37 | formatting the decoding of any value the colour input can hold gives the same string back |
| ClassManager.DefaultColourIsRed | src/components/ClassManager.jsx:6-20 | the initial colour `InitialColour` (`#ff0000`) decodes to (255, 0, 0) |
| ClassManager.UnparsableIsBlack | src/components/ClassManager.jsx:15-20 | a string with no hex digit after its first character (and no whitespace, sign or `0x` there) decodes to (0, 0, 0) |
| ClassManager.AddClass | src/components/ClassManager.jsx:8-12 | an empty name leaves the form unchanged; otherwise exactly one class with that name and the decoded colour is appended at the old length, earlier classes keep their places, the name field is cleared and the colour kept |
| ClassManager.SubmitAllAppends | src/components/ClassManager.jsx:8-12 | after any sequence of submissions the list is the old list followed by one class per named submission, in order, so every existing index stays valid |
| ClassManager.AddClassKeepsColours | src/components/ClassManager.jsx:10 | adding a class keeps every colour in the list within 0..255 |

## Left out

- `src/components/ImageCanvas.jsx` is not part of this model. It handles canvas, DOM and events, packs pixels into RGBA buffers, and guards `classCount > 0` before calling `kmeans`. The model keeps that error case in `Cluster` instead.
- `src/components/ClassAreaTable.jsx` and `src/App.js` are not part of this model. They render and wire React state and compute nothing.
- React state: `setClasses`, `setNewClassName` and the `useState` hooks appear as the `Form` value that `AddClass` maps to a new `Form`. Rendering of the class list (lines 23-56) is left out.
- `console.error` on an out-of-range class index is a skip in the model. The message itself is I/O.
- IEEE floating point is replaced by exact `real` arithmetic, in both the means and the distance. `Math.sqrt` is dropped and squared distances are compared; `Color.SqrtKeepsOrder` shows this picks the same centroid. Rounding effects on ties between distances that are equal in exact arithmetic are not modelled.
- JavaScript's loose typing is not modelled. `classCount`, `maxIter` and `classIndex` are integers and colours have three channels. Fractional or non-numeric values are left out. `kmeans` uses `maxIter = 10` when the argument is omitted, as `src/components/ImageCanvas.jsx` does; `Cluster` has no default, so a call without `maxIter` corresponds to `Cluster` with `KMeans.DefaultMaxIter` (10).
- That `pixels` and `points` are only read holds by construction. They are immutable `seq` values and every operation returns a new value.
- ClassManager.HexToRgb: `parseInt`'s skipping of leading whitespace, its sign and `0x` prefix, and its loss of precision above 2^53 (strings of 14 or more digits) are not modelled. Parsing takes the longest run of hex digits right after the first character, as an exact integer. Dafny strings are sequences of code points, while `slice(1)` drops one UTF-16 code unit; a string whose first character is outside the Basic Multilingual Plane, such as `"\u{1F600}ff"`, decodes to (0,0,0) in JavaScript, because a lone surrogate is left in front, and to (0,0,255) here.
- ClassManager.ParseHex: `parseInt` skips leading whitespace and accepts a sign and a `0x` prefix; the model does not. So `" 1"`, `"-1"` and `"+f"` parse as 1, -1 and 15 in JavaScript but as NaN here, and `"0x"` is NaN in JavaScript but 0 here.
- ClassManager.UnparsableIsBlack: holds only for the modelled `parseInt`. In JavaScript `"#-1"`, `"# 1"` and `"#+f"` decode to (255,255,255), (0,0,1) and (0,0,15).

