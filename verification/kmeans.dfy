/**
 * The label-seeded k-means of the image segmenter.  Every centroid starts as
 * the mean colour of the points the user labelled with its class; then a
 * fixed number of rounds assigns every pixel to its nearest centroid and
 * moves every centroid to the mean of the pixels it won.
 */
module KMeans {
  import opened Results
  import opened Color

  /** A colour the user marked on the image, tagged with a class index. */
  datatype LabeledPoint = LabeledPoint(rgb: Rgb, classIndex: int)

  /**
   * The value `kmeans` returns.  `labels` has one slot per pixel; a slot is
   * `None` while no assignment round has written it (the array is created
   * with `new Array(pixels.length)`).
   */
  datatype Clustering = Clustering(labels: seq<Option<nat>>, centroids: seq<Rgb>)

  /** The exceptions `kmeans` can throw. */
  datatype KMeansError =
    | InvalidArrayLength  // `Array(classCount)` with a count that is negative or at least 2^32
    | MissingCentroid     // `newCentroids[0]` is undefined when there are no classes

  // ---------------------------------------------------------------------
  // Grouping and seeding
  // ---------------------------------------------------------------------

  /** True when a labelled point names one of the classes. */
  predicate InRange(pt: LabeledPoint, classCount: int) {
    0 <= pt.classIndex < classCount
  }

  /** The labelled points that name an existing class, in their original order. */
  function ValidPoints(points: seq<LabeledPoint>, classCount: int): (v: seq<LabeledPoint>)
    ensures |v| <= |points|
    ensures forall i :: 0 <= i < |v| ==> InRange(v[i], classCount)
    ensures forall i :: 0 <= i < |points| && InRange(points[i], classCount) ==> points[i] in v
    ensures forall pt :: pt in v ==> pt in points
  {
    if |points| == 0 then []
    else
      var v := ValidPoints(points[..|points| - 1], classCount);
      var pt := points[|points| - 1];
      if InRange(pt, classCount) then v + [pt] else v
  }

  /**
   * Reference definition: the colours of the points labelled with class
   * `k`, in the order the user gave them.
   */
  function ColoursOf(points: seq<LabeledPoint>, k: int): seq<Rgb>
  {
    if |points| == 0 then []
    else
      var pt := points[|points| - 1];
      var c := ColoursOf(points[..|points| - 1], k);
      if pt.classIndex == k then c + [pt.rgb] else c
  }

  /**
   * The `grouped` table: one bucket per class, filled by pushing each
   * point's colour in turn; a point whose class index is out of range is
   * reported and skipped.
   */
  function Group(points: seq<LabeledPoint>, classCount: nat): (g: seq<seq<Rgb>>)
    ensures |g| == classCount
    ensures forall k :: 0 <= k < classCount ==> g[k] == ColoursOf(points, k)
  {
    if |points| == 0 then seq(classCount, _ => [])
    else
      var g := Group(points[..|points| - 1], classCount);
      var pt := points[|points| - 1];
      if pt.classIndex < 0 || pt.classIndex >= classCount then g
      else g[pt.classIndex := g[pt.classIndex] + [pt.rgb]]
  }

  /**
   * The initial centroids: the mean colour of each class's labelled points,
   * or Black for a class nobody labelled.
   */
  function Seed(points: seq<LabeledPoint>, classCount: nat): (s: seq<Rgb>)
    ensures |s| == classCount
    ensures forall k :: 0 <= k < classCount && |ColoursOf(points, k)| > 0 ==>
      s[k] == Mean(ColoursOf(points, k))
    ensures forall k :: 0 <= k < classCount && |ColoursOf(points, k)| == 0 ==> s[k] == Black
  {
    var g := Group(points, classCount);
    seq(classCount, k requires 0 <= k < classCount => if |g[k]| > 0 then Mean(g[k]) else Black)
  }

  // ---------------------------------------------------------------------
  // Assignment
  // ---------------------------------------------------------------------

  /**
   * `k` is the nearest centroid to `p`, and the lowest index among the
   * nearest ones: no centroid is closer, and every centroid before it is
   * strictly farther.
   */
  predicate IsFirstNearest(p: Rgb, cs: seq<Rgb>, k: int) {
    && 0 <= k < |cs|
    && (forall j :: 0 <= j < |cs| ==> SqDist(p, cs[k]) <= SqDist(p, cs[j]))
    && (forall j :: 0 <= j < k ==> SqDist(p, cs[k]) < SqDist(p, cs[j]))
  }

  /** `d < minDist`, where an absent `minDist` is `Infinity`. */
  predicate Below(d: real, minDist: Option<real>) {
    minDist.None? || d < minDist.value
  }

  /**
   * The left-to-right scan over the centroids from index `j`, carrying the
   * best index and distance found so far; a strict comparison keeps the
   * earlier centroid on a tie.
   */
  function Scan(p: Rgb, cs: seq<Rgb>, j: nat, minIdx: nat, minDist: Option<real>): (k: nat)
    requires j <= |cs|
    requires j == 0 ==> minIdx == 0
    requires j > 0 ==> minIdx < j
    ensures |cs| == 0 ==> k == 0
    ensures |cs| > 0 ==> k < |cs|
    decreases |cs| - j
  {
    if j == |cs| then minIdx
    else
      var d := SqDist(p, cs[j]);
      if Below(d, minDist) then Scan(p, cs, j + 1, j, Some(d))
      else Scan(p, cs, j + 1, minIdx, minDist)
  }

  /**
   * The scan keeps its loop invariant: when `minIdx` is the first nearest
   * of the centroids before `j` and `minDist` its distance (absent before
   * the first centroid), the scan ends on the first nearest of all.
   */
  lemma {:induction false} ScanFindsFirstNearest(p: Rgb, cs: seq<Rgb>, j: nat, minIdx: nat, minDist: Option<real>)
    requires j <= |cs|
    requires j == 0 <==> minDist.None?
    requires j == 0 ==> minIdx == 0
    requires j > 0 ==> minIdx < j && minDist == Some(SqDist(p, cs[minIdx]))
    requires forall i :: 0 <= i < j ==> SqDist(p, cs[minIdx]) <= SqDist(p, cs[i])
    requires forall i :: 0 <= i < minIdx ==> SqDist(p, cs[minIdx]) < SqDist(p, cs[i])
    ensures |cs| > 0 ==> IsFirstNearest(p, cs, Scan(p, cs, j, minIdx, minDist))
    decreases |cs| - j
  {
    if j < |cs| {
      var d := SqDist(p, cs[j]);
      if Below(d, minDist) {
        ScanFindsFirstNearest(p, cs, j + 1, j, Some(d));
      } else {
        ScanFindsFirstNearest(p, cs, j + 1, minIdx, minDist);
      }
    }
  }

  /**
   * The index a pixel is assigned to.  With no centroids the scan never
   * runs and the index stays 0.
   */
  function Nearest(p: Rgb, cs: seq<Rgb>): (k: nat)
    ensures |cs| == 0 ==> k == 0
    ensures |cs| > 0 ==> k < |cs|
  {
    Scan(p, cs, 0, 0, None)
  }

  /** With at least one centroid, the index a pixel is assigned to is its first nearest centroid. */
  lemma NearestIsFirstNearest(p: Rgb, cs: seq<Rgb>)
    requires |cs| > 0
    ensures IsFirstNearest(p, cs, Nearest(p, cs))
  {
    ScanFindsFirstNearest(p, cs, 0, 0, None);
  }

  /** The assignment step: every pixel gets the index of its nearest centroid. */
  function Assign(pixels: seq<Rgb>, cs: seq<Rgb>): (labels: seq<nat>)
    ensures |labels| == |pixels|
    ensures forall i :: 0 <= i < |pixels| ==> labels[i] == Nearest(pixels[i], cs)
  {
    seq(|pixels|, i requires 0 <= i < |pixels| => Nearest(pixels[i], cs))
  }

  /** Every label of the assignment step names the first nearest centroid of its pixel. */
  lemma AssignIsFirstNearest(pixels: seq<Rgb>, cs: seq<Rgb>)
    requires |cs| > 0
    ensures forall i :: 0 <= i < |pixels| ==> IsFirstNearest(pixels[i], cs, Assign(pixels, cs)[i])
  {
    forall i | 0 <= i < |pixels| ensures IsFirstNearest(pixels[i], cs, Assign(pixels, cs)[i]) {
      NearestIsFirstNearest(pixels[i], cs);
    }
  }

  // ---------------------------------------------------------------------
  // Update
  // ---------------------------------------------------------------------

  /** Reference definition: the pixels labelled `k`, in pixel order. */
  function Members(pixels: seq<Rgb>, labels: seq<nat>, k: nat): (m: seq<Rgb>)
    requires |labels| == |pixels|
    ensures |m| <= |pixels|
    ensures forall c :: c in m ==> c in pixels
  {
    if |pixels| == 0 then []
    else
      var n := |pixels| - 1;
      var m := Members(pixels[..n], labels[..n], k);
      if labels[n] == k then m + [pixels[n]] else m
  }

  /** True when every label indexes one of `classCount` centroids. */
  predicate LabelsBelow(labels: seq<nat>, classCount: nat) {
    forall i :: 0 <= i < |labels| ==> labels[i] < classCount
  }

  /**
   * The accumulation pass of the update step: per-cluster channel sums and
   * pixel counts, both starting from zero, visiting the pixels in order.
   */
  function Tally(pixels: seq<Rgb>, labels: seq<nat>, classCount: nat): (t: (seq<Rgb>, seq<nat>))
    requires |labels| == |pixels|
    requires LabelsBelow(labels, classCount)
    ensures |t.0| == classCount && |t.1| == classCount
    ensures forall k :: 0 <= k < classCount ==>
      t.0[k] == Sum(Members(pixels, labels, k)) && t.1[k] == |Members(pixels, labels, k)|
  {
    if |pixels| == 0 then (seq(classCount, _ => Black), seq(classCount, _ => 0))
    else
      var n := |pixels| - 1;
      var (sums, counts) := Tally(pixels[..n], labels[..n], classCount);
      var idx := labels[n];
      SumSnocAll();
      (sums[idx := Add(sums[idx], pixels[n])], counts[idx := counts[idx] + 1])
  }

  /**
   * The update step: each cluster that won pixels moves to their mean; a
   * cluster that won none is reset to Black, because the fresh
   * `newCentroids` table replaces the old centroids outright.
   */
  function Update(pixels: seq<Rgb>, labels: seq<nat>, classCount: nat): (cs: seq<Rgb>)
    requires |labels| == |pixels|
    requires LabelsBelow(labels, classCount)
    ensures |cs| == classCount
    ensures forall k :: 0 <= k < classCount && |Members(pixels, labels, k)| > 0 ==>
      cs[k] == Mean(Members(pixels, labels, k))
    ensures forall k :: 0 <= k < classCount && |Members(pixels, labels, k)| == 0 ==>
      cs[k] == Black
  {
    var (sums, counts) := Tally(pixels, labels, classCount);
    seq(classCount, k requires 0 <= k < classCount =>
      if counts[k] > 0 then Divide(sums[k], counts[k]) else Black)
  }

  // ---------------------------------------------------------------------
  // Rounds and the whole algorithm
  // ---------------------------------------------------------------------

  /** Wraps the labels of a round as written array slots. */
  function Written(labels: seq<nat>): (w: seq<Option<nat>>)
    ensures |w| == |labels|
    ensures forall i :: 0 <= i < |labels| ==> w[i] == Some(labels[i])
  {
    seq(|labels|, i requires 0 <= i < |labels| => Some(labels[i]))
  }

  /** True when every label slot is written with an index below `classCount`. */
  predicate AllLabelled(labels: seq<Option<nat>>, classCount: nat) {
    forall i :: 0 <= i < |labels| ==> labels[i].Some? && labels[i].value < classCount
  }

  /**
   * One round: assignment, then update.  The update fails unless there is
   * a centroid to assign to or no pixel to assign.
   */
  function Round(pixels: seq<Rgb>, cs: seq<Rgb>): (r: Clustering)
    requires |cs| > 0 || |pixels| == 0
    ensures |r.labels| == |pixels| && |r.centroids| == |cs|
    ensures AllLabelled(r.labels, |cs|)
  {
    var labels := Assign(pixels, cs);
    Clustering(Written(labels), Update(pixels, labels, |cs|))
  }

  /**
   * What a round computes: every pixel is labelled with the first nearest
   * centroid, and every centroid moves to the mean of the pixels labelled
   * with it, or to Black if there are none.
   */
  lemma RoundMeaning(pixels: seq<Rgb>, cs: seq<Rgb>)
    requires |cs| > 0 || |pixels| == 0
    ensures forall i :: 0 <= i < |pixels| ==>
      Round(pixels, cs).labels[i].Some? && IsFirstNearest(pixels[i], cs, Round(pixels, cs).labels[i].value)
    ensures forall k :: 0 <= k < |cs| ==>
      var m := Members(pixels, Assign(pixels, cs), k);
      Round(pixels, cs).centroids[k] == if |m| > 0 then Mean(m) else Black
  {
    if |cs| > 0 {
      AssignIsFirstNearest(pixels, cs);
    }
  }

  /** `n` rounds, one after the other, with no early exit. */
  function Iterate(pixels: seq<Rgb>, st: Clustering, n: nat): (r: Clustering)
    requires n > 0 ==> |st.centroids| > 0 || |pixels| == 0
    ensures |r.centroids| == |st.centroids|
    ensures n == 0 ==> r == st
    ensures n > 0 ==> |r.labels| == |pixels| && AllLabelled(r.labels, |st.centroids|)
    decreases n
  {
    if n == 0 then st else Iterate(pixels, Round(pixels, st.centroids), n - 1)
  }

  /** The state before the first round: unwritten labels and the seeded centroids. */
  function Start(pixels: seq<Rgb>, points: seq<LabeledPoint>, classCount: nat): (st: Clustering)
    ensures |st.labels| == |pixels| && |st.centroids| == classCount
    ensures forall i :: 0 <= i < |pixels| ==> st.labels[i] == None
  {
    Clustering(seq(|pixels|, _ => None), Seed(points, classCount))
  }

  /** The number of rounds the `for (iter = 0; iter < maxIter; iter++)` loop runs. */
  function Rounds(maxIter: int): nat {
    if maxIter > 0 then maxIter else 0
  }

  /** The `maxIter` that `kmeans` uses when its caller leaves the argument out. */
  const DefaultMaxIter: int := 10

  /** `Array(n)` throws a RangeError unless `n` is a whole number below 2^32. */
  const ArrayLengthLimit: int := 0x1_0000_0000

  /**
   * `kmeans(pixels, points, classCount, maxIter)`: a class count that is
   * negative or not below 2^32 makes `Array(classCount)` throw; no classes
   * with pixels to assign makes
   * the first update throw; otherwise the rounds run from the seeds.
   */
  function Cluster(pixels: seq<Rgb>, points: seq<LabeledPoint>, classCount: int, maxIter: int)
    : (r: Result<Clustering, KMeansError>)
    ensures r == Failure(InvalidArrayLength) <==> classCount < 0 || classCount >= ArrayLengthLimit
    ensures r == Failure(MissingCentroid) <==> classCount == 0 && |pixels| > 0 && maxIter > 0
    ensures r.Success? ==> |r.value.labels| == |pixels| && |r.value.centroids| == classCount
    ensures r.Success? && maxIter > 0 ==> AllLabelled(r.value.labels, classCount)
    ensures r.Success? && maxIter <= 0 ==>
      r.value.centroids == Seed(points, classCount) &&
      forall i :: 0 <= i < |pixels| ==> r.value.labels[i] == None
  {
    if classCount < 0 || classCount >= ArrayLengthLimit then Failure(InvalidArrayLength)
    else if classCount == 0 && |pixels| > 0 && maxIter > 0 then Failure(MissingCentroid)
    else Success(Iterate(pixels, Start(pixels, points, classCount), Rounds(maxIter)))
  }
}
