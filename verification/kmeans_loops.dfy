/**
 * `kmeans` in `src/utils/kmeans.js` written with its own loops, each proved
 * to compute what the functional model in `KMeans` defines.
 */
module KMeansLoops {
  import opened Results
  import opened Color
  import opened KMeans
  import KMeansFacts

  /**
   * The inner scan of the assignment step: `minDist` starts at infinity
   * (`None`) and `minIdx` at 0, and only a strictly smaller distance moves
   * them, so the earliest of equally near centroids is kept.
   */
  method NearestIndex(p: Rgb, cs: seq<Rgb>) returns (minIdx: nat)
    ensures |cs| == 0 ==> minIdx == 0
    ensures |cs| > 0 ==> IsFirstNearest(p, cs, minIdx)
    ensures minIdx == Nearest(p, cs)
  {
    var minDist: Option<real> := None;
    minIdx := 0;
    var j := 0;
    while j < |cs|
      invariant 0 <= j <= |cs|
      invariant j == 0 <==> minDist.None?
      invariant j == 0 ==> minIdx == 0
      invariant j > 0 ==> minIdx < j && minDist == Some(SqDist(p, cs[minIdx]))
      invariant forall i :: 0 <= i < j ==> SqDist(p, cs[minIdx]) <= SqDist(p, cs[i])
      invariant forall i :: 0 <= i < minIdx ==> SqDist(p, cs[minIdx]) < SqDist(p, cs[i])
    {
      var dist := SqDist(p, cs[j]);
      if Below(dist, minDist) {
        minDist := Some(dist);
        minIdx := j;
      }
      j := j + 1;
    }
    if |cs| > 0 {
      NearestIsFirstNearest(p, cs);
      KMeansFacts.FirstNearestUnique(p, cs, minIdx, Nearest(p, cs));
    }
  }

  /** The assignment step: one nearest-centroid scan per pixel. */
  method AssignPixels(pixels: seq<Rgb>, cs: seq<Rgb>) returns (labels: seq<nat>)
    ensures labels == Assign(pixels, cs)
  {
    labels := [];
    var i := 0;
    while i < |pixels|
      invariant 0 <= i <= |pixels|
      invariant |labels| == i
      invariant forall j :: 0 <= j < i ==> labels[j] == Nearest(pixels[j], cs)
    {
      var minIdx := NearestIndex(pixels[i], cs);
      labels := labels + [minIdx];
      i := i + 1;
    }
  }

  /**
   * The accumulation loop of the update step: sums and counts per cluster
   * in fresh tables.  A label with no centroid makes `newCentroids[idx]`
   * undefined, which throws; that is `None` here.
   */
  method TallyPixels(pixels: seq<Rgb>, labels: seq<nat>, classCount: nat)
    returns (r: Option<(seq<Rgb>, seq<nat>)>)
    requires |labels| == |pixels|
    ensures r.None? <==> !LabelsBelow(labels, classCount)
    ensures r.Some? ==> LabelsBelow(labels, classCount) && r.value == Tally(pixels, labels, classCount)
  {
    var sums := seq(classCount, _ => Black);
    var counts := seq(classCount, _ => 0);
    var i := 0;
    while i < |pixels|
      invariant 0 <= i <= |pixels|
      invariant LabelsBelow(labels[..i], classCount)
      invariant (sums, counts) == Tally(pixels[..i], labels[..i], classCount)
    {
      var idx := labels[i];
      if idx >= classCount {
        return None;
      }
      TallyStep(pixels, labels, classCount, i);
      sums := sums[idx := Add(sums[idx], pixels[i])];
      counts := counts[idx := counts[idx] + 1];
      i := i + 1;
    }
    assert pixels[..i] == pixels && labels[..i] == labels;
    return Some((sums, counts));
  }

  /** One more pixel in the accumulation pass adds it to its own cluster only. */
  lemma TallyStep(pixels: seq<Rgb>, labels: seq<nat>, classCount: nat, i: nat)
    requires |labels| == |pixels| && i < |pixels|
    requires LabelsBelow(labels[..i + 1], classCount)
    ensures LabelsBelow(labels[..i], classCount)
    ensures var (sums, counts) := Tally(pixels[..i], labels[..i], classCount);
      Tally(pixels[..i + 1], labels[..i + 1], classCount)
      == (sums[labels[i] := Add(sums[labels[i]], pixels[i])], counts[labels[i] := counts[labels[i]] + 1])
  {
    assert pixels[..i + 1][..i] == pixels[..i];
    assert labels[..i + 1][..i] == labels[..i];
  }

  /** The averaging loop: each cluster with members is divided by its count, the others stay as they are. */
  method DivideSums(sums: seq<Rgb>, counts: seq<nat>) returns (means: seq<Rgb>)
    requires |counts| == |sums|
    ensures |means| == |sums|
    ensures forall k :: 0 <= k < |sums| && counts[k] > 0 ==> means[k] == Divide(sums[k], counts[k])
    ensures forall k :: 0 <= k < |sums| && counts[k] == 0 ==> means[k] == sums[k]
  {
    means := sums;
    var c := 0;
    while c < |sums|
      invariant 0 <= c <= |sums|
      invariant |means| == |sums|
      invariant forall k :: 0 <= k < c && counts[k] > 0 ==> means[k] == Divide(sums[k], counts[k])
      invariant forall k :: 0 <= k < |sums| && (c <= k || counts[k] == 0) ==> means[k] == sums[k]
    {
      if counts[c] > 0 {
        means := means[c := Divide(sums[c], counts[c])];
      }
      c := c + 1;
    }
  }

  /** The update step: accumulate, then average; `None` when a label has no centroid. */
  method UpdateCentroids(pixels: seq<Rgb>, labels: seq<nat>, classCount: nat)
    returns (r: Option<seq<Rgb>>)
    requires |labels| == |pixels|
    ensures r.None? <==> !LabelsBelow(labels, classCount)
    ensures r.Some? ==> r.value == Update(pixels, labels, classCount)
  {
    var tally := TallyPixels(pixels, labels, classCount);
    if tally.None? {
      return None;
    }
    var (sums, counts) := tally.value;
    var means := DivideSums(sums, counts);
    forall k | 0 <= k < classCount && counts[k] == 0 ensures sums[k] == Black {
      assert |Members(pixels, labels, k)| == 0;
    }
    return Some(means);
  }

  /** The `grouped` table, built by one pass over the points. */
  method GroupPoints(points: seq<LabeledPoint>, classCount: nat) returns (grouped: seq<seq<Rgb>>)
    ensures grouped == Group(points, classCount)
  {
    grouped := seq(classCount, _ => []);
    var i := 0;
    while i < |points|
      invariant 0 <= i <= |points|
      invariant grouped == Group(points[..i], classCount)
    {
      var pt := points[i];
      assert points[..i + 1][..i] == points[..i];
      if 0 <= pt.classIndex < classCount {
        grouped := grouped[pt.classIndex := grouped[pt.classIndex] + [pt.rgb]];
      }
      i := i + 1;
    }
    assert points[..i] == points;
  }

  /** The seeding pass: classes with labelled colours start at their mean, the rest at Black. */
  method SeedCentroids(points: seq<LabeledPoint>, classCount: nat) returns (centroids: seq<Rgb>)
    ensures centroids == Seed(points, classCount)
  {
    var grouped := GroupPoints(points, classCount);
    centroids := seq(classCount, _ => Black);
    var c := 0;
    while c < classCount
      invariant 0 <= c <= classCount
      invariant |centroids| == classCount
      invariant forall k :: 0 <= k < c ==> centroids[k] == Seed(points, classCount)[k]
      invariant forall k :: c <= k < classCount ==> centroids[k] == Black
    {
      if |grouped[c]| > 0 {
        centroids := centroids[c := Mean(grouped[c])];
      }
      c := c + 1;
    }
  }

  /** One pass of the `for (iter ...)` loop body; `None` when the update throws. */
  method RunRound(pixels: seq<Rgb>, centroids: seq<Rgb>) returns (r: Option<Clustering>)
    ensures r.None? <==> |centroids| == 0 && |pixels| > 0
    ensures r.Some? ==> r.value == Round(pixels, centroids)
  {
    var roundLabels := AssignPixels(pixels, centroids);
    var updated := UpdateCentroids(pixels, roundLabels, |centroids|);
    if updated.None? {
      assert roundLabels[0] == 0;
      return None;
    }
    return Some(Clustering(Written(roundLabels), updated.value));
  }

  /**
   * The counter of the `for (iter = 0; iter < maxIter; iter++)` loop: it
   * ends after `maxIter` steps when `maxIter` is positive and at once
   * otherwise.
   */
  method IterationCount(maxIter: int) returns (iter: nat)
    ensures iter == Rounds(maxIter)
  {
    iter := 0;
    while iter < maxIter
      invariant iter <= Rounds(maxIter)
    {
      iter := iter + 1;
    }
  }

  /** The body of the `iter` loop, run `rounds` times; `None` when a round throws. */
  method RunRounds(pixels: seq<Rgb>, start: Clustering, rounds: nat) returns (r: Option<Clustering>)
    ensures r.None? <==> |start.centroids| == 0 && |pixels| > 0 && rounds > 0
    ensures r.Some? ==> r.value == Iterate(pixels, start, rounds)
  {
    var state := start;
    var iter := 0;
    while iter < rounds
      invariant iter <= rounds
      invariant iter > 0 ==> |start.centroids| > 0 || |pixels| == 0
      invariant state == Iterate(pixels, start, iter)
    {
      var next := RunRound(pixels, state.centroids);
      if next.None? {
        return None;
      }
      KMeansFacts.IterateStep(pixels, start, iter);
      state := next.value;
      iter := iter + 1;
    }
    return Some(state);
  }

  /** `kmeans` in `src/utils/kmeans.js`, loop by loop. */
  method RunKMeans(pixels: seq<Rgb>, points: seq<LabeledPoint>, classCount: int, maxIter: int)
    returns (r: Result<Clustering, KMeansError>)
    ensures r == Cluster(pixels, points, classCount, maxIter)
  {
    if classCount < 0 || classCount >= ArrayLengthLimit {
      return Failure(InvalidArrayLength);
    }
    var centroids := SeedCentroids(points, classCount);
    var start := Clustering(seq(|pixels|, _ => None), centroids);
    assert start == Start(pixels, points, classCount);
    var count := IterationCount(maxIter);
    var rounds := RunRounds(pixels, start, count);
    if rounds.None? {
      return Failure(MissingCentroid);
    }
    return Success(rounds.value);
  }
}
