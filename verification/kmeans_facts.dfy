/** Properties of the k-means model that relate several calls or fix concrete behaviour. */
module KMeansFacts {
  import opened Results
  import opened Color
  import opened KMeans

  // ---------------------------------------------------------------------
  // Assignment: the nearest centroid, lowest index on a tie
  // ---------------------------------------------------------------------

  /** At most one index is the first nearest centroid. */
  lemma FirstNearestUnique(p: Rgb, cs: seq<Rgb>, k1: int, k2: int)
    requires IsFirstNearest(p, cs, k1) && IsFirstNearest(p, cs, k2)
    ensures k1 == k2
  {
    var d1, d2 := SqDist(p, cs[k1]), SqDist(p, cs[k2]);
    assert d1 <= d2 && d2 <= d1;
    assert k1 < k2 ==> d2 < d1;
    assert k2 < k1 ==> d1 < d2;
  }

  /** The scan picks exactly the first nearest centroid, and nothing else. */
  lemma NearestIffFirstNearest(p: Rgb, cs: seq<Rgb>, k: int)
    requires |cs| > 0
    ensures Nearest(p, cs) == k <==> IsFirstNearest(p, cs, k)
  {
    NearestIsFirstNearest(p, cs);
    if IsFirstNearest(p, cs, k) {
      FirstNearestUnique(p, cs, k, Nearest(p, cs));
    }
  }

  /** A pixel exactly halfway between two centroids goes to the lower index. */
  lemma TieGoesToLowerIndex()
    ensures Nearest(Rgb(5.0, 5.0, 5.0), [Black, Rgb(10.0, 10.0, 10.0)]) == 0
  {
    var p := Rgb(5.0, 5.0, 5.0);
    var cs := [Black, Rgb(10.0, 10.0, 10.0)];
    assert SqDist(p, cs[0]) == SqDist(p, cs[1]) == 75.0;
    NearestIffFirstNearest(p, cs, 0);
  }

  /** Distinct colours are a positive squared distance apart. */
  lemma SqDistPositive(p: Rgb, c: Rgb)
    requires p != c
    ensures SqDist(p, c) > 0.0
  {
    if p.r != c.r {
      SquarePositive(p.r - c.r);
    } else if p.g != c.g {
      SquarePositive(p.g - c.g);
    } else {
      SquarePositive(p.b - c.b);
    }
  }

  /** A helper for `SqDistPositive`: a non-zero real has a positive square. */
  lemma SquarePositive(x: real)
    requires x != 0.0
    ensures Square(x) > 0.0
  {
    if x < 0.0 {
      MulStrict(0.0, -x);
      assert x * x == (-x) * (-x);
    } else {
      MulStrict(0.0, x);
    }
  }

  // ---------------------------------------------------------------------
  // Rounds: exactly the requested number, no early exit
  // ---------------------------------------------------------------------

  /** One more round is one more assignment-and-update after the previous rounds. */
  lemma {:induction false} IterateStep(pixels: seq<Rgb>, st: Clustering, n: nat)
    requires |st.centroids| > 0 || |pixels| == 0
    ensures Iterate(pixels, st, n + 1) == Round(pixels, Iterate(pixels, st, n).centroids)
    decreases n
  {
    if n > 0 {
      IterateStep(pixels, Round(pixels, st.centroids), n - 1);
    }
  }

  /** Running `a` rounds and then `b` more is running `a + b` rounds. */
  lemma {:induction false} IterateAdd(pixels: seq<Rgb>, st: Clustering, a: nat, b: nat)
    requires |st.centroids| > 0 || |pixels| == 0
    ensures Iterate(pixels, st, a + b) == Iterate(pixels, Iterate(pixels, st, a), b)
    decreases a
  {
    if a > 0 {
      IterateAdd(pixels, Round(pixels, st.centroids), a - 1, b);
    }
  }

  /** The centroids the rounds before the last one leave behind. */
  function Previous(pixels: seq<Rgb>, points: seq<LabeledPoint>, classCount: nat, maxIter: int): (cs: seq<Rgb>)
    requires 0 < classCount < ArrayLengthLimit && maxIter > 0
    ensures |cs| == classCount
  {
    Iterate(pixels, Start(pixels, points, classCount), maxIter - 1).centroids
  }

  /**
   * A run with at least one round ends with the last round applied to the
   * centroids the earlier rounds left.
   */
  lemma ClusterEndsWithRound(pixels: seq<Rgb>, points: seq<LabeledPoint>, classCount: int, maxIter: int)
    requires 0 < classCount < ArrayLengthLimit && maxIter > 0
    ensures Cluster(pixels, points, classCount, maxIter)
         == Success(Round(pixels, Previous(pixels, points, classCount, maxIter)))
  {
    var st := Start(pixels, points, classCount);
    var n: nat := maxIter - 1;
    IterateStep(pixels, st, n);
    assert Rounds(maxIter) == n + 1;
  }

  /**
   * Every returned label names the first nearest of the centroids entering
   * the last round (not of the returned centroids), and every returned
   * centroid is the mean of the pixels carrying its label, or Black if none.
   */
  lemma ClusterLabelsAndCentroids(pixels: seq<Rgb>, points: seq<LabeledPoint>, classCount: int, maxIter: int)
    requires 0 < classCount < ArrayLengthLimit && maxIter > 0
    ensures var r := Cluster(pixels, points, classCount, maxIter);
      var prev := Previous(pixels, points, classCount, maxIter);
      && r.Success?
      && (forall i :: 0 <= i < |pixels| ==>
            r.value.labels[i] == Some(Nearest(pixels[i], prev)) && IsFirstNearest(pixels[i], prev, Nearest(pixels[i], prev)))
      && (forall k :: 0 <= k < classCount ==>
            var m := Members(pixels, Assign(pixels, prev), k);
            r.value.centroids[k] == if |m| > 0 then Mean(m) else Black)
  {
    ClusterEndsWithRound(pixels, points, classCount, maxIter);
    AssignIsFirstNearest(pixels, Previous(pixels, points, classCount, maxIter));
  }

  // ---------------------------------------------------------------------
  // Seeding and invalid points
  // ---------------------------------------------------------------------

  /** Dropping out-of-range points does not change any class's colours. */
  lemma {:induction false} ColoursOfValidPoints(points: seq<LabeledPoint>, classCount: int, k: int)
    requires 0 <= k < classCount
    ensures ColoursOf(ValidPoints(points, classCount), k) == ColoursOf(points, k)
  {
    if |points| > 0 {
      var n := |points| - 1;
      ColoursOfValidPoints(points[..n], classCount, k);
      var v := ValidPoints(points[..n], classCount);
      if InRange(points[n], classCount) {
        assert (v + [points[n]])[..|v|] == v;
      }
    }
  }

  /** The seeds ignore out-of-range points. */
  lemma SeedIgnoresInvalidPoints(points: seq<LabeledPoint>, classCount: nat)
    ensures Seed(ValidPoints(points, classCount), classCount) == Seed(points, classCount)
  {
    forall k | 0 <= k < classCount {
      ColoursOfValidPoints(points, classCount, k);
    }
  }

  /** The whole run with out-of-range points equals the run with them removed. */
  lemma ClusterIgnoresInvalidPoints(pixels: seq<Rgb>, points: seq<LabeledPoint>, classCount: int, maxIter: int)
    ensures Cluster(pixels, points, classCount, maxIter)
         == Cluster(pixels, ValidPoints(points, classCount), classCount, maxIter)
  {
    if classCount >= 0 {
      SeedIgnoresInvalidPoints(points, classCount);
    }
  }

  /** A single point naming the class one past the last one behaves like no point at all. */
  lemma OutOfRangePointIsDropped(pixels: seq<Rgb>, c: Rgb, classCount: int, maxIter: int)
    ensures Cluster(pixels, [LabeledPoint(c, classCount)], classCount, maxIter)
         == Cluster(pixels, [], classCount, maxIter)
  {
    ClusterIgnoresInvalidPoints(pixels, [LabeledPoint(c, classCount)], classCount, maxIter);
    assert ValidPoints([LabeledPoint(c, classCount)], classCount) == [];
  }

  /** Two points labelled with the same class give that class exactly their two colours. */
  lemma ColoursOfTwo(a: Rgb, b: Rgb, k: int)
    ensures ColoursOf([LabeledPoint(a, k), LabeledPoint(b, k)], k) == [a, b]
  {
    var points := [LabeledPoint(a, k), LabeledPoint(b, k)];
    assert points[..1] == [LabeledPoint(a, k)];
    assert [LabeledPoint(a, k)][..0] == [];
    assert ColoursOf([LabeledPoint(a, k)], k) == [a];
  }

  /** The mean of two colours is their channel-wise midpoint. */
  lemma MeanOfTwo(a: Rgb, b: Rgb)
    ensures Mean([a, b]) == Rgb((a.r + b.r) / 2.0, (a.g + b.g) / 2.0, (a.b + b.b) / 2.0)
  {
    assert [a, b][..1] == [a];
    assert [a][..0] == [];
    assert Sum([a]) == a;
    assert Sum([a, b]) == Add(a, b);
  }

  /** Two points (10,10,10) and (20,20,20) of class 0 seed it at (15,15,15). */
  lemma SeedAveragesLabelledColours()
    ensures Seed([LabeledPoint(Rgb(10.0, 10.0, 10.0), 0), LabeledPoint(Rgb(20.0, 20.0, 20.0), 0)], 1)
         == [Rgb(15.0, 15.0, 15.0)]
  {
    var a, b := Rgb(10.0, 10.0, 10.0), Rgb(20.0, 20.0, 20.0);
    ColoursOfTwo(a, b, 0);
    MeanOfTwo(a, b);
  }

  // ---------------------------------------------------------------------
  // Empty clusters
  // ---------------------------------------------------------------------

  /** A cluster no label names has no members. */
  lemma {:induction false} MembersOfUnusedLabel(pixels: seq<Rgb>, labels: seq<nat>, k: nat)
    requires |labels| == |pixels|
    requires forall i :: 0 <= i < |labels| ==> labels[i] != k
    ensures Members(pixels, labels, k) == []
  {
    if |pixels| > 0 {
      MembersOfUnusedLabel(pixels[..|pixels| - 1], labels[..|labels| - 1], k);
    }
  }

  /**
   * A centroid that is nearest to no pixel is reset to Black by the round,
   * whatever its previous position: the update does not keep it.
   */
  lemma UnclaimedCentroidIsReset(pixels: seq<Rgb>, cs: seq<Rgb>, k: nat)
    requires k < |cs|
    requires forall i :: 0 <= i < |pixels| ==> Nearest(pixels[i], cs) != k
    ensures Round(pixels, cs).centroids[k] == Black
  {
    MembersOfUnusedLabel(pixels, Assign(pixels, cs), k);
  }

  /**
   * With a single pixel sitting on centroid 0 and a second centroid
   * elsewhere, the second centroid wins nothing and the round moves it to
   * Black, while centroid 0 stays on the pixel.
   */
  lemma FarCentroidIsReset(p: Rgb, far: Rgb)
    requires far != p
    ensures Round([p], [p, far]).centroids == [p, Black]
  {
    var cs := [p, far];
    SqDistPositive(p, far);
    assert SqDist(p, p) == 0.0;
    assert IsFirstNearest(p, cs, 0);
    NearestIffFirstNearest(p, cs, 0);
    UnclaimedCentroidIsReset([p], cs, 1);
    var labels := Assign([p], cs);
    assert labels == [0];
    assert [p][..0] == [] && labels[..0] == [];
    assert Members([p], labels, 0) == [p];
    MeanOfCopies(p, 1);
    assert [p] == seq(1, _ => p);
  }

  // ---------------------------------------------------------------------
  // Centroids stay colours
  // ---------------------------------------------------------------------

  /** True when every colour of the sequence lies in the RGB cube. */
  predicate AllInCube(s: seq<Rgb>) {
    forall i :: 0 <= i < |s| ==> InCube(s[i])
  }

  /** The colours of a class come from the points, so they lie in the cube when the points do. */
  lemma {:induction false} ColoursOfInCube(points: seq<LabeledPoint>, k: int)
    requires forall i :: 0 <= i < |points| ==> InCube(points[i].rgb)
    ensures AllInCube(ColoursOf(points, k))
  {
    if |points| > 0 {
      ColoursOfInCube(points[..|points| - 1], k);
    }
  }

  /** Seeds are colours when the labelled points are. */
  lemma SeedInCube(points: seq<LabeledPoint>, classCount: nat)
    requires forall i :: 0 <= i < |points| ==> InCube(points[i].rgb)
    ensures AllInCube(Seed(points, classCount))
  {
    forall k | 0 <= k < classCount
      ensures InCube(Seed(points, classCount)[k])
    {
      ColoursOfInCube(points, k);
      if |ColoursOf(points, k)| > 0 {
        MeanInCube(ColoursOf(points, k));
      }
    }
  }

  /** A round keeps the centroids in the cube when the pixels are in it. */
  lemma RoundInCube(pixels: seq<Rgb>, cs: seq<Rgb>)
    requires |cs| > 0 || |pixels| == 0
    requires AllInCube(pixels)
    ensures AllInCube(Round(pixels, cs).centroids)
  {
    var labels := Assign(pixels, cs);
    forall k | 0 <= k < |cs|
      ensures InCube(Round(pixels, cs).centroids[k])
    {
      var m := Members(pixels, labels, k);
      if |m| > 0 {
        forall j | 0 <= j < |m| ensures InCube(m[j]) {
          assert m[j] in pixels;
        }
        MeanInCube(m);
      }
    }
  }

  /** However many rounds run, the centroids stay in the cube. */
  lemma {:induction false} IterateInCube(pixels: seq<Rgb>, st: Clustering, n: nat)
    requires n > 0 ==> |st.centroids| > 0 || |pixels| == 0
    requires AllInCube(pixels) && AllInCube(st.centroids)
    ensures AllInCube(Iterate(pixels, st, n).centroids)
    decreases n
  {
    if n > 0 {
      RoundInCube(pixels, st.centroids);
      IterateInCube(pixels, Round(pixels, st.centroids), n - 1);
    }
  }

  /** Every centroid the algorithm returns is a colour when its inputs are colours. */
  lemma ClusterCentroidsInCube(pixels: seq<Rgb>, points: seq<LabeledPoint>, classCount: int, maxIter: int)
    requires AllInCube(pixels)
    requires forall i :: 0 <= i < |points| ==> InCube(points[i].rgb)
    requires Cluster(pixels, points, classCount, maxIter).Success?
    ensures AllInCube(Cluster(pixels, points, classCount, maxIter).value.centroids)
  {
    SeedInCube(points, classCount);
    IterateInCube(pixels, Start(pixels, points, classCount), Rounds(maxIter));
  }

  // ---------------------------------------------------------------------
  // Stable clusterings
  // ---------------------------------------------------------------------

  /** No two centroids coincide. */
  predicate Distinct(cs: seq<Rgb>) {
    forall i, j :: 0 <= i < j < |cs| ==> cs[i] != cs[j]
  }

  /** A pixel lying exactly on a centroid is assigned to it when the centroids are distinct. */
  lemma PixelOnCentroid(p: Rgb, cs: seq<Rgb>, k: nat)
    requires Distinct(cs) && k < |cs| && cs[k] == p
    ensures Nearest(p, cs) == k
  {
    assert SqDist(p, p) == 0.0;
    forall j | 0 <= j < k ensures SqDist(p, cs[k]) < SqDist(p, cs[j]) {
      SqDistPositive(p, cs[j]);
    }
    assert IsFirstNearest(p, cs, k);
    NearestIffFirstNearest(p, cs, k);
  }

  /** When every pixel labelled `k` is `c`, every member of cluster `k` is `c`. */
  lemma {:induction false} MembersAllEqual(pixels: seq<Rgb>, labels: seq<nat>, k: nat, c: Rgb)
    requires |labels| == |pixels|
    requires forall i :: 0 <= i < |pixels| && labels[i] == k ==> pixels[i] == c
    ensures forall j :: 0 <= j < |Members(pixels, labels, k)| ==> Members(pixels, labels, k)[j] == c
  {
    if |pixels| > 0 {
      var n := |pixels| - 1;
      MembersAllEqual(pixels[..n], labels[..n], k, c);
    }
  }

  /** A cluster some pixel is labelled with has members. */
  lemma {:induction false} MembersOfUsedLabel(pixels: seq<Rgb>, labels: seq<nat>, k: nat, i: nat)
    requires |labels| == |pixels| && i < |pixels| && labels[i] == k
    ensures |Members(pixels, labels, k)| > 0
  {
    var n := |pixels| - 1;
    if i < n {
      MembersOfUsedLabel(pixels[..n], labels[..n], k, i);
    }
  }

  /** The mean of a sequence holding one colour throughout is that colour. */
  lemma MeanOfConstant(s: seq<Rgb>, c: Rgb)
    requires |s| > 0
    requires forall j :: 0 <= j < |s| ==> s[j] == c
    ensures Mean(s) == c
  {
    assert s == seq(|s|, _ => c);
    MeanOfCopies(c, |s|);
  }

  /**
   * True when the pixels take exactly the colours of the centroids:
   * `owner[i]` is a centroid equal to pixel `i`, and `sample[k]` a pixel
   * equal to centroid `k`.
   */
  predicate SitsOn(pixels: seq<Rgb>, cs: seq<Rgb>, owner: seq<nat>, sample: seq<nat>) {
    && |owner| == |pixels| && |sample| == |cs|
    && (forall i {:trigger owner[i]} :: 0 <= i < |pixels| ==> owner[i] < |cs| && cs[owner[i]] == pixels[i])
    && (forall k {:trigger sample[k]} :: 0 <= k < |cs| ==> sample[k] < |pixels| && pixels[sample[k]] == cs[k])
  }

  /** On distinct centroids the pixels sit on, each pixel is assigned the centroid equal to it. */
  lemma AssignOnCentroids(pixels: seq<Rgb>, cs: seq<Rgb>, owner: seq<nat>, sample: seq<nat>)
    requires Distinct(cs) && SitsOn(pixels, cs, owner, sample)
    ensures Assign(pixels, cs) == owner
  {
    forall i | 0 <= i < |pixels| ensures Assign(pixels, cs)[i] == owner[i] {
      PixelOnCentroid(pixels[i], cs, owner[i]);
    }
  }

  /** On distinct centroids the pixels sit on, the mean of cluster `k` is centroid `k`. */
  lemma CentroidStays(pixels: seq<Rgb>, cs: seq<Rgb>, owner: seq<nat>, sample: seq<nat>, k: nat)
    requires Distinct(cs) && SitsOn(pixels, cs, owner, sample) && k < |cs|
    ensures var m := Members(pixels, owner, k); |m| > 0 && Mean(m) == cs[k]
  {
    var i := sample[k];
    assert cs[owner[i]] == cs[k];
    MembersOfUsedLabel(pixels, owner, k, i);
    MembersAllEqual(pixels, owner, k, cs[k]);
    MeanOfConstant(Members(pixels, owner, k), cs[k]);
  }

  /**
   * Distinct centroids that the pixels sit exactly on are a fixed point of
   * a round: each pixel is labelled with the centroid equal to it and each
   * centroid is the mean of copies of itself.
   */
  lemma RoundFixedPoint(pixels: seq<Rgb>, cs: seq<Rgb>, owner: seq<nat>, sample: seq<nat>)
    requires |cs| > 0 && Distinct(cs) && SitsOn(pixels, cs, owner, sample)
    ensures Round(pixels, cs) == Clustering(Written(owner), cs)
  {
    AssignOnCentroids(pixels, cs, owner, sample);
    forall k | 0 <= k < |cs| ensures Round(pixels, cs).centroids[k] == cs[k] {
      CentroidStays(pixels, cs, owner, sample, k);
    }
  }

  /** From a fixed point, any positive number of rounds returns the same clustering. */
  lemma {:induction false} IterateFixedPoint(pixels: seq<Rgb>, st: Clustering, owner: seq<nat>, sample: seq<nat>, n: nat)
    requires |st.centroids| > 0 && Distinct(st.centroids) && SitsOn(pixels, st.centroids, owner, sample)
    ensures n > 0 ==> Iterate(pixels, st, n) == Clustering(Written(owner), st.centroids)
    decreases n
  {
    if n > 0 {
      RoundFixedPoint(pixels, st.centroids, owner, sample);
      IterateFixedPoint(pixels, Round(pixels, st.centroids), owner, sample, n - 1);
    }
  }

  /**
   * When the seeds are distinct and the image consists exactly of the seed
   * colours, every run keeps the seeds and labels each pixel with the class
   * whose seed it equals.
   */
  lemma ClusterFromExactSeeds(pixels: seq<Rgb>, points: seq<LabeledPoint>, classCount: nat, maxIter: int,
                              owner: seq<nat>, sample: seq<nat>)
    requires 0 < classCount < ArrayLengthLimit && maxIter > 0
    requires Distinct(Seed(points, classCount)) && SitsOn(pixels, Seed(points, classCount), owner, sample)
    ensures Cluster(pixels, points, classCount, maxIter)
         == Success(Clustering(Written(owner), Seed(points, classCount)))
  {
    IterateFixedPoint(pixels, Start(pixels, points, classCount), owner, sample, maxIter);
  }

  /** `n` copies of `x`. */
  function Repeat<T>(n: nat, x: T): (s: seq<T>)
    ensures |s| == n && forall i :: 0 <= i < n ==> s[i] == x
  {
    seq(n, _ => x)
  }

  /**
   * A two-tone image: `n` pixels of colour `a` then `m` of colour `b`, one
   * point labelling `a` as class 0 and one labelling `b` as class 1.  Any
   * number of rounds labels the first `n` pixels 0 and the rest 1, and
   * returns the centroids `a` and `b`.
   */
  lemma TwoToneImage(a: Rgb, b: Rgb, n: nat, m: nat, maxIter: int)
    requires a != b && n > 0 && m > 0 && maxIter > 0
    ensures Cluster(Repeat(n, a) + Repeat(m, b), [LabeledPoint(a, 0), LabeledPoint(b, 1)], 2, maxIter)
         == Success(Clustering(Repeat<Option<nat>>(n, Some(0)) + Repeat<Option<nat>>(m, Some(1)), [a, b]))
  {
    var pixels := Repeat(n, a) + Repeat(m, b);
    var points := [LabeledPoint(a, 0), LabeledPoint(b, 1)];
    var owner := Repeat<nat>(n, 0) + Repeat<nat>(m, 1);
    SeedOfTwoClasses(a, b);
    TwoToneSitsOn(a, b, n, m);
    ClusterFromExactSeeds(pixels, points, 2, maxIter, owner, [0, n]);
    TwoToneLabels(n, m);
  }

  /** The two-tone image sits exactly on the centroids `a` and `b`. */
  lemma TwoToneSitsOn(a: Rgb, b: Rgb, n: nat, m: nat)
    requires a != b && n > 0 && m > 0
    ensures Distinct([a, b])
    ensures SitsOn(Repeat(n, a) + Repeat(m, b), [a, b], Repeat<nat>(n, 0) + Repeat<nat>(m, 1), [0, n])
  {
  }

  /** Writing the owners of the two-tone image gives `n` labels 0 then `m` labels 1. */
  lemma TwoToneLabels(n: nat, m: nat)
    ensures Written(Repeat<nat>(n, 0) + Repeat<nat>(m, 1)) == Repeat<Option<nat>>(n, Some(0)) + Repeat<Option<nat>>(m, Some(1))
  {
  }

  /** One point per class seeds each class at its point's colour. */
  lemma SeedOfTwoClasses(a: Rgb, b: Rgb)
    ensures Seed([LabeledPoint(a, 0), LabeledPoint(b, 1)], 2) == [a, b]
  {
    var points := [LabeledPoint(a, 0), LabeledPoint(b, 1)];
    assert points[..1] == [LabeledPoint(a, 0)];
    assert [LabeledPoint(a, 0)][..0] == [];
    assert ColoursOf([LabeledPoint(a, 0)], 0) == [a];
    assert ColoursOf([LabeledPoint(a, 0)], 1) == [];
    assert ColoursOf(points, 0) == [a];
    assert ColoursOf(points, 1) == [b];
    MeanOfCopies(a, 1);
    MeanOfCopies(b, 1);
    assert [a] == seq(1, _ => a) && [b] == seq(1, _ => b);
  }
}
