/**
 * Colours in RGB space and the arithmetic the clustering does on them:
 * channel-wise sums, means and squared Euclidean distance.  Channels are
 * exact reals; the floating-point rounding of JavaScript is not modelled.
 */
module Color {

  /** A colour as three channels: red, green and blue. */
  datatype Rgb = Rgb(r: real, g: real, b: real)

  /** The colour (0,0,0) every fresh centroid starts from. */
  const Black := Rgb(0.0, 0.0, 0.0)

  /** True when every channel lies in [0, 255], as for a pixel read from an image. */
  predicate InCube(c: Rgb) {
    0.0 <= c.r <= 255.0 && 0.0 <= c.g <= 255.0 && 0.0 <= c.b <= 255.0
  }

  /** Channel-wise addition. */
  function Add(a: Rgb, b: Rgb): Rgb {
    Rgb(a.r + b.r, a.g + b.g, a.b + b.b)
  }

  /** Channel-wise division of an accumulated sum by a positive count. */
  function Divide(c: Rgb, n: nat): Rgb
    requires n > 0
  {
    Rgb(c.r / n as real, c.g / n as real, c.b / n as real)
  }

  /** Channel-wise sum, folded left from Black as `Array.prototype.reduce` does. */
  function Sum(s: seq<Rgb>): Rgb
  {
    if |s| == 0 then Black else Add(Sum(s[..|s| - 1]), s[|s| - 1])
  }

  /** Channel-wise arithmetic mean of a non-empty sequence of colours. */
  function Mean(s: seq<Rgb>): Rgb
    requires |s| > 0
  {
    Divide(Sum(s), |s|)
  }

  /** Each channel of the mean, times the number of colours, gives back the channel sum. */
  lemma MeanTimesCount(s: seq<Rgb>)
    requires |s| > 0
    ensures Mean(s).r * |s| as real == Sum(s).r
    ensures Mean(s).g * |s| as real == Sum(s).g
    ensures Mean(s).b * |s| as real == Sum(s).b
  {
  }

  /** The square of a real, which is never negative. */
  function Square(x: real): (y: real)
    ensures y >= 0.0
  {
    x * x
  }

  /** Squared Euclidean distance in RGB space. */
  function SqDist(p: Rgb, c: Rgb): (d: real)
    ensures d >= 0.0
  {
    Square(p.r - c.r) + Square(p.g - c.g) + Square(p.b - c.b)
  }

  /**
   * The source compares `Math.sqrt` of squared distances.  Square roots are
   * non-negative and strictly increasing, so comparing the roots `s` and `t`
   * gives the same answer as comparing their squares: the nearest centroid
   * does not change when the square root is dropped.
   */
  lemma SqrtKeepsOrder(s: real, t: real)
    requires 0.0 <= s && 0.0 <= t
    ensures s < t <==> s * s < t * t
  {
    if s < t {
      MulStrict(s, t);
    } else {
      MulMono(t, s);
    }
  }

  /** A helper for `SqrtKeepsOrder`: squaring is strictly increasing on [0, oo). */
  lemma MulStrict(s: real, t: real)
    requires 0.0 <= s < t
    ensures s * s < t * t
  {
    var st := s * t;
    assert s * s <= st;
    assert st < t * t;
  }

  /** A helper for `SqrtKeepsOrder`: squaring is increasing on [0, oo). */
  lemma MulMono(t: real, s: real)
    requires 0.0 <= t <= s
    ensures t * t <= s * s
  {
    assert t * t <= t * s;
    assert t * s <= s * s;
  }

  /** Appending a colour to a sequence adds it to the sum. */
  lemma SumSnoc(s: seq<Rgb>, c: Rgb)
    ensures Sum(s + [c]) == Add(Sum(s), c)
  {
    assert (s + [c])[..|s|] == s;
  }

  /** `SumSnoc` for every sequence and colour at once. */
  lemma SumSnocAll()
    ensures forall s: seq<Rgb>, c: Rgb :: Sum(s + [c]) == Add(Sum(s), c)
  {
    forall s: seq<Rgb>, c: Rgb ensures Sum(s + [c]) == Add(Sum(s), c) {
      SumSnoc(s, c);
    }
  }

  /** Every channel of a sum of cube colours lies between 0 and 255 times the count. */
  lemma {:induction false} SumBounds(s: seq<Rgb>)
    requires forall i :: 0 <= i < |s| ==> InCube(s[i])
    ensures 0.0 <= Sum(s).r <= 255.0 * |s| as real
    ensures 0.0 <= Sum(s).g <= 255.0 * |s| as real
    ensures 0.0 <= Sum(s).b <= 255.0 * |s| as real
  {
    if |s| > 0 {
      SumBounds(s[..|s| - 1]);
    }
  }

  /** The mean of colours inside the cube is inside the cube. */
  lemma MeanInCube(s: seq<Rgb>)
    requires |s| > 0
    requires forall i :: 0 <= i < |s| ==> InCube(s[i])
    ensures InCube(Mean(s))
  {
    SumBounds(s);
    var n := |s| as real;
    DivideBelow(Sum(s).r, n);
    DivideBelow(Sum(s).g, n);
    DivideBelow(Sum(s).b, n);
  }

  /** A helper for `MeanInCube`: 0 <= x <= 255n gives 0 <= x/n <= 255. */
  lemma DivideBelow(x: real, n: real)
    requires n > 0.0
    requires 0.0 <= x <= 255.0 * n
    ensures 0.0 <= x / n <= 255.0
  {
    assert x / n * n == x;
  }

  /** The sum of n copies of a colour is that colour scaled by n. */
  lemma {:induction false} SumOfCopies(c: Rgb, n: nat)
    ensures Sum(seq(n, _ => c)) == Rgb(n as real * c.r, n as real * c.g, n as real * c.b)
  {
    if n > 0 {
      var s := seq(n, _ => c);
      assert s[..n - 1] == seq(n - 1, _ => c);
      SumOfCopies(c, n - 1);
    }
  }

  /** The mean of n >= 1 copies of a colour is that colour. */
  lemma MeanOfCopies(c: Rgb, n: nat)
    requires n > 0
    ensures Mean(seq(n, _ => c)) == c
  {
    SumOfCopies(c, n);
  }
}
