/**
 * The summary statistics the trace scripts compute over lists of durations: Python's
 * `sum`, `min`, `max` and NumPy's `mean`, `var` and `std` (population variance), over
 * exact reals. Integer durations enter through `Reals`.
 */
module Statistics {
  import opened RealMath

  function Sum(s: seq<real>): real {
    if s == [] then 0.0 else Sum(s[..|s| - 1]) + s[|s| - 1]
  }

  /** `min` of a non-empty list: an element, and below every element. */
  function Min(s: seq<real>): (m: real)
    requires |s| > 0
    ensures m in s
    ensures forall i | 0 <= i < |s| :: m <= s[i]
  {
    if |s| == 1 then s[0]
    else
      var m := Min(s[..|s| - 1]);
      assert forall i | 0 <= i < |s| - 1 :: s[..|s| - 1][i] == s[i];
      if s[|s| - 1] < m then s[|s| - 1] else m
  }

  /** `max` of a non-empty list: an element, and above every element. */
  function Max(s: seq<real>): (m: real)
    requires |s| > 0
    ensures m in s
    ensures forall i | 0 <= i < |s| :: s[i] <= m
  {
    if |s| == 1 then s[0]
    else
      var m := Max(s[..|s| - 1]);
      assert forall i | 0 <= i < |s| - 1 :: s[..|s| - 1][i] == s[i];
      if s[|s| - 1] > m then s[|s| - 1] else m
  }

  /** A sum is at least `n * lo` when every term is at least lo. */
  lemma {:induction false} SumAtLeast(s: seq<real>, lo: real)
    requires forall i | 0 <= i < |s| :: lo <= s[i]
    ensures |s| as real * lo <= Sum(s)
  {
    if s != [] {
      assert forall i | 0 <= i < |s| - 1 :: s[..|s| - 1][i] == s[i];
      SumAtLeast(s[..|s| - 1], lo);
    }
  }

  /** A sum is at most `n * hi` when every term is at most hi. */
  lemma {:induction false} SumAtMost(s: seq<real>, hi: real)
    requires forall i | 0 <= i < |s| :: s[i] <= hi
    ensures Sum(s) <= |s| as real * hi
  {
    if s != [] {
      assert forall i | 0 <= i < |s| - 1 :: s[..|s| - 1][i] == s[i];
      SumAtMost(s[..|s| - 1], hi);
    }
  }

  /** m is the mean of s: n copies of it add up to the sum. */
  predicate IsMean(m: real, s: seq<real>) {
    m * |s| as real == Sum(s)
  }

  /** `sum(data) / n`, also NumPy's `mean`. */
  function Mean(s: seq<real>): (m: real)
    requires |s| > 0
    ensures IsMean(m, s)
  {
    Sum(s) / |s| as real
  }

  /** The mean lies between any lower and upper bound of the elements. */
  lemma MeanBetween(s: seq<real>, lo: real, hi: real)
    requires |s| > 0
    requires forall i | 0 <= i < |s| :: lo <= s[i] <= hi
    ensures lo <= Mean(s) <= hi
  {
    SumAtLeast(s, lo);
    SumAtMost(s, hi);
    var n := |s| as real;
    var m := Mean(s);
    assert m * n == Sum(s);
    assert (m - lo) * n >= 0.0 && (hi - m) * n >= 0.0;
  }

  /** min <= mean <= max. */
  lemma MeanBetweenMinAndMax(s: seq<real>)
    requires |s| > 0
    ensures Min(s) <= Mean(s) <= Max(s)
  {
    MeanBetween(s, Min(s), Max(s));
  }

  /** The sum of squared deviations from m, the numerator of every variance in the scripts. */
  function SquaredDeviations(s: seq<real>, m: real): (r: real)
    ensures r >= 0.0
  {
    if s == [] then 0.0
    else
      var d := s[|s| - 1] - m;
      SquaredDeviations(s[..|s| - 1], m) + d * d
  }

  /** Every element equal to m is the same as no deviation at all. */
  lemma {:induction false} NoDeviation(s: seq<real>, m: real)
    requires forall i | 0 <= i < |s| :: s[i] == m
    ensures SquaredDeviations(s, m) == 0.0
  {
    if s != [] {
      assert forall i | 0 <= i < |s| - 1 :: s[..|s| - 1][i] == s[i];
      NoDeviation(s[..|s| - 1], m);
    }
  }

  /** NumPy's `var`: the population variance, divisor n. */
  function PopulationVariance(s: seq<real>): (v: real)
    requires |s| > 0
    ensures v >= 0.0
  {
    SquaredDeviations(s, Mean(s)) / |s| as real
  }

  /** sd is a standard deviation for the variance: the non-negative number whose square it is. */
  predicate IsStdDev(sd: real, variance: real) {
    0.0 <= sd && sd * sd == variance
  }

  /** `math.sqrt` or `np.std`'s root of a variance. */
  function Root(variance: real, sqrt: real -> real): (sd: real)
    requires IsSqrt(sqrt) && 0.0 <= variance
    ensures IsStdDev(sd, variance)
  {
    sqrt(variance)
  }

  /** Python ints as floats, element by element. */
  function Reals(s: seq<int>): (r: seq<real>)
    ensures |r| == |s|
    ensures forall i | 0 <= i < |s| :: r[i] == s[i] as real
  {
    seq(|s|, i requires 0 <= i < |s| => s[i] as real)
  }
}
