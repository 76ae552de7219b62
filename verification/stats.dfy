/** Summary statistics over millisecond samples: the console's `Average`, `Min` and `Max` helpers,
    which answer 0 for an empty array, and the filter that keeps the valid (non-negative) samples. */
module Stats {

  function Sum(xs: seq<int>): int {
    if |xs| == 0 then 0 else Sum(xs[..|xs| - 1]) + xs[|xs| - 1]
  }

  /** `Min(long[])`: the smallest sample, or 0 for none. */
  function Minimum(xs: seq<int>): (r: int)
    ensures |xs| == 0 ==> r == 0
    ensures |xs| > 0 ==> r in xs && forall i :: 0 <= i < |xs| ==> r <= xs[i]
  {
    if |xs| == 0 then 0
    else if |xs| == 1 then xs[0]
    else
      var m := Minimum(xs[..|xs| - 1]);
      assert forall i :: 0 <= i < |xs| - 1 ==> xs[..|xs| - 1][i] == xs[i];
      if xs[|xs| - 1] < m then xs[|xs| - 1] else m
  }

  /** `Max(long[])`: the largest sample, or 0 for none. */
  function Maximum(xs: seq<int>): (r: int)
    ensures |xs| == 0 ==> r == 0
    ensures |xs| > 0 ==> r in xs && forall i :: 0 <= i < |xs| ==> xs[i] <= r
  {
    if |xs| == 0 then 0
    else if |xs| == 1 then xs[0]
    else
      var m := Maximum(xs[..|xs| - 1]);
      assert forall i :: 0 <= i < |xs| - 1 ==> xs[..|xs| - 1][i] == xs[i];
      if xs[|xs| - 1] > m then xs[|xs| - 1] else m
  }

  /** `Average(long[])`: the arithmetic mean, or 0 for none. The source computes it in floating
      point; here it is the exact quotient. */
  function Average(xs: seq<int>): (r: real)
    ensures |xs| == 0 ==> r == 0.0
    ensures |xs| > 0 ==> Minimum(xs) as real <= r <= Maximum(xs) as real
  {
    if |xs| == 0 then 0.0
    else
      SumBetween(xs, Minimum(xs), Maximum(xs));
      QuotientBetween(Sum(xs), |xs|, Minimum(xs), Maximum(xs));
      Sum(xs) as real / |xs| as real
  }

  /** The average is the mean: times the number of samples it gives back their sum, and no
      other value does. */
  lemma AverageIsMean(xs: seq<int>, m: real)
    requires |xs| > 0
    ensures Average(xs) * (|xs| as real) == Sum(xs) as real
    ensures m * (|xs| as real) == Sum(xs) as real ==> m == Average(xs)
  {
    QuotientIsMean(Average(xs), Sum(xs) as real, |xs| as real, m);
  }

  /** A quotient times its divisor is the dividend, and it is the only such factor. */
  lemma QuotientIsMean(q: real, total: real, n: real, m: real)
    requires n > 0.0 && q == total / n
    ensures q * n == total
    ensures m * n == total ==> m == q
  {
  }

  /** Dividing a total that lies between n*lo and n*hi by n lands between lo and hi. */
  lemma QuotientBetween(total: int, n: int, lo: int, hi: int)
    requires n > 0 && n * lo <= total <= n * hi
    ensures lo as real <= total as real / n as real <= hi as real
  {
    var q := total as real / n as real;
    assert (q - lo as real) * n as real == total as real - (n * lo) as real;
    assert (hi as real - q) * n as real == (n * hi) as real - total as real;
  }

  /** A sum of samples that all lie in [lo, hi] lies between |xs|*lo and |xs|*hi. */
  lemma {:induction false} SumBetween(xs: seq<int>, lo: int, hi: int)
    requires forall i :: 0 <= i < |xs| ==> lo <= xs[i] <= hi
    ensures |xs| * lo <= Sum(xs) <= |xs| * hi
  {
    if |xs| > 0 {
      var init := xs[..|xs| - 1];
      assert forall i :: 0 <= i < |init| ==> init[i] == xs[i];
      SumBetween(init, lo, hi);
    }
  }

  /** `Array.FindAll(samples, m => m >= 0)`: the non-negative samples, in their order. */
  function ValidSamples(xs: seq<int>): (r: seq<int>)
    ensures |r| <= |xs|
    ensures forall i :: 0 <= i < |r| ==> r[i] >= 0 && r[i] in xs
    ensures forall i :: 0 <= i < |xs| && xs[i] >= 0 ==> xs[i] in r
  {
    if |xs| == 0 then []
    else
      var init := ValidSamples(xs[..|xs| - 1]);
      assert forall x :: x in xs[..|xs| - 1] ==> x in xs;
      if xs[|xs| - 1] >= 0 then init + [xs[|xs| - 1]] else init
  }

  /** The samples the filter drops: the negative ones, in their order. */
  function NegativeSamples(xs: seq<int>): (r: seq<int>)
    ensures forall i :: 0 <= i < |r| ==> r[i] < 0
  {
    if |xs| == 0 then []
    else NegativeSamples(xs[..|xs| - 1]) + (if xs[|xs| - 1] < 0 then [xs[|xs| - 1]] else [])
  }

  /** The filter loses nothing but the negative samples: kept and dropped together are the input. */
  lemma {:induction false} ValidSamplesPartition(xs: seq<int>)
    ensures multiset(ValidSamples(xs)) + multiset(NegativeSamples(xs)) == multiset(xs)
  {
    if |xs| > 0 {
      ValidSamplesPartition(xs[..|xs| - 1]);
      assert xs == xs[..|xs| - 1] + [xs[|xs| - 1]];
    }
  }
}
