/** Arithmetic means over exact reals: `Series.mean()` and main.py's `rate`,
    and `max` as `np.nanmax` computes it over a non-empty column. */
module Stats {
  import opened Results

  function Sum(xs: seq<real>): real
  {
    if xs == [] then 0.0 else Sum(xs[..|xs| - 1]) + xs[|xs| - 1]
  }

  /** Every value is 0 or 1: an outcome column after main.py's filter. */
  predicate Binary(xs: seq<real>)
  {
    forall i :: 0 <= i < |xs| ==> xs[i] == 0.0 || xs[i] == 1.0
  }

  /** How many entries are exactly 1. */
  function CountOnes(xs: seq<real>): nat
  {
    if xs == [] then 0 else CountOnes(xs[..|xs| - 1]) + (if xs[|xs| - 1] == 1.0 then 1 else 0)
  }

  lemma {:induction false} BinarySumCountsOnes(xs: seq<real>)
    requires Binary(xs)
    ensures Sum(xs) == CountOnes(xs) as real
    ensures CountOnes(xs) <= |xs|
  {
    if xs != [] {
      BinarySumCountsOnes(xs[..|xs| - 1]);
    }
  }

  /** `Series.mean()` of a series without NaN. */
  function Average(xs: seq<real>): real
    requires xs != []
  {
    Sum(xs) / |xs| as real
  }

  lemma FractionBounds(a: nat, n: nat)
    requires 0 < n && a <= n
    ensures 0.0 <= a as real / n as real <= 1.0
  {
    assert a as real <= n as real;
  }

  /** The mean of a 0/1 series is the share of ones, so it lies in [0, 1]. */
  lemma AverageOfBinary(xs: seq<real>)
    requires Binary(xs) && xs != []
    ensures Average(xs) == CountOnes(xs) as real / |xs| as real
    ensures 0.0 <= Average(xs) <= 1.0
  {
    BinarySumCountsOnes(xs);
    FractionBounds(CountOnes(xs), |xs|);
  }

  /** main.py's `rate`: 100 times the mean, or NaN (`None`) for an empty series. */
  function Rate(xs: seq<real>): (r: Option<real>)
    ensures r.None? <==> xs == []
  {
    if xs == [] then None else Some(100.0 * Average(xs))
  }

  /** The rate of a non-empty 0/1 series is 100 × (number of ones) / length,
      a percentage in [0, 100]. */
  lemma RateIsPercentOfOnes(xs: seq<real>)
    requires Binary(xs) && xs != []
    ensures Rate(xs) == Some(100.0 * (CountOnes(xs) as real / |xs| as real))
    ensures 0.0 <= Rate(xs).value <= 100.0
  {
    AverageOfBinary(xs);
  }

  /** `np.nanmax` of a column whose NaN were dropped. */
  function Max(xs: seq<real>): (m: real)
    requires xs != []
    ensures m in xs
    ensures forall i :: 0 <= i < |xs| ==> xs[i] <= m
  {
    if |xs| == 1 then xs[0]
    else
      var m := Max(xs[..|xs| - 1]);
      assert xs[..|xs| - 1][|xs| - 2] == xs[|xs| - 2];
      if xs[|xs| - 1] > m then xs[|xs| - 1] else m
  }
}
