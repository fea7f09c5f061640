/** The sample statistics behind the context selector's stopping rule. */
module Statistics {
  import opened Seqs

  function Sum(xs: seq<real>): real
  {
    if xs == [] then 0.0 else Sum(Init(xs)) + Last(xs)
  }

  function Mean(xs: seq<real>): real
    requires |xs| > 0
  {
    Sum(xs) / (|xs| as real)
  }

  function SquaredDeviations(xs: seq<real>, m: real): (r: real)
    ensures r >= 0.0
  {
    if xs == [] then 0.0
    else
      var d := Last(xs) - m;
      assert d * d >= 0.0;
      SquaredDeviations(Init(xs), m) + d * d
  }

  /** The sample variance (denominator n - 1), defined for two or more values;
      `statistics.stdev` is its square root. */
  function SampleVariance(xs: seq<real>): (v: real)
    requires |xs| >= 2
    ensures v >= 0.0
  {
    SquaredDeviations(xs, Mean(xs)) / ((|xs| - 1) as real)
  }

  lemma {:induction false} SumOfConstant(xs: seq<real>, c: real)
    requires forall i :: 0 <= i < |xs| ==> xs[i] == c
    ensures Sum(xs) == (|xs| as real) * c
  {
    if xs != [] {
      SumOfConstant(Init(xs), c);
    }
  }

  lemma {:induction false} SquaredDeviationsFromOwnValue(xs: seq<real>, c: real)
    requires forall i :: 0 <= i < |xs| ==> xs[i] == c
    ensures SquaredDeviations(xs, c) == 0.0
  {
    if xs != [] {
      SquaredDeviationsFromOwnValue(Init(xs), c);
    }
  }

  /** Equal values have no spread. */
  lemma ConstantHasZeroVariance(xs: seq<real>, c: real)
    requires |xs| >= 2
    requires forall i :: 0 <= i < |xs| ==> xs[i] == c
    ensures SampleVariance(xs) == 0.0
  {
    SumOfConstant(xs, c);
    var n := |xs| as real;
    assert Mean(xs) == (n * c) / n;
    assert (n * c) / n == c;
    SquaredDeviationsFromOwnValue(xs, c);
  }
}
