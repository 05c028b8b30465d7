/**
  The statistics the dashboard reports per group: count, sum, mean, minimum and maximum of the
  `Sample Avg Value` column. Values are exact reals, so mean = sum / count holds exactly.
*/
module Stats {

  /** Sum of the values, accumulated from the front (the last value is added last). */
  function Sum(xs: seq<real>): real
  {
    if xs == [] then 0.0 else Sum(xs[..|xs| - 1]) + xs[|xs| - 1]
  }

  function Min(xs: seq<real>): real
    requires xs != []
  {
    if |xs| == 1 then xs[0]
    else
      var m := Min(xs[..|xs| - 1]);
      if xs[|xs| - 1] < m then xs[|xs| - 1] else m
  }

  function Max(xs: seq<real>): real
    requires xs != []
  {
    if |xs| == 1 then xs[0]
    else
      var m := Max(xs[..|xs| - 1]);
      if xs[|xs| - 1] > m then xs[|xs| - 1] else m
  }

  /** The minimum and the maximum are values of the group, and bound every value of it. */
  lemma {:induction false} MinMaxBound(xs: seq<real>)
    requires xs != []
    ensures Min(xs) in xs && Max(xs) in xs
    ensures forall i :: 0 <= i < |xs| ==> Min(xs) <= xs[i] <= Max(xs)
  {
    if |xs| > 1 {
      var init := xs[..|xs| - 1];
      MinMaxBound(init);
      assert forall i :: 0 <= i < |init| ==> init[i] == xs[i];
    }
  }

  /** The arithmetic mean (pandas `mean`), defined only for a non-empty group. */
  function Mean(xs: seq<real>): real
    requires xs != []
  {
    Sum(xs) / (|xs| as real)
  }

  /** The sum of n values lies between n times their minimum and n times their maximum. */
  lemma {:induction false} SumBetween(xs: seq<real>)
    requires xs != []
    ensures (|xs| as real) * Min(xs) <= Sum(xs) <= (|xs| as real) * Max(xs)
  {
    var init, last := xs[..|xs| - 1], xs[|xs| - 1];
    assert Sum(xs) == Sum(init) + last;
    if |xs| == 1 {
      assert init == [];
    } else {
      SumBetween(init);
      var n := |init| as real;
      assert |xs| as real == n + 1.0;
      ExtendLower(n, Min(xs), Min(init), Sum(init), last);
      ExtendUpper(n, Max(xs), Max(init), Sum(init), last);
    }
  }

  /** One inductive step of the lower bound, on plain numbers. */
  lemma ExtendLower(n: real, lo: real, oldLo: real, s: real, v: real)
    requires n >= 0.0 && n * oldLo <= s && lo <= oldLo && lo <= v
    ensures (n + 1.0) * lo <= s + v
  {
    ScaleMonotone(n, lo, oldLo);
  }

  /** One inductive step of the upper bound, on plain numbers. */
  lemma ExtendUpper(n: real, hi: real, oldHi: real, s: real, v: real)
    requires n >= 0.0 && s <= n * oldHi && oldHi <= hi && v <= hi
    ensures s + v <= (n + 1.0) * hi
  {
    ScaleMonotone(n, oldHi, hi);
  }

  lemma ScaleMonotone(n: real, a: real, b: real)
    requires n >= 0.0 && a <= b
    ensures n * a <= n * b
  {
    assert n * b - n * a == n * (b - a);
  }

  lemma DivideBounds(s: real, n: real, a: real, b: real)
    requires n > 0.0 && n * a <= s <= n * b
    ensures a <= s / n <= b
  {
    var q := s / n;
    assert s == n * q;
    assert n * (q - a) == s - n * a;
    assert n * (b - q) == n * b - s;
  }

  /** min <= avg <= max for every group. */
  lemma MeanBetween(xs: seq<real>)
    requires xs != []
    ensures Min(xs) <= Mean(xs) <= Max(xs)
  {
    SumBetween(xs);
    DivideBounds(Sum(xs), |xs| as real, Min(xs), Max(xs));
  }
}
