/**
 * Descriptive statistics over the inter-tap intervals of one session:
 * intervals, mean, population variance, percentage deviations and their
 * mean square. Arithmetic is over mathematical reals; a standard deviation
 * is stated through its square, so no square root appears.
 */
module Stats {

  /** Sum of a sequence, as `reduce((a, b) => a + b, 0)` computes it. */
  function Sum(xs: seq<real>): real
  {
    if xs == [] then 0.0 else xs[0] + Sum(xs[1..])
  }

  /** Timestamps never go backwards. */
  predicate NonDecreasing(ts: seq<real>)
  {
    forall i :: 0 <= i < |ts| - 1 ==> ts[i] <= ts[i + 1]
  }

  /** Every element equals the first one. */
  predicate Constant(xs: seq<real>)
  {
    forall i :: 0 <= i < |xs| ==> xs[i] == xs[0]
  }

  /** Differences between consecutive timestamps; none for fewer than two. */
  function Intervals(ts: seq<real>): (r: seq<real>)
    ensures |r| == if |ts| < 2 then 0 else |ts| - 1
    ensures forall i :: 0 <= i < |r| ==> r[i] == ts[i + 1] - ts[i]
  {
    if |ts| < 2 then [] else [ts[1] - ts[0]] + Intervals(ts[1..])
  }

  /** Arithmetic mean. */
  function Mean(xs: seq<real>): real
    requires |xs| > 0
  {
    Sum(xs) / (|xs| as real)
  }

  /** `Math.pow(x, 2)`. */
  function Square(x: real): real
  {
    x * x
  }

  /** One interval as a percentage deviation from the mean m: `((x - m) / m) * 100`. */
  function PercentDeviation(x: real, m: real): real
    requires m != 0.0
  {
    (x - m) / m * 100.0
  }

  /** `(x - m)^2` for every element x. */
  function SquaredDeviations(xs: seq<real>, m: real): (r: seq<real>)
    ensures |r| == |xs|
  {
    if xs == [] then [] else [Square(xs[0] - m)] + SquaredDeviations(xs[1..], m)
  }

  /** Population variance (divides by the number of elements): the square of stdDevMs. */
  function Variance(xs: seq<real>): real
    requires |xs| > 0
  {
    Sum(SquaredDeviations(xs, Mean(xs))) / (|xs| as real)
  }

  /** Every element as a percentage deviation from m. */
  function PercentDeviations(xs: seq<real>, m: real): (r: seq<real>)
    requires m != 0.0
    ensures |r| == |xs|
  {
    if xs == [] then [] else [PercentDeviation(xs[0], m)] + PercentDeviations(xs[1..], m)
  }

  /** `x^2` for every element x. */
  function Squares(ds: seq<real>): (r: seq<real>)
    ensures |r| == |ds|
  {
    if ds == [] then [] else [Square(ds[0])] + Squares(ds[1..])
  }

  /** Mean of the squares: the square of the RMS that the analysis reports as stdDevPercent. */
  function MeanSquare(ds: seq<real>): real
    requires |ds| > 0
  {
    Sum(Squares(ds)) / (|ds| as real)
  }

  /**
   * How the two spreads relate for a mean m: the squared percentage
   * deviation times m^2 is 10000 times the variance in milliseconds.
   */
  predicate SpreadsAgree(meanSquarePercent: real, m: real, variance: real)
  {
    meanSquarePercent * (m * m) == 10000.0 * variance
  }

  // ---------------------------------------------------------------------
  // Steps of real arithmetic, each over plain reals so the solver sees nothing else

  lemma DivZeroIff(s: real, n: real)
    requires n > 0.0
    ensures s / n == 0.0 <==> s == 0.0
  {
  }

  lemma MulDivCancel(n: real, c: real)
    requires n > 0.0
    ensures n * c / n == c && n * (c / n) == c
  {
  }

  lemma SquareNonNegative(a: real)
    ensures Square(a) >= 0.0
  {
  }

  lemma PercentAdd(x: real, b: real, m: real)
    requires m != 0.0
    ensures PercentDeviation(x, m) + b / m * 100.0 == (x - m + b) / m * 100.0
  {
  }

  lemma BalancedPercent(total: real, s: real, n: real, m: real)
    requires m != 0.0 && total == (s - n * m) / m * 100.0 && n * m == s
    ensures total == 0.0
  {
  }

  lemma SquaredPercent(x: real, m: real)
    requires m != 0.0
    ensures Square(PercentDeviation(x, m)) == Square(x - m) * (10000.0 / (m * m))
  {
  }

  /** An interval equal to the mean deviates by 0%. */
  lemma NoDeviation(m: real)
    requires m != 0.0
    ensures PercentDeviation(m, m) == 0.0
  {
  }

  lemma ScaleAdd(x: real, s: real, k: real)
    ensures x * k + s * k == (x + s) * k
  {
  }

  lemma ScaledMean(ms: real, v: real, s1: real, s2: real, n: real, m: real)
    requires n > 0.0 && m != 0.0 && ms == s1 / n && v == s2 / n && s1 == s2 * (10000.0 / (m * m))
    ensures SpreadsAgree(ms, m, v)
  {
  }

  // ---------------------------------------------------------------------
  // Intervals

  /** The intervals telescope: together they span from the first tap to the last. */
  lemma {:induction false} IntervalsSum(ts: seq<real>)
    requires |ts| >= 2
    ensures Sum(Intervals(ts)) == ts[|ts| - 1] - ts[0]
  {
    if |ts| > 2 {
      IntervalsSum(ts[1..]);
    }
  }

  /** A non-decreasing clock gives no negative interval. */
  lemma IntervalsNonNegative(ts: seq<real>)
    requires NonDecreasing(ts)
    ensures forall i :: 0 <= i < |Intervals(ts)| ==> Intervals(ts)[i] >= 0.0
  {
  }

  /** The mean interval is zero exactly when the last tap has the first tap's timestamp. */
  lemma MeanIntervalZeroIff(ts: seq<real>)
    requires |ts| >= 2
    ensures Mean(Intervals(ts)) == 0.0 <==> ts[|ts| - 1] == ts[0]
  {
    IntervalsSum(ts);
    DivZeroIff(Sum(Intervals(ts)), (|ts| - 1) as real);
  }

  // ---------------------------------------------------------------------
  // Sums and means

  lemma {:induction false} SumOfConstant(xs: seq<real>, c: real)
    requires forall i :: 0 <= i < |xs| ==> xs[i] == c
    ensures Sum(xs) == (|xs| as real) * c
  {
    if xs != [] {
      SumOfConstant(xs[1..], c);
    }
  }

  /** n times the mean is the sum. */
  lemma MeanTimesCount(xs: seq<real>)
    requires |xs| > 0
    ensures (|xs| as real) * Mean(xs) == Sum(xs)
  {
    MulDivCancel(|xs| as real, Sum(xs));
  }

  // ---------------------------------------------------------------------
  // Variance

  lemma {:induction false} SquaredDeviationsSumNonNegative(xs: seq<real>, m: real)
    ensures Sum(SquaredDeviations(xs, m)) >= 0.0
  {
    if xs != [] {
      SquaredDeviationsSumNonNegative(xs[1..], m);
      SquareNonNegative(xs[0] - m);
    }
  }

  /** stdDevMs is well defined: the population variance is never negative. */
  lemma VarianceNonNegative(xs: seq<real>)
    requires |xs| > 0
    ensures Variance(xs) >= 0.0
  {
    SquaredDeviationsSumNonNegative(xs, Mean(xs));
  }

  lemma {:induction false} SquaredDeviationsOfConstant(xs: seq<real>, c: real)
    requires forall i :: 0 <= i < |xs| ==> xs[i] == c
    ensures Sum(SquaredDeviations(xs, c)) == 0.0
  {
    if xs != [] {
      SquaredDeviationsOfConstant(xs[1..], c);
    }
  }

  /** Equal intervals have that interval as their mean and zero variance. */
  lemma ConstantStatistics(xs: seq<real>)
    requires |xs| > 0 && Constant(xs)
    ensures Mean(xs) == xs[0]
    ensures Variance(xs) == 0.0
  {
    var c := xs[0];
    SumOfConstant(xs, c);
    MulDivCancel(|xs| as real, c);
    SquaredDeviationsOfConstant(xs, c);
  }

  // ---------------------------------------------------------------------
  // Percentage deviations

  /** The i-th percentage deviation is that of the i-th interval. */
  lemma {:induction false} PercentDeviationAt(xs: seq<real>, m: real, i: int)
    requires m != 0.0 && 0 <= i < |xs|
    ensures PercentDeviations(xs, m)[i] == PercentDeviation(xs[i], m)
  {
    if i > 0 {
      PercentDeviationAt(xs[1..], m, i - 1);
    }
  }

  /** The i-th squared deviation is that of the i-th interval. */
  lemma {:induction false} SquaredDeviationAt(xs: seq<real>, m: real, i: int)
    requires 0 <= i < |xs|
    ensures SquaredDeviations(xs, m)[i] == Square(xs[i] - m)
  {
    if i > 0 {
      SquaredDeviationAt(xs[1..], m, i - 1);
    }
  }

  /** The i-th square is that of the i-th deviation. */
  lemma {:induction false} SquareAt(ds: seq<real>, i: int)
    requires 0 <= i < |ds|
    ensures Squares(ds)[i] == Square(ds[i])
  {
    if i > 0 {
      SquareAt(ds[1..], i - 1);
    }
  }

  lemma {:induction false} SumOfPercentDeviations(xs: seq<real>, m: real)
    requires m != 0.0
    ensures Sum(PercentDeviations(xs, m)) == (Sum(xs) - (|xs| as real) * m) / m * 100.0
  {
    if xs != [] {
      SumOfPercentDeviations(xs[1..], m);
      PercentAdd(xs[0], Sum(xs[1..]) - (|xs[1..]| as real) * m, m);
    }
  }

  lemma BalancedAt(xs: seq<real>, m: real)
    requires m != 0.0 && (|xs| as real) * m == Sum(xs)
    ensures Sum(PercentDeviations(xs, m)) == 0.0
  {
    SumOfPercentDeviations(xs, m);
    BalancedPercent(Sum(PercentDeviations(xs, m)), Sum(xs), |xs| as real, m);
  }

  /** Deviations from the mean balance out: they sum to zero. */
  lemma PercentDeviationsSumToZero(xs: seq<real>)
    requires |xs| > 0 && Mean(xs) != 0.0
    ensures Sum(PercentDeviations(xs, Mean(xs))) == 0.0
  {
    MeanTimesCount(xs);
    BalancedAt(xs, Mean(xs));
  }

  /** Squared percentage deviations are the squared deviations scaled by 10000 / m^2. */
  lemma {:induction false} SumOfSquaredPercentDeviations(xs: seq<real>, m: real)
    requires m != 0.0
    ensures Sum(Squares(PercentDeviations(xs, m))) == Sum(SquaredDeviations(xs, m)) * (10000.0 / (m * m))
  {
    if xs != [] {
      var pd := PercentDeviations(xs, m);
      assert pd[1..] == PercentDeviations(xs[1..], m);
      assert Squares(pd)[1..] == Squares(PercentDeviations(xs[1..], m));
      SumOfSquaredPercentDeviations(xs[1..], m);
      SquaredPercent(xs[0], m);
      ScaleAdd(Square(xs[0] - m), Sum(SquaredDeviations(xs[1..], m)), 10000.0 / (m * m));
    }
  }

  /** The spreads agree about any non-zero centre m, the variance taken about m. */
  lemma SpreadsAgreeAbout(xs: seq<real>, m: real)
    requires |xs| > 0 && m != 0.0
    ensures SpreadsAgree(MeanSquare(PercentDeviations(xs, m)), m, Sum(SquaredDeviations(xs, m)) / (|xs| as real))
  {
    SumOfSquaredPercentDeviations(xs, m);
    ScaledMean(MeanSquare(PercentDeviations(xs, m)), Sum(SquaredDeviations(xs, m)) / (|xs| as real),
               Sum(Squares(PercentDeviations(xs, m))), Sum(SquaredDeviations(xs, m)), |xs| as real, m);
  }

  /**
   * The squared percentage standard deviation is the variance in milliseconds
   * scaled by 10000 / m^2, m the (non-zero) mean:
   * stdDevPercent^2 * m^2 == 10000 * stdDevMs^2.
   */
  lemma MeanSquarePercent(xs: seq<real>, m: real)
    requires |xs| > 0 && m == Mean(xs) && m != 0.0
    ensures SpreadsAgree(MeanSquare(PercentDeviations(xs, m)), m, Variance(xs))
  {
    SpreadsAgreeAbout(xs, m);
  }

  lemma {:induction false} SquaredDeviationsFromZero(ds: seq<real>)
    ensures SquaredDeviations(ds, 0.0) == Squares(ds)
  {
    if ds != [] {
      SquaredDeviationsFromZero(ds[1..]);
    }
  }

  /**
   * The RMS of the percentage deviations is their population standard
   * deviation: their mean is zero, so mean square and variance agree.
   */
  lemma RmsIsStandardDeviation(xs: seq<real>)
    requires |xs| > 0 && Mean(xs) != 0.0
    ensures Mean(PercentDeviations(xs, Mean(xs))) == 0.0
    ensures MeanSquare(PercentDeviations(xs, Mean(xs))) == Variance(PercentDeviations(xs, Mean(xs)))
  {
    var ds := PercentDeviations(xs, Mean(xs));
    PercentDeviationsSumToZero(xs);
    DivZeroIff(Sum(ds), |ds| as real);
    SquaredDeviationsFromZero(ds);
  }

  /** Equal non-zero intervals all deviate by 0% from their mean. */
  lemma ConstantPercentDeviations(xs: seq<real>)
    requires |xs| > 0 && Constant(xs) && xs[0] != 0.0
    ensures Mean(xs) != 0.0
    ensures forall i :: 0 <= i < |xs| ==> PercentDeviations(xs, Mean(xs))[i] == 0.0
    ensures MeanSquare(PercentDeviations(xs, Mean(xs))) == 0.0
  {
    ConstantStatistics(xs);
    var m := Mean(xs);
    NoDeviation(m);
    forall i | 0 <= i < |xs| ensures PercentDeviations(xs, m)[i] == 0.0 {
      PercentDeviationAt(xs, m, i);
    }
    MeanSquareOfZeros(PercentDeviations(xs, m));
  }

  /** A sequence whose every entry is zero is the sequence of that many zeros. */
  lemma AllZeros(ds: seq<real>)
    requires forall i :: 0 <= i < |ds| ==> ds[i] == 0.0
    ensures ds == seq(|ds|, _ => 0.0)
  {
  }

  /** Deviations that are all zero have a mean square, and so an RMS, of zero. */
  lemma MeanSquareOfZeros(ds: seq<real>)
    requires |ds| > 0 && forall i :: 0 <= i < |ds| ==> ds[i] == 0.0
    ensures MeanSquare(ds) == 0.0
  {
    SquaredDeviationsFromZero(ds);
    SquaredDeviationsOfConstant(ds, 0.0);
  }
}
