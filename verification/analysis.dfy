/**
 * The analysis run when a session ends: intervals from the tap timestamps,
 * their mean and variance, percentage deviations, their mean square and the
 * deviation histogram; or "not enough data" for fewer than two taps.
 */
module Analysis {
  import opened Stats
  import opened Binning

  /**
   * Outcome of an analysis. `varianceMs` is stdDevMs squared and
   * `meanSquarePercent` is stdDevPercent squared.
   */
  datatype Outcome =
    | NotEnoughData
    | Report(intervals: seq<real>, meanInterval: real, varianceMs: real,
             percentDeviations: seq<real>, meanSquarePercent: real, histogram: seq<int>)

  /** What the analysis needs of the timestamps: a non-zero mean interval once there are two taps. */
  predicate Analyzable(ts: seq<real>)
  {
    |ts| >= 2 ==> Mean(Intervals(ts)) != 0.0
  }

  /** The outcome the analysis produces for timestamps ts. */
  function Analyze(ts: seq<real>): Outcome
    requires Analyzable(ts)
  {
    if |ts| < 2 then NotEnoughData
    else
      var xs := Intervals(ts);
      var m := Mean(xs);
      var pd := PercentDeviations(xs, m);
      Report(xs, m, Variance(xs), pd, MeanSquare(pd), Histogram(pd))
  }

  /** The analysis is possible whenever the last tap is later than the first. */
  lemma LaterTapAnalyzable(ts: seq<real>)
    requires |ts| >= 2 && ts[0] < ts[|ts| - 1]
    ensures Analyzable(ts)
  {
    MeanIntervalZeroIff(ts);
  }

  /** Collects the differences of consecutive timestamps, in order. */
  method ComputeIntervals(hitTimestamps: seq<real>) returns (intervals: seq<real>)
    ensures intervals == Intervals(hitTimestamps)
    ensures |hitTimestamps| >= 2 ==> |intervals| == |hitTimestamps| - 1
    ensures forall i :: 0 <= i < |intervals| ==> intervals[i] == hitTimestamps[i + 1] - hitTimestamps[i]
  {
    intervals := [];
    var i := 1;
    while i < |hitTimestamps|
      invariant 1 <= i <= if |hitTimestamps| < 1 then 1 else |hitTimestamps|
      invariant |intervals| == i - 1
      invariant forall j :: 0 <= j < i - 1 ==> intervals[j] == hitTimestamps[j + 1] - hitTimestamps[j]
    {
      intervals := intervals + [hitTimestamps[i] - hitTimestamps[i - 1]];
      i := i + 1;
    }
    var expected := Intervals(hitTimestamps);
    assert |intervals| == |expected|;
    forall j | 0 <= j < |intervals| ensures intervals[j] == expected[j] {
      assert j < i - 1;
      assert intervals[j] == hitTimestamps[j + 1] - hitTimestamps[j];
      assert expected[j] == hitTimestamps[j + 1] - hitTimestamps[j];
    }
  }

  /**
   * What a report says: n - 1 intervals, a non-zero mean, a variance of at
   * least zero, percentage deviations that balance out, a squared percentage
   * standard deviation equal to 10000 times the variance over the squared
   * mean, and 11 bin counts that account for every deviation.
   */
  lemma ReportProperties(ts: seq<real>)
    requires |ts| >= 2 && Analyzable(ts)
    ensures var r := Analyze(ts);
      && r.Report?
      && |r.intervals| == |ts| - 1
      && r.meanInterval != 0.0
      && r.varianceMs >= 0.0
      && Sum(r.percentDeviations) == 0.0
      && SpreadsAgree(r.meanSquarePercent, r.meanInterval, r.varianceMs)
      && |r.histogram| == NumBins
      && Total(r.histogram) == |ts| - 1
  {
    var xs := Intervals(ts);
    var m := Mean(xs);
    var pd := PercentDeviations(xs, m);
    var r := Analyze(ts);
    assert r == Report(xs, m, Variance(xs), pd, MeanSquare(pd), Histogram(pd));
    VarianceNonNegative(xs);
    PercentDeviationsSumToZero(xs);
    MeanSquarePercent(xs, m);
    HistogramTotal(pd);
  }

  /**
   * Analyses the timestamps of one session: not enough data for fewer than
   * two taps, otherwise the intervals, their statistics and the histogram.
   * The mean interval must not be zero (the percentage deviations divide by
   * it); LaterTapAnalyzable shows a last tap later than the first suffices.
   */
  method AnalyzeAndShowResults(hitTimestamps: seq<real>) returns (r: Outcome)
    requires Analyzable(hitTimestamps)
    ensures r == Analyze(hitTimestamps)
    ensures r.NotEnoughData? <==> |hitTimestamps| < 2
  {
    if |hitTimestamps| < 2 {
      return NotEnoughData;
    }
    var intervals := ComputeIntervals(hitTimestamps);
    var meanInterval := Mean(intervals);
    var varianceMs := Variance(intervals);
    var percentDeviations := PercentDeviations(intervals, meanInterval);
    var meanSquarePercent := MeanSquare(percentDeviations);
    var histogramData := BuildHistogram(percentDeviations);
    r := Report(intervals, meanInterval, varianceMs, percentDeviations, meanSquarePercent, histogramData);
  }

  /** Equal non-zero intervals all deviate by 0% from their value and fill only the middle bin. */
  lemma SteadyHistogram(xs: seq<real>, c: real)
    requires c != 0.0 && forall i :: 0 <= i < |xs| ==> xs[i] == c
    ensures Histogram(PercentDeviations(xs, c)) == [0, 0, 0, 0, 0, |xs|, 0, 0, 0, 0, 0]
  {
    var ds := PercentDeviations(xs, c);
    NoDeviation(c);
    forall i | 0 <= i < |ds| ensures ds[i] == 0.0 {
      PercentDeviationAt(xs, c, i);
    }
    HistogramOfZeros(ds);
  }

  /**
   * Equal non-zero intervals: their value is the mean, the variance is zero,
   * every deviation is 0%, so stdDevPercent is zero, and all counts fall in
   * the middle bin.
   */
  lemma SteadyIntervals(xs: seq<real>)
    requires |xs| > 0 && Constant(xs) && xs[0] != 0.0
    ensures Mean(xs) == xs[0] && Variance(xs) == 0.0
    ensures PercentDeviations(xs, xs[0]) == seq(|xs|, _ => 0.0)
    ensures MeanSquare(PercentDeviations(xs, xs[0])) == 0.0
    ensures Histogram(PercentDeviations(xs, xs[0])) == [0, 0, 0, 0, 0, |xs|, 0, 0, 0, 0, 0]
  {
    ConstantStatistics(xs);
    ConstantPercentDeviations(xs);
    AllZeros(PercentDeviations(xs, xs[0]));
    SteadyHistogram(xs, xs[0]);
  }

  /** Taps at a steady pace: the whole report of SteadyIntervals, with n - 1 intervals. */
  lemma SteadyTaps(ts: seq<real>)
    requires |ts| >= 2 && ts[1] != ts[0] && Constant(Intervals(ts))
    ensures Analyzable(ts)
    ensures Analyze(ts) == Report(Intervals(ts), ts[1] - ts[0], 0.0, seq(|ts| - 1, _ => 0.0), 0.0,
                                  [0, 0, 0, 0, 0, |ts| - 1, 0, 0, 0, 0, 0])
  {
    var xs := Intervals(ts);
    var c := xs[0];
    SteadyIntervals(xs);
    var pd := PercentDeviations(xs, c);
    assert Analyze(ts) == Report(xs, c, Variance(xs), pd, MeanSquare(pd), Histogram(pd));
  }

  /** Five taps 500 ms apart: intervals of 500 ms, no spread at all, four counts in bin [-1, 1). */
  lemma ExampleSteadyTempo()
    ensures Analyze([0.0, 500.0, 1000.0, 1500.0, 2000.0])
      == Report([500.0, 500.0, 500.0, 500.0], 500.0, 0.0, [0.0, 0.0, 0.0, 0.0], 0.0,
                [0, 0, 0, 0, 0, 4, 0, 0, 0, 0, 0])
  {
    var ts := [0.0, 500.0, 1000.0, 1500.0, 2000.0];
    assert Intervals(ts) == [500.0, 500.0, 500.0, 500.0];
    SteadyTaps(ts);
    assert seq(4, _ => 0.0) == [0.0, 0.0, 0.0, 0.0];
  }

  /** Deviations of -4%, 4%, 4% and -4% are counted twice in [-5, -3) and twice in [3, 5). */
  lemma ExampleHistogram()
    ensures Histogram([-4.0, 4.0, 4.0, -4.0]) == [0, 0, 0, 2, 0, 0, 0, 2, 0, 0, 0]
  {
    var pd := [-4.0, 4.0, 4.0, -4.0];
    var p3, p2, p1 := [-4.0, 4.0, 4.0], [-4.0, 4.0], [-4.0];
    assert pd[..3] == p3 && p3[..2] == p2 && p2[..1] == p1 && p1[..0] == [];
    assert BinOf(-4.0) == 3 && BinOf(4.0) == 7;
    forall b | 0 <= b < NumBins
      ensures Histogram(pd)[b] == [0, 0, 0, 2, 0, 0, 0, 2, 0, 0, 0][b]
    {
      assert Count(p1, b) == (if b == 3 then 1 else 0);
      assert Count(p2, b) == Count(p1, b) + (if b == 7 then 1 else 0);
      assert Count(p3, b) == Count(p2, b) + (if b == 7 then 1 else 0);
      assert Count(pd, b) == Count(p3, b) + (if b == 3 then 1 else 0);
    }
  }

  /**
   * Taps at 0, 480, 1000, 1520 and 2000 ms: intervals 480, 520, 520, 480
   * around a 500 ms mean, deviations of -4%, 4%, 4% and -4%, a variance of
   * 400 ms^2 (stdDevMs 20) and a squared percentage deviation of 16
   * (stdDevPercent 4).
   */
  lemma ExampleUnevenTempo()
    ensures Analyze([0.0, 480.0, 1000.0, 1520.0, 2000.0])
      == Report([480.0, 520.0, 520.0, 480.0], 500.0, 400.0, [-4.0, 4.0, 4.0, -4.0], 16.0,
                [0, 0, 0, 2, 0, 0, 0, 2, 0, 0, 0])
  {
    var xs := [480.0, 520.0, 520.0, 480.0];
    assert Intervals([0.0, 480.0, 1000.0, 1520.0, 2000.0]) == xs;
    assert Mean(xs) == 500.0;
    var pd := [-4.0, 4.0, 4.0, -4.0];
    assert PercentDeviations(xs, 500.0) == pd;
    assert Variance(xs) == 400.0;
    assert MeanSquare(pd) == 16.0;
    ExampleHistogram();
  }
}
