/**
 * The deviation histogram: 11 bins of width 2 percent between the edges
 * -11 and 11, with out-of-range deviations clamped into the end bins.
 */
module Binning {

  /** Number of bins: one fewer than there are edges. */
  const NumBins := 11

  /** Bin edges in percent. */
  const BinEdges: seq<int> := [-11, -9, -7, -5, -3, -1, 1, 3, 5, 7, 9, 11]

  /** d falls in the half-open range [BinEdges[b], BinEdges[b + 1]). */
  predicate InRange(d: real, b: int)
    requires 0 <= b < NumBins
  {
    BinEdges[b] as real <= d < BinEdges[b + 1] as real
  }

  /**
   * Where the binning puts deviation d: the bin whose range holds it, the
   * first bin below the lowest edge, the last bin at or above the highest.
   */
  predicate InBin(d: real, b: int)
  {
    0 <= b < NumBins &&
    (InRange(d, b) ||
     (b == 0 && d < BinEdges[0] as real) ||
     (b == NumBins - 1 && d >= BinEdges[NumBins] as real))
  }

  /** Edges are evenly spaced, two percent apart, starting at -11. */
  lemma EdgesEvenlySpaced()
    ensures |BinEdges| == NumBins + 1
    ensures forall k :: 0 <= k <= NumBins ==> BinEdges[k] == 2 * k - 11
  {
  }

  /** Bin of deviation d in closed form: clamped, then floor((d + 11) / 2). */
  function BinOf(d: real): (b: int)
    ensures InBin(d, b)
  {
    EdgesEvenlySpaced();
    if d < -11.0 then 0
    else if d >= 11.0 then NumBins - 1
    else ((d + 11.0) / 2.0).Floor
  }

  /** Bins do not overlap: a deviation belongs to exactly one bin, BinOf's. */
  lemma InBinIff(d: real, b: int)
    ensures InBin(d, b) <==> b == BinOf(d)
  {
    EdgesEvenlySpaced();
  }

  /** 0% lands in bin 5 ([-1, 1)), -11% in bin 0 and 11% in the last bin. */
  lemma BinExamples()
    ensures BinOf(0.0) == 5 && BinOf(-11.0) == 0 && BinOf(11.0) == NumBins - 1
  {
    InBinIff(0.0, 5);
    InBinIff(-11.0, 0);
  }

  /** How many of devs fall in bin b. */
  function Count(devs: seq<real>, b: int): nat
  {
    if devs == [] then 0
    else Count(devs[..|devs| - 1], b) + (if BinOf(devs[|devs| - 1]) == b then 1 else 0)
  }

  /** The histogram of devs: one count per bin. */
  function Histogram(devs: seq<real>): (h: seq<int>)
    ensures |h| == NumBins
  {
    seq(NumBins, b => Count(devs, b))
  }

  /** Sum of the bin counts. */
  function Total(h: seq<int>): int
  {
    if h == [] then 0 else h[0] + Total(h[1..])
  }

  /** Counting one more deviation adds one to its bin and nothing elsewhere. */
  lemma HistogramAppend(devs: seq<real>, d: real)
    ensures Histogram(devs + [d]) == Histogram(devs)[BinOf(d) := Histogram(devs)[BinOf(d)] + 1]
  {
    assert (devs + [d])[..|devs|] == devs;
  }

  lemma {:induction false} TotalIncrement(h: seq<int>, i: int)
    requires 0 <= i < |h|
    ensures Total(h[i := h[i] + 1]) == Total(h) + 1
  {
    if i > 0 {
      TotalIncrement(h[1..], i - 1);
      assert h[i := h[i] + 1][1..] == h[1..][i - 1 := h[i] + 1];
    }
  }

  lemma {:induction false} TotalOfZeros(h: seq<int>)
    requires forall i :: 0 <= i < |h| ==> h[i] == 0
    ensures Total(h) == 0
  {
    if h != [] {
      TotalOfZeros(h[1..]);
    }
  }

  /** No deviation is dropped: the bin counts add up to the number of deviations. */
  lemma {:induction false} HistogramTotal(devs: seq<real>)
    ensures Total(Histogram(devs)) == |devs|
  {
    if devs == [] {
      TotalOfZeros(Histogram(devs));
    } else {
      var init, d := devs[..|devs| - 1], devs[|devs| - 1];
      assert devs == init + [d];
      HistogramTotal(init);
      HistogramAppend(init, d);
      TotalIncrement(Histogram(init), BinOf(d));
    }
  }

  lemma {:induction false} CountOfZeros(devs: seq<real>, b: int)
    requires forall i :: 0 <= i < |devs| ==> devs[i] == 0.0
    ensures Count(devs, b) == if b == 5 then |devs| else 0
  {
    if devs != [] {
      CountOfZeros(devs[..|devs| - 1], b);
      BinExamples();
    }
  }

  /** Deviations that are all 0% are all counted in the middle bin [-1, 1). */
  lemma HistogramOfZeros(devs: seq<real>)
    requires forall i :: 0 <= i < |devs| ==> devs[i] == 0.0
    ensures Histogram(devs) == [0, 0, 0, 0, 0, |devs|, 0, 0, 0, 0, 0]
  {
    forall b | 0 <= b < NumBins ensures Histogram(devs)[b] == [0, 0, 0, 0, 0, |devs|, 0, 0, 0, 0, 0][b] {
      CountOfZeros(devs, b);
    }
  }

  /**
   * The bin search for one deviation: scan the ranges in order and stop at
   * the first that holds it; otherwise clamp to an end bin. The result -1
   * (no bin) is what the caller tests for, and never occurs.
   */
  method FindBin(dev: real) returns (binIndex: int)
    ensures binIndex == BinOf(dev)
  {
    binIndex := -1;
    var i := 0;
    while i < |BinEdges| - 1
      invariant 0 <= i <= |BinEdges| - 1
      invariant binIndex == -1
      invariant forall j :: 0 <= j < i ==> !InRange(dev, j)
    {
      if BinEdges[i] as real <= dev && dev < BinEdges[i + 1] as real {
        binIndex := i;
        break;
      }
      i := i + 1;
    }
    if binIndex == -1 {
      if dev < BinEdges[0] as real {
        binIndex := 0;
      } else if dev >= BinEdges[|BinEdges| - 1] as real {
        binIndex := |BinEdges| - 2;
      }
    }
    InBinIff(dev, BinOf(dev));
    InBinIff(dev, binIndex);
  }

  /**
   * Counts every deviation into a fresh zero-filled array of NumBins bins,
   * in order, and returns the counts.
   */
  method BuildHistogram(devs: seq<real>) returns (counts: seq<int>)
    ensures counts == Histogram(devs)
    ensures |counts| == NumBins && Total(counts) == |devs|
  {
    var histogramData := new int[|BinEdges| - 1](_ => 0);
    assert histogramData[..] == Histogram([]);
    var k := 0;
    while k < |devs|
      invariant 0 <= k <= |devs|
      invariant histogramData.Length == NumBins
      invariant histogramData[..] == Histogram(devs[..k])
    {
      var dev := devs[k];
      var binIndex := FindBin(dev);
      if binIndex != -1 {
        histogramData[binIndex] := histogramData[binIndex] + 1;
      }
      assert devs[..k + 1] == devs[..k] + [dev];
      HistogramAppend(devs[..k], dev);
      k := k + 1;
    }
    assert devs[..k] == devs;
    counts := histogramData[..];
    HistogramTotal(devs);
  }
}
