/** Noise estimation and the baseline-corrected trace: the first minimum of
    the raw waveform, the mean over two index windows of raw samples, the
    polarity-flipped trace `mean - sample`, and the sum of its squares over
    the windows the variance loops visit.

    The window bounds are inputs (the analyzer derives them by truncating
    `factor * index` in double precision, which is not part of this model),
    and so is everything after the sum of squares: the square root and the
    multiplication by the configured number of standard deviations. */
module Noise {
  import opened Wrappers

  /** The value the minimum search starts from: a sample is taken as the
      minimum only if it lies below it. */
  const MinimumSentinel: int := 999999

  /** The first position holding the smallest raw sample, or -1 when no
      sample lies below the sentinel (in particular for an empty waveform). */
  function FirstMinimumOf(wvf: seq<int>): (highestbin: int)
    ensures -1 <= highestbin < |wvf|
    ensures highestbin == -1 <==> forall i :: 0 <= i < |wvf| ==> wvf[i] >= MinimumSentinel
    ensures highestbin >= 0 ==> wvf[highestbin] < MinimumSentinel
    ensures highestbin >= 0 ==> forall i :: 0 <= i < |wvf| ==> wvf[highestbin] <= wvf[i]
    ensures highestbin >= 0 ==> forall i :: 0 <= i < highestbin ==> wvf[highestbin] < wvf[i]
  {
    if |wvf| == 0 then -1
    else
      var init := wvf[..|wvf| - 1];
      var r := FirstMinimumOf(init);
      var last := wvf[|wvf| - 1];
      assert forall i :: 0 <= i < |init| ==> init[i] == wvf[i];
      if (r == -1 && last < MinimumSentinel) || (r >= 0 && last < wvf[r]) then |wvf| - 1 else r
  }

  /** The minimum search as the analyzer runs it: the running minimum starts
      at the sentinel and is replaced by a strictly smaller sample. */
  method FirstMinimum(wvf: seq<int>) returns (highestbin: int)
    ensures highestbin == FirstMinimumOf(wvf)
  {
    var highestval := MinimumSentinel;
    highestbin := -1;
    var ix := 0;
    while ix < |wvf|
      invariant 0 <= ix <= |wvf|
      invariant highestbin == FirstMinimumOf(wvf[..ix])
      invariant highestbin == -1 ==> highestval == MinimumSentinel
      invariant highestbin >= 0 ==> highestval == wvf[highestbin]
    {
      assert wvf[..ix + 1][..ix] == wvf[..ix];
      if wvf[ix] < highestval {
        highestval := wvf[ix];
        highestbin := ix;
      }
      ix := ix + 1;
    }
    assert wvf[..ix] == wvf;
  }

  /** The inclusive index windows of the noise analysis: region 1 is
      [binMin, binMax], region 2 starts at bin2Min. */
  datatype NoiseWindows = NoiseWindows(binMin: int, binMax: int, bin2Min: int)

  /** What an unchecked read of the raw waveform at index i yields: the
      sample when i is inside the waveform, otherwise whatever lies in
      memory there, which `beyond` supplies. */
  function RawAt(wvf: seq<int>, beyond: int -> int, i: int): int
  {
    if 0 <= i < |wvf| then wvf[i] else beyond(i)
  }

  /** Number of indices in the inclusive range [lo, hi]. */
  function Count(lo: int, hi: int): nat
  {
    if lo > hi then 0 else hi - lo + 1
  }

  /** Sum of the unchecked reads over the inclusive range [lo, hi]. */
  function RawSum(wvf: seq<int>, beyond: int -> int, lo: int, hi: int): int
    decreases hi - lo
  {
    if lo > hi then 0 else RawSum(wvf, beyond, lo, hi - 1) + RawAt(wvf, beyond, hi)
  }

  /** The baseline-corrected trace: each raw sample subtracted from the
      mean, which flips the polarity of the pulses. The ensures only expose
      this definition pointwise to the proofs that use it; what it means
      for the pulses is MinimumBecomesMaximum. */
  function Corrected(wvf: seq<int>, mean: real): (trace: seq<real>)
    ensures |trace| == |wvf|
    ensures forall i :: 0 <= i < |wvf| ==> trace[i] == mean - wvf[i] as real
  {
    seq(|wvf|, i requires 0 <= i < |wvf| => mean - wvf[i] as real)
  }

  /** Sum of squares of the trace over the inclusive range [lo, hi]. */
  function SquareSum(trace: seq<real>, lo: int, hi: int): real
    requires lo > hi || (0 <= lo && hi < |trace|)
    decreases hi - lo
  {
    if lo > hi then 0.0 else SquareSum(trace, lo, hi - 1) + trace[hi] * trace[hi]
  }

  /** The variance loop over the inclusive range [lo, hi]: every read is
      checked, so the first index outside the trace throws. */
  function CheckedSquareSum(trace: seq<real>, lo: int, hi: int): Result<real, Fault>
  {
    match FirstOutOfRange(lo, hi, |trace|)
    case Some(i) => Failure(OutOfRange(i))
    case None =>
      assert lo > hi || (InBounds(lo, |trace|) && InBounds(hi, |trace|));
      Success(SquareSum(trace, lo, hi))
  }

  /** Number of samples the two mean loops visit: region 1 is [binMin,
      binMax] and region 2 is [bin2Min, n], which ends one past the last
      sample. */
  function NoiseCount(w: NoiseWindows, n: nat): nat
  {
    Count(w.binMin, w.binMax) + Count(w.bin2Min, n)
  }

  /** Sum of the samples the two mean loops visit. */
  function NoiseTotal(wvf: seq<int>, beyond: int -> int, w: NoiseWindows): int
  {
    RawSum(wvf, beyond, w.binMin, w.binMax) + RawSum(wvf, beyond, w.bin2Min, |wvf|)
  }

  /** The mean the analyzer computes; when no sample was visited it divides
      zero by zero, which this model does not compute (see NoNoiseSamples). */
  function NoiseMean(wvf: seq<int>, beyond: int -> int, w: NoiseWindows): (mean: real)
    ensures NoiseCount(w, |wvf|) > 0 ==> mean * NoiseCount(w, |wvf|) as real == NoiseTotal(wvf, beyond, w) as real
  {
    var m := NoiseCount(w, |wvf|);
    if m > 0 then NoiseTotal(wvf, beyond, w) as real / m as real else 0.0
  }

  datatype NoiseStats = NoiseStats(mean: real, m: nat, totalvar: real)

  /** How the noise stage ends: with statistics and the corrected trace; with
      no noise sample at all (the analyzer's mean is then NaN, no sample can
      cross the threshold, and the waveform ends as a failed analysis); or
      with an exception from a checked read of the corrected trace. */
  datatype NoiseOutcome =
    | Estimated(stats: NoiseStats, trace: seq<real>)
    | NoNoiseSamples
    | Thrown(fault: Fault)

  /** The noise stage as the analyzer runs it: the two mean loops read the
      raw waveform unchecked, the variance loops read the corrected trace
      with `at` over region 1 and over [bin2Min - 1, n - 1], and then the
      corrected value at the minimum's position is read with `at`. */
  function NoiseOf(wvf: seq<int>, beyond: int -> int, w: NoiseWindows, highestbin: int): (r: NoiseOutcome)
    ensures r.Thrown? ==> !InBounds(r.fault.index, |wvf|)
    ensures r.NoNoiseSamples? ==> NoiseCount(w, |wvf|) == 0
    ensures !r.Thrown? ==> InBounds(highestbin, |wvf|)
                           && (r.Estimated? <==> NoiseCount(w, |wvf|) > 0)
    ensures r.Estimated? ==> |r.trace| == |wvf| && r.stats.m == NoiseCount(w, |wvf|)
                             && r.stats.mean == NoiseMean(wvf, beyond, w)
  {
    var n := |wvf|;
    var m := NoiseCount(w, n);
    var trace := Corrected(wvf, NoiseMean(wvf, beyond, w));
    match CheckedSquareSum(trace, w.binMin, w.binMax)
    case Failure(f) => Thrown(f)
    case Success(var1) =>
      match CheckedSquareSum(trace, w.bin2Min - 1, n - 1)
      case Failure(f) => Thrown(f)
      case Success(var2) =>
        if !InBounds(highestbin, n) then Thrown(OutOfRange(highestbin))
        else if m == 0 then NoNoiseSamples
        else Estimated(NoiseStats(NoiseMean(wvf, beyond, w), m, var1 + var2), trace)
  }

  /** A mean loop: sums the unchecked reads over [lo, hi] and counts them. */
  method SumRegion(wvf: seq<int>, beyond: int -> int, lo: int, hi: int) returns (total: int, m: nat)
    ensures total == RawSum(wvf, beyond, lo, hi)
    ensures m == Count(lo, hi)
  {
    total, m := 0, 0;
    var i := lo;
    while i <= hi
      invariant lo <= i <= if lo <= hi then hi + 1 else lo
      invariant m == Count(lo, i - 1)
      invariant total == RawSum(wvf, beyond, lo, i - 1)
      decreases hi - i
    {
      total := total + RawAt(wvf, beyond, i);
      m := m + 1;
      i := i + 1;
    }
  }

  /** A variance loop: sums the squares of checked reads over [lo, hi]. */
  method SquareRegion(wvfm: array<real>, lo: int, hi: int) returns (r: Result<real, Fault>)
    ensures r == CheckedSquareSum(wvfm[..], lo, hi)
  {
    var n := wvfm.Length;
    var totalvar := 0.0;
    var i := lo;
    while i <= hi
      invariant lo <= i <= if lo <= hi then hi + 1 else lo
      invariant forall k :: lo <= k < i ==> InBounds(k, n)
      invariant i > lo ==> InBounds(lo, n) && InBounds(i - 1, n)
      invariant i > lo ==> totalvar == SquareSum(wvfm[..], lo, i - 1)
      invariant i == lo ==> totalvar == 0.0
      decreases hi - i
    {
      if !(0 <= i < n) {
        assert FirstOutOfRange(lo, hi, n) == Some(i);
        return Failure(OutOfRange(i));
      }
      totalvar := totalvar + wvfm[i] * wvfm[i];
      i := i + 1;
    }
    assert FirstOutOfRange(lo, hi, n) == None;
    return Success(totalvar);
  }

  /** The noise stage of the analyzer, step by step: the two mean loops,
      the corrected trace filled into a fresh buffer, the two variance loops
      and the final read at the minimum's position. */
  method EstimateNoise(wvf: seq<int>, beyond: int -> int, w: NoiseWindows, highestbin: int)
    returns (r: NoiseOutcome)
    ensures r == NoiseOf(wvf, beyond, w, highestbin)
  {
    var n := |wvf|;
    var total1, m1 := SumRegion(wvf, beyond, w.binMin, w.binMax);
    var total2, m2 := SumRegion(wvf, beyond, w.bin2Min, n);
    var m := m1 + m2;
    var total := total1 + total2;
    var mean := if m > 0 then total as real / m as real else 0.0;
    assert mean == NoiseMean(wvf, beyond, w);

    var wvfm := new real[n];
    var i := 0;
    while i < n
      invariant 0 <= i <= n
      invariant forall k :: 0 <= k < i ==> wvfm[k] == mean - wvf[k] as real
    {
      wvfm[i] := mean - wvf[i] as real;
      i := i + 1;
    }
    assert wvfm[..] == Corrected(wvf, mean);

    var var1 := SquareRegion(wvfm, w.binMin, w.binMax);
    if var1.Failure? {
      return Thrown(var1.error);
    }
    var var2 := SquareRegion(wvfm, w.bin2Min - 1, n - 1);
    if var2.Failure? {
      return Thrown(var2.error);
    }
    if !(0 <= highestbin < n) {
      return Thrown(OutOfRange(highestbin));
    }
    if m == 0 {
      return NoNoiseSamples;
    }
    return Estimated(NoiseStats(mean, m, var1.value + var2.value), wvfm[..]);
  }

  /** Sums over ranges on which two memory states read alike are equal. */
  lemma {:induction false} RawSumAgree(wvf: seq<int>, b1: int -> int, b2: int -> int, lo: int, hi: int)
    requires forall i :: lo <= i <= hi ==> RawAt(wvf, b1, i) == RawAt(wvf, b2, i)
    ensures RawSum(wvf, b1, lo, hi) == RawSum(wvf, b2, lo, hi)
    decreases hi - lo
  {
    if lo <= hi {
      RawSumAgree(wvf, b1, b2, lo, hi - 1);
    }
  }

  /** A range of reads that all yield c sums to c times its length. */
  lemma {:induction false} RawSumFlat(wvf: seq<int>, beyond: int -> int, lo: int, hi: int, c: int)
    requires forall i :: lo <= i <= hi ==> RawAt(wvf, beyond, i) == c
    ensures RawSum(wvf, beyond, lo, hi) == c * Count(lo, hi)
    decreases hi - lo
  {
    if lo <= hi {
      RawSumFlat(wvf, beyond, lo, hi - 1, c);
    }
  }

  /** Squares of a constant value d summed over a range: length times d*d. */
  lemma {:induction false} SquareSumFlat(trace: seq<real>, lo: int, hi: int, d: real)
    requires lo > hi || (0 <= lo && hi < |trace|)
    requires forall i :: lo <= i <= hi ==> trace[i] == d
    ensures SquareSum(trace, lo, hi) == Count(lo, hi) as real * d * d
    decreases hi - lo
  {
    if lo <= hi {
      SquareSumFlat(trace, lo, hi - 1, d);
    }
  }

  /** Real division by a positive count distributes over a difference. */
  lemma DivideDifference(a: int, b: int, m: nat)
    requires m > 0
    ensures a as real / m as real - b as real / m as real == (a - b) as real / m as real
  {
  }

  /** Region 2 of the mean ends at index n, one past the last sample: two
      memory states that differ only there give means that differ by their
      difference divided by the sample count. */
  lemma RegionTwoReadsPastEnd(wvf: seq<int>, b1: int -> int, b2: int -> int, w: NoiseWindows)
    requires forall i :: i != |wvf| ==> b1(i) == b2(i)
    requires w.binMin > w.binMax || w.binMax < |wvf|
    requires 0 <= w.bin2Min <= |wvf|
    ensures NoiseCount(w, |wvf|) > 0
    ensures NoiseMean(wvf, b1, w) - NoiseMean(wvf, b2, w)
            == (b1(|wvf|) - b2(|wvf|)) as real / NoiseCount(w, |wvf|) as real
  {
    var n := |wvf|;
    var m := NoiseCount(w, n);
    RawSumAgree(wvf, b1, b2, w.binMin, w.binMax);
    RawSumAgree(wvf, b1, b2, w.bin2Min, n - 1);
    var t1 := NoiseTotal(wvf, b1, w);
    var t2 := NoiseTotal(wvf, b2, w);
    assert t1 - t2 == b1(n) - b2(n);
    DivideDifference(t1, t2, m);
  }

  /** What an estimated noise stage consists of: every variance read lay
      inside the trace, at least one sample was visited, and the statistics
      are the mean, the count and the two sums of squares. */
  lemma EstimatedParts(wvf: seq<int>, beyond: int -> int, w: NoiseWindows, highestbin: int)
    requires NoiseOf(wvf, beyond, w, highestbin).Estimated?
    ensures forall i :: w.binMin <= i <= w.binMax ==> InBounds(i, |wvf|)
    ensures forall i :: w.bin2Min - 1 <= i <= |wvf| - 1 ==> InBounds(i, |wvf|)
    ensures NoiseCount(w, |wvf|) > 0
    ensures NoiseOf(wvf, beyond, w, highestbin).trace == Corrected(wvf, NoiseMean(wvf, beyond, w))
    ensures NoiseOf(wvf, beyond, w, highestbin).stats
            == NoiseStats(NoiseMean(wvf, beyond, w), NoiseCount(w, |wvf|),
                          SquareSum(Corrected(wvf, NoiseMean(wvf, beyond, w)), w.binMin, w.binMax)
                          + SquareSum(Corrected(wvf, NoiseMean(wvf, beyond, w)), w.bin2Min - 1, |wvf| - 1))
  {
    var n := |wvf|;
    var mean := NoiseMean(wvf, beyond, w);
    var trace := Corrected(wvf, mean);
    var r1 := CheckedSquareSum(trace, w.binMin, w.binMax);
    var r2 := CheckedSquareSum(trace, w.bin2Min - 1, n - 1);
    assert r1.Success? && r2.Success? by {
      assert NoiseOf(wvf, beyond, w, highestbin).Estimated?;
    }
    CheckedSquareSumSucceeds(trace, w.binMin, w.binMax);
    CheckedSquareSumSucceeds(trace, w.bin2Min - 1, n - 1);
    assert NoiseOf(wvf, beyond, w, highestbin)
        == Estimated(NoiseStats(mean, NoiseCount(w, n), r1.value + r2.value), trace);
  }

  /** Subtracting from the mean flips the polarity: the first minimum of
      the raw waveform is the first maximum of the corrected trace, so the
      corrected value read at the minimum's position is the height of the
      highest peak. */
  lemma MinimumBecomesMaximum(wvf: seq<int>, mean: real)
    requires FirstMinimumOf(wvf) >= 0
    ensures var hb := FirstMinimumOf(wvf);
            var trace := Corrected(wvf, mean);
            (forall i :: 0 <= i < |trace| ==> trace[i] <= trace[hb])
            && (forall i :: 0 <= i < hb ==> trace[i] < trace[hb])
  {
  }

  /** A variance loop that does not throw read only inside the trace and
      yields the sum of squares. */
  lemma CheckedSquareSumSucceeds(trace: seq<real>, lo: int, hi: int)
    requires CheckedSquareSum(trace, lo, hi).Success?
    ensures forall i :: lo <= i <= hi ==> InBounds(i, |trace|)
    ensures lo > hi || (0 <= lo && hi < |trace|)
    ensures CheckedSquareSum(trace, lo, hi).value == SquareSum(trace, lo, hi)
  {
    assert FirstOutOfRange(lo, hi, |trace|).None?;
    if lo <= hi {
      assert InBounds(lo, |trace|) && InBounds(hi, |trace|);
    }
  }

  /** A flat waveform has a zero corrected trace and zero variance, provided
      the value read one past its end happens to equal the flat level (or
      region 2 is empty). */
  lemma FlatWaveformIsQuiet(wvf: seq<int>, beyond: int -> int, w: NoiseWindows, highestbin: int, c: int)
    requires forall i :: 0 <= i < |wvf| ==> wvf[i] == c
    requires w.bin2Min <= |wvf| ==> beyond(|wvf|) == c
    requires NoiseOf(wvf, beyond, w, highestbin).Estimated?
    ensures NoiseOf(wvf, beyond, w, highestbin).stats.mean == c as real
    ensures forall i :: 0 <= i < |wvf| ==> NoiseOf(wvf, beyond, w, highestbin).trace[i] == 0.0
    ensures NoiseOf(wvf, beyond, w, highestbin).stats.totalvar == 0.0
  {
    var n := |wvf|;
    EstimatedParts(wvf, beyond, w, highestbin);
    RawSumFlat(wvf, beyond, w.binMin, w.binMax, c);
    RawSumFlat(wvf, beyond, w.bin2Min, n, c);
    var m := NoiseCount(w, n);
    MeanOfMultiple(c, Count(w.binMin, w.binMax), Count(w.bin2Min, n));
    assert NoiseMean(wvf, beyond, w) == c as real;
    var trace := Corrected(wvf, c as real);
    SquareSumFlat(trace, w.binMin, w.binMax, 0.0);
    SquareSumFlat(trace, w.bin2Min - 1, n - 1, 0.0);
  }

  /** The mean of k1 + k2 copies of c is c. */
  lemma MeanOfMultiple(c: int, k1: nat, k2: nat)
    requires k1 + k2 > 0
    ensures (c * k1 + c * k2) as real / (k1 + k2) as real == c as real
  {
    assert c * k1 + c * k2 == c * (k1 + k2);
  }

  /** The mean of a flat waveform whose windows lie inside it except for
      region 2's read at n: the level plus that read's excess over the level,
      divided by the sample count. */
  lemma FlatMean(wvf: seq<int>, beyond: int -> int, w: NoiseWindows, c: int)
    requires forall i :: 0 <= i < |wvf| ==> wvf[i] == c
    requires w.binMin > w.binMax || (0 <= w.binMin && w.binMax < |wvf|)
    requires 0 <= w.bin2Min <= |wvf|
    ensures NoiseCount(w, |wvf|) > 0
    ensures NoiseMean(wvf, beyond, w)
            == c as real + (beyond(|wvf|) - c) as real / NoiseCount(w, |wvf|) as real
  {
    var n := |wvf|;
    var flat := (i: int) => if i == n then c else beyond(i);
    forall i | w.binMin <= i <= w.binMax
      ensures RawAt(wvf, flat, i) == c
    {
      assert InBounds(i, n);
    }
    RawSumFlat(wvf, flat, w.binMin, w.binMax, c);
    RawSumFlat(wvf, flat, w.bin2Min, n, c);
    MeanOfMultiple(c, Count(w.binMin, w.binMax), Count(w.bin2Min, n));
    assert NoiseMean(wvf, flat, w) == c as real;
    RegionTwoReadsPastEnd(wvf, beyond, flat, w);
  }

  /** When the value read one past the end of a flat waveform differs from
      the flat level, the mean is biased by some d != 0 and every corrected
      sample equals d: the trace the pulse finder scans is offset from zero
      although the waveform itself does not vary. */
  lemma FlatWaveformBiasedByPastEnd(wvf: seq<int>, beyond: int -> int, w: NoiseWindows, highestbin: int, c: int)
    requires forall i :: 0 <= i < |wvf| ==> wvf[i] == c
    requires w.bin2Min <= |wvf| && beyond(|wvf|) != c
    requires NoiseOf(wvf, beyond, w, highestbin).Estimated?
    ensures NoiseOf(wvf, beyond, w, highestbin).stats.mean != c as real
    ensures forall i :: 0 <= i < |wvf| ==>
              NoiseOf(wvf, beyond, w, highestbin).trace[i] == NoiseOf(wvf, beyond, w, highestbin).stats.mean - c as real
  {
    var n := |wvf|;
    EstimatedParts(wvf, beyond, w, highestbin);
    assert InBounds(w.bin2Min - 1, n);
    if w.binMin <= w.binMax {
      assert InBounds(w.binMin, n) && InBounds(w.binMax, n);
    }
    FlatBiased(wvf, beyond, w, c);
  }

  /** FlatWaveformBiasedByPastEnd stated on the mean and the corrected
      trace. */
  lemma FlatBiased(wvf: seq<int>, beyond: int -> int, w: NoiseWindows, c: int)
    requires forall i :: 0 <= i < |wvf| ==> wvf[i] == c
    requires w.binMin > w.binMax || (0 <= w.binMin && w.binMax < |wvf|)
    requires 1 <= w.bin2Min <= |wvf| && beyond(|wvf|) != c
    ensures NoiseMean(wvf, beyond, w) != c as real
    ensures forall i :: 0 <= i < |wvf| ==>
              Corrected(wvf, NoiseMean(wvf, beyond, w))[i] == NoiseMean(wvf, beyond, w) - c as real
  {
    var n := |wvf|;
    FlatMean(wvf, beyond, w, c);
    NonzeroQuotient(beyond(n) - c, NoiseCount(w, n));
    var mean := NoiseMean(wvf, beyond, w);
  }

  /** The variance sum of an estimated noise stage is never negative. */
  lemma VarianceNonNegative(wvf: seq<int>, beyond: int -> int, w: NoiseWindows, highestbin: int)
    requires NoiseOf(wvf, beyond, w, highestbin).Estimated?
    ensures NoiseOf(wvf, beyond, w, highestbin).stats.totalvar >= 0.0
  {
    var n := |wvf|;
    EstimatedParts(wvf, beyond, w, highestbin);
    var trace := Corrected(wvf, NoiseMean(wvf, beyond, w));
    if w.binMin <= w.binMax {
      assert InBounds(w.binMin, n) && InBounds(w.binMax, n);
    }
    if w.bin2Min - 1 <= n - 1 {
      assert InBounds(w.bin2Min - 1, n);
    }
    SquareSumNonNegative(trace, w.binMin, w.binMax);
    SquareSumNonNegative(trace, w.bin2Min - 1, n - 1);
  }

  /** A nonzero integer over a positive count is a nonzero real. */
  lemma NonzeroQuotient(a: int, m: nat)
    requires a != 0 && m > 0
    ensures a as real / m as real != 0.0
  {
  }

  /** A sum of squares is never negative. */
  lemma {:induction false} SquareSumNonNegative(trace: seq<real>, lo: int, hi: int)
    requires lo > hi || (0 <= lo && hi < |trace|)
    ensures SquareSum(trace, lo, hi) >= 0.0
    decreases hi - lo
  {
    if lo <= hi {
      SquareSumNonNegative(trace, lo, hi - 1);
    }
  }
}
