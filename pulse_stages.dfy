/** The parts of the per-pulse stages that are not integrals: the window
    guard, the isolation test between peaks, and the shape window added to
    a channel's shape sums.

    The shape window is read with unchecked indexing, and the guard lets it
    run up to two samples past the end of the trace; what such a read
    yields is whatever lies in memory there, which the parameter `beyond`
    supplies. */
module PulseStages {

  /** The guard in front of the shape and integral stages: the peak is at
      least `lowbin` from the start and at most `hibin` before the end
      (an index equal to the trace length passes). */
  predicate ShapeGuard(peak: int, lowbin: int, hibin: int, n: int)
  {
    !(peak - lowbin < 0 || peak + hibin > n)
  }

  /** What an unchecked read of the trace at x yields. */
  function TraceAt(trace: seq<real>, beyond: int -> real, x: int): real
  {
    if 0 <= x < |trace| then trace[x] else beyond(x)
  }

  /** The values the shape loop adds to bins 1..nbins: bin j (entry j - 1
      here) receives the read at `peak - lowbin + j`. The ensures only
      expose this definition pointwise to the proofs that use it. */
  function ShapeRow(trace: seq<real>, beyond: int -> real, peak: int, lowbin: int, nbins: nat): (row: seq<real>)
    ensures |row| == nbins
    ensures forall b :: 0 <= b < nbins ==> row[b] == TraceAt(trace, beyond, peak - lowbin + 1 + b)
  {
    seq(nbins, b requires 0 <= b < nbins => TraceAt(trace, beyond, peak - lowbin + 1 + b))
  }

  /** Bin-by-bin sum of a row into a channel's shape sums. The ensures only
      expose this definition pointwise to the proofs that use it. */
  function AddRow(sums: seq<real>, row: seq<real>): (r: seq<real>)
    requires |row| == |sums|
    ensures |r| == |sums|
    ensures forall b :: 0 <= b < |sums| ==> r[b] == sums[b] + row[b]
  {
    seq(|sums|, b requires 0 <= b < |sums| => sums[b] + row[b])
  }

  /** The isolation test of peak i: with the cut enabled it rejects a peak
      that lies strictly between 0 and 0.1 samples after another peak;
      without the cut every peak is selected. Peak positions are whole
      sample indices, so the test selects every peak. */
  predicate Isolated(spet: seq<int>, i: int, cut: bool)
    requires 0 <= i < |spet|
    ensures Isolated(spet, i, cut)
  {
    IsolationNeverRejects(spet, i);
    !cut || forall l :: 0 <= l < |spet| ==> !(0.0 < (spet[i] - spet[l]) as real < 0.1)
  }

  /** The isolation loop: every other peak is compared, and the cut flag
      overrides the result afterwards. */
  method IsSelected(spet: seq<int>, i: int, cut: bool) returns (selected: bool)
    requires 0 <= i < |spet|
    ensures selected == Isolated(spet, i, cut)
  {
    selected := true;
    var l := 0;
    while l < |spet|
      invariant 0 <= l <= |spet|
      invariant selected == forall l' :: 0 <= l' < l ==> !(0.0 < (spet[i] - spet[l']) as real < 0.1)
    {
      var separation := (spet[i] - spet[l]) as real;
      if separation < 0.1 && separation > 0.0 {
        selected := false;
      }
      l := l + 1;
    }
    if !cut {
      selected := true;
    }
  }

  /** Peak positions are whole sample indices, so two of them differ by 0
      or by at least 1, never by a fraction between 0 and 0.1. */
  lemma IsolationNeverRejects(spet: seq<int>, i: int)
    requires 0 <= i < |spet|
    ensures forall l :: 0 <= l < |spet| ==> !(0.0 < (spet[i] - spet[l]) as real < 0.1)
  {
    forall l | 0 <= l < |spet|
      ensures !(0.0 < (spet[i] - spet[l]) as real < 0.1)
    {
      var d := spet[i] - spet[l];
      assert d <= 0 || d >= 1;
    }
  }

  /** The shape loop over bins 1..nbins of a channel's shape sums, adding
      the unchecked read at `peakbin - lowbin + j` to bin j. */
  method AddShape(sums: seq<real>, wvfm: seq<real>, beyond: int -> real, peakbin: int, lowbin: int)
    returns (r: seq<real>)
    ensures r == AddRow(sums, ShapeRow(wvfm, beyond, peakbin, lowbin, |sums|))
  {
    var nbins := |sums|;
    r := sums;
    var j := 1;
    while j <= nbins
      invariant 1 <= j <= nbins + 1
      invariant |r| == nbins
      invariant forall b :: 0 <= b < j - 1 ==> r[b] == sums[b] + TraceAt(wvfm, beyond, peakbin - lowbin + 1 + b)
      invariant forall b :: j - 1 <= b < nbins ==> r[b] == sums[b]
    {
      var x := peakbin - lowbin + j;
      var leBin := if 0 <= x < |wvfm| then wvfm[x] else beyond(x);
      r := r[j - 1 := r[j - 1] + leBin];
      j := j + 1;
    }
  }

  /** With `nbins = hibin + lowbin + 1`, the shape window read for a guarded
      peak is [peak - lowbin + 1, peak + hibin + 1]: every read lies at or
      after index 1, so never before the trace and never at the histogram's
      low edge `peak - lowbin`; and for a peak at the guard's limit
      `peak + hibin == n` the last two bins receive the memory at n and
      n + 1, past the end of the trace. */
  lemma ShapeWindowReadsPastEnd(trace: seq<real>, beyond: int -> real, peak: int, lowbin: int, hibin: int)
    requires ShapeGuard(peak, lowbin, hibin, |trace|)
    requires hibin + lowbin + 1 >= 2
    ensures var row := ShapeRow(trace, beyond, peak, lowbin, hibin + lowbin + 1);
            (forall b :: 0 <= b < |row| ==>
               row[b] == TraceAt(trace, beyond, peak - lowbin + 1 + b) && peak - lowbin + 1 + b >= 1)
            && peak - lowbin + 1 + (|row| - 1) == peak + hibin + 1
            && (peak + hibin == |trace| ==>
                  row[|row| - 1] == beyond(|trace| + 1) && row[|row| - 2] == beyond(|trace|))
  {
    var row := ShapeRow(trace, beyond, peak, lowbin, hibin + lowbin + 1);
    assert row[|row| - 1] == TraceAt(trace, beyond, peak - lowbin + 1 + (|row| - 1));
    assert row[|row| - 2] == TraceAt(trace, beyond, peak - lowbin + 1 + (|row| - 2));
  }
}
