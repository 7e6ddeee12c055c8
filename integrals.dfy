/** The six integrals of a pulse: a walk outwards from the peak on each
    side while the (optionally baseline-subtracted) trace stays strictly
    above a level, then a sum over the window the two walks delimit; or a
    sum over a fixed window around the peak. Every read is checked, so a
    walk or a window that leaves the trace throws.

    The raw integrals use the trace itself (baseline 0), the
    baseline-subtracted ones the average of the samples 50 before and 50
    after the peak; their walks also stop after 50 steps. */
module Integrals {
  import opened Wrappers

  /** Level of the raw zero-mode walk. */
  const RawZeroLevel: real := 10.0
  /** Level of the baseline-subtracted zero-mode walk. */
  const BaselineZeroLevel: real := 0.0
  /** Steps after which a baseline-subtracted walk stops. */
  const WalkCap: nat := 50
  /** Distance from the peak of the two samples of the local baseline. */
  const BaselineOffset: int := 50

  datatype Direction = Left | Right

  /** The index k steps from the peak in the given direction. */
  function Offset(peak: int, dir: Direction, k: int): int
  {
    if dir == Left then peak - k else peak + k
  }

  /** Whether the sample at x lies inside the trace and, less the baseline,
      strictly above the level: the condition that keeps a walk going. */
  predicate Exceeds(trace: seq<real>, x: int, level: real, bsl: real)
  {
    InBounds(x, |trace|) && trace[x] - bsl > level
  }

  /** A walk that has just read the sample k steps from the peak: it stops
      there if that sample does not exceed the level; otherwise it reads one
      step further, which throws if that index leaves the trace, and stops
      after that read when the step count reaches the cap. The result is the
      step count at which it stopped, or the index that threw: -1 for a
      walk to the left, the trace length for a walk to the right. */
  function WalkFrom(trace: seq<real>, peak: int, dir: Direction, level: real, bsl: real, cap: Option<nat>, k: nat)
    : (r: Result<nat, Fault>)
    requires InBounds(Offset(peak, dir, k), |trace|)
    requires cap.Some? ==> k < cap.value
    ensures r.Success? ==>
              k <= r.value && InBounds(Offset(peak, dir, r.value), |trace|)
              && (forall j :: k <= j < r.value ==> Exceeds(trace, Offset(peak, dir, j), level, bsl))
              && (cap.Some? ==> r.value <= cap.value)
              && (!Exceeds(trace, Offset(peak, dir, r.value), level, bsl) || cap == Some(r.value))
    ensures r.Failure? ==>
              r.error == OutOfRange(if dir == Left then -1 else |trace|)
              && (forall j :: k <= j && InBounds(Offset(peak, dir, j), |trace|) ==>
                                Exceeds(trace, Offset(peak, dir, j), level, bsl))
              && (cap.Some? ==> (if dir == Left then peak + 1 else |trace| - peak) <= cap.value)
    decreases if dir == Left then peak - k else |trace| - peak - k
  {
    if !Exceeds(trace, Offset(peak, dir, k), level, bsl) then Success(k)
    else if !InBounds(Offset(peak, dir, k + 1), |trace|) then
      assert forall j :: k <= j && InBounds(Offset(peak, dir, j), |trace|) ==> j == k;
      Failure(OutOfRange(Offset(peak, dir, k + 1)))
    else if cap == Some(k + 1) then Success(k + 1)
    else WalkFrom(trace, peak, dir, level, bsl, cap, k + 1)
  }

  /** A whole walk: the peak's own sample is read first, checked. */
  function Walk(trace: seq<real>, peak: int, dir: Direction, level: real, bsl: real, cap: Option<nat>)
    : (r: Result<nat, Fault>)
    requires cap != Some(0)
    ensures r.Success? ==>
              InBounds(peak, |trace|) && InBounds(Offset(peak, dir, r.value), |trace|)
              && (forall j :: 0 <= j < r.value ==> Exceeds(trace, Offset(peak, dir, j), level, bsl))
              && (cap.Some? ==> r.value <= cap.value)
    ensures r.Failure? ==> r.error in {OutOfRange(peak), OutOfRange(-1), OutOfRange(|trace|)}
                           && !InBounds(r.error.index, |trace|)
  {
    if !InBounds(peak, |trace|) then Failure(OutOfRange(peak))
    else WalkFrom(trace, peak, dir, level, bsl, cap, 0)
  }

  /** Sum of `trace[x] - bsl` over the inclusive range [lo, hi]. */
  function Sum(trace: seq<real>, lo: int, hi: int, bsl: real): real
    requires lo > hi || (0 <= lo && hi < |trace|)
    decreases hi - lo
  {
    if lo > hi then 0.0 else Sum(trace, lo, hi - 1, bsl) + (trace[hi] - bsl)
  }

  /** The summing loop over the window [peak - ilo, peak + ihi]: every read
      is checked, so the first index outside the trace throws. */
  function Window(trace: seq<real>, peak: int, ilo: int, ihi: int, bsl: real): (r: Result<real, Fault>)
    ensures r.Failure? ==> !InBounds(r.error.index, |trace|) && peak - ilo <= r.error.index <= peak + ihi
                           && forall x :: peak - ilo <= x < r.error.index ==> InBounds(x, |trace|)
    ensures r.Success? ==> forall x :: peak - ilo <= x <= peak + ihi ==> InBounds(x, |trace|)
  {
    match FirstOutOfRange(peak - ilo, peak + ihi, |trace|)
    case Some(x) => Failure(OutOfRange(x))
    case None =>
      assert peak - ilo > peak + ihi || (InBounds(peak - ilo, |trace|) && InBounds(peak + ihi, |trace|));
      Success(Sum(trace, peak - ilo, peak + ihi, bsl))
  }

  /** The window two walks delimit: each walk stops one step beyond the
      last sample it keeps, so both step counts are decremented. */
  function WalkedWindow(trace: seq<real>, peak: int, level: real, bsl: real, cap: Option<nat>)
    : Result<(int, int), Fault>
    requires cap != Some(0)
  {
    match Walk(trace, peak, Left, level, bsl, cap)
    case Failure(f) => Failure(f)
    case Success(kl) =>
      match Walk(trace, peak, Right, level, bsl, cap)
      case Failure(f) => Failure(f)
      case Success(kr) => Success((kl - 1, kr - 1))
  }

  /** A walked integral: the two walks, then the sum over their window. */
  function WalkedIntegral(trace: seq<real>, peak: int, level: real, bsl: real, cap: Option<nat>)
    : (r: Result<real, Fault>)
    requires cap != Some(0)
    ensures r.Failure? <==> WalkedWindow(trace, peak, level, bsl, cap).Failure?
    ensures r.Failure? ==> r.error in {OutOfRange(peak), OutOfRange(-1), OutOfRange(|trace|)}
  {
    WalkedWindowCharacterised(trace, peak, level, bsl, cap);
    match WalkedWindow(trace, peak, level, bsl, cap)
    case Failure(f) => Failure(f)
    case Success((ilo, ihi)) => Window(trace, peak, ilo, ihi, bsl)
  }

  /** The local baseline: the average of the samples 50 before and 50 after
      the peak, both read checked, the earlier one first. */
  function LocalBaseline(trace: seq<real>, peak: int): (r: Result<real, Fault>)
    ensures r.Success? <==> BaselineOffset <= peak < |trace| - BaselineOffset
    ensures r.Success? ==> r.value == (trace[peak - BaselineOffset] + trace[peak + BaselineOffset]) / 2.0
    ensures r.Failure? ==> !InBounds(r.error.index, |trace|)
                           && (r.error.index == peak - BaselineOffset || r.error.index == peak + BaselineOffset)
    ensures r.Failure? && !InBounds(peak - BaselineOffset, |trace|) ==> r.error.index == peak - BaselineOffset
  {
    if !InBounds(peak - BaselineOffset, |trace|) then Failure(OutOfRange(peak - BaselineOffset))
    else if !InBounds(peak + BaselineOffset, |trace|) then Failure(OutOfRange(peak + BaselineOffset))
    else Success((trace[peak - BaselineOffset] + trace[peak + BaselineOffset]) / 2.0)
  }

  /** One bound search as the analyzer runs it: the step counter `ilo` or
      `ihi` and the last value read, a checked read per step, and the break
      at the cap. */
  method WalkBound(wvfm: seq<real>, peakbin: int, dir: Direction, level: real, bsl: real, cap: Option<nat>)
    returns (r: Result<nat, Fault>)
    requires cap != Some(0)
    ensures r == Walk(wvfm, peakbin, dir, level, bsl, cap)
  {
    if !(0 <= peakbin < |wvfm|) {
      return Failure(OutOfRange(peakbin));
    }
    var steps: nat := 0;
    var val := wvfm[peakbin] - bsl;
    while val > level
      invariant InBounds(Offset(peakbin, dir, steps), |wvfm|)
      invariant val == wvfm[Offset(peakbin, dir, steps)] - bsl
      invariant cap.Some? ==> steps < cap.value
      invariant Walk(wvfm, peakbin, dir, level, bsl, cap) == WalkFrom(wvfm, peakbin, dir, level, bsl, cap, steps)
      decreases if dir == Left then peakbin - steps else |wvfm| - peakbin - steps
    {
      steps := steps + 1;
      var x := if dir == Left then peakbin - steps else peakbin + steps;
      if !(0 <= x < |wvfm|) {
        return Failure(OutOfRange(x));
      }
      val := wvfm[x] - bsl;
      if cap == Some(steps) {
        break;
      }
    }
    return Success(steps);
  }

  /** The summing loop `for (j = -ilo; j <= ihi; j++)` with a checked read
      of `peakbin + j` per step. */
  method SumWindow(wvfm: seq<real>, peakbin: int, ilo: int, ihi: int, bsl: real) returns (r: Result<real, Fault>)
    ensures r == Window(wvfm, peakbin, ilo, ihi, bsl)
  {
    var n := |wvfm|;
    var lo := peakbin - ilo;
    var integral := 0.0;
    var j := -ilo;
    while j <= ihi
      invariant -ilo <= j <= if -ilo <= ihi then ihi + 1 else -ilo
      invariant forall x :: lo <= x < peakbin + j ==> InBounds(x, n)
      invariant j > -ilo ==> InBounds(lo, n) && InBounds(peakbin + j - 1, n)
      invariant j > -ilo ==> integral == Sum(wvfm, lo, peakbin + j - 1, bsl)
      invariant j == -ilo ==> integral == 0.0
      decreases ihi - j
    {
      var x := peakbin + j;
      if !(0 <= x < n) {
        assert FirstOutOfRange(lo, peakbin + ihi, n) == Some(x);
        return Failure(OutOfRange(x));
      }
      integral := integral + (wvfm[x] - bsl);
      j := j + 1;
    }
    assert FirstOutOfRange(lo, peakbin + ihi, n) == None;
    return Success(integral);
  }

  /** A zero-mode or threshold-mode integral: the left bound search, the
      right bound search, the decrement of both, and the sum. */
  method IntegrateWalked(wvfm: seq<real>, peakbin: int, level: real, bsl: real, cap: Option<nat>)
    returns (r: Result<real, Fault>)
    requires cap != Some(0)
    ensures r == WalkedIntegral(wvfm, peakbin, level, bsl, cap)
  {
    var lo := WalkBound(wvfm, peakbin, Left, level, bsl, cap);
    if lo.Failure? {
      return Failure(lo.error);
    }
    var hi := WalkBound(wvfm, peakbin, Right, level, bsl, cap);
    if hi.Failure? {
      return Failure(hi.error);
    }
    var ilo := lo.value as int - 1;
    var ihi := hi.value as int - 1;
    r := SumWindow(wvfm, peakbin, ilo, ihi, bsl);
  }

  /** What the walked window is. When the peak's own sample does not exceed
      the level the window is empty (`ilo == ihi == -1`). Otherwise it is a
      contiguous range around the peak in which every sample exceeds the
      level; without a cap, the samples just outside it do not exceed it;
      with a cap, each half-width is at most the cap less one and a side
      that is not at that width ends at a sample that does not exceed. A
      walk that throws does so at index -1 or at the trace length. */
  lemma WalkedWindowCharacterised(trace: seq<real>, peak: int, level: real, bsl: real, cap: Option<nat>)
    requires cap != Some(0)
    ensures var w := WalkedWindow(trace, peak, level, bsl, cap);
            w.Success? ==>
              var (ilo, ihi) := w.value;
              InBounds(peak, |trace|)
              && ((ilo == -1 && ihi == -1 && !Exceeds(trace, peak, level, bsl))
                  || (ilo >= 0 && ihi >= 0
                      && (forall x :: peak - ilo <= x <= peak + ihi ==> Exceeds(trace, x, level, bsl))
                      && (cap.None? ==> !Exceeds(trace, peak - ilo - 1, level, bsl)
                                        && !Exceeds(trace, peak + ihi + 1, level, bsl)
                                        && InBounds(peak - ilo - 1, |trace|) && InBounds(peak + ihi + 1, |trace|))
                      && (cap.Some? ==> ilo <= cap.value - 1 && ihi <= cap.value - 1
                                        && (ilo == cap.value - 1 || !Exceeds(trace, peak - ilo - 1, level, bsl))
                                        && (ihi == cap.value - 1 || !Exceeds(trace, peak + ihi + 1, level, bsl)))))
    ensures var w := WalkedWindow(trace, peak, level, bsl, cap);
            w.Failure? ==> w.error in {OutOfRange(peak), OutOfRange(-1), OutOfRange(|trace|)}
  {
    if InBounds(peak, |trace|) {
      var l := WalkFrom(trace, peak, Left, level, bsl, cap, 0);
      var r := WalkFrom(trace, peak, Right, level, bsl, cap, 0);
      if l.Success? && r.Success? {
        if l.value > 0 && r.value > 0 {
          forall x | peak - (l.value - 1) <= x <= peak + (r.value - 1)
            ensures Exceeds(trace, x, level, bsl)
          {
            if x <= peak {
              assert x == Offset(peak, Left, peak - x);
            } else {
              assert x == Offset(peak, Right, x - peak);
            }
          }
        }
      }
    }
  }

  /** When the peak's own sample does not exceed the level, both walks stop
      at once and the integral is 0. */
  lemma PeakAtOrBelowLevelIntegratesToZero(trace: seq<real>, peak: int, level: real, bsl: real, cap: Option<nat>)
    requires cap != Some(0)
    requires InBounds(peak, |trace|) && trace[peak] - bsl <= level
    ensures WalkedIntegral(trace, peak, level, bsl, cap) == Success(0.0)
  {
    assert WalkedWindow(trace, peak, level, bsl, cap) == Success((-1, -1));
    assert FirstOutOfRange(peak + 1, peak - 1, |trace|) == None;
  }

  /** A fixed window [peak - lo, peak + hi] throws exactly when it is not
      empty and leaves the trace, and otherwise sums `lo + hi + 1` terms
      `trace[x] - bsl` (none when that count is not positive). */
  lemma ManualWindow(trace: seq<real>, peak: int, lo: int, hi: int, bsl: real)
    ensures Window(trace, peak, lo, hi, bsl).Failure? <==>
            lo + hi >= 0 && (peak - lo < 0 || peak + hi >= |trace|)
    ensures Window(trace, peak, lo, hi, bsl).Success? && lo + hi >= 0 ==>
            0 <= peak - lo && peak + hi < |trace|
            && Window(trace, peak, lo, hi, bsl).value == Sum(trace, peak - lo, peak + hi, bsl)
    ensures lo + hi < 0 ==> Window(trace, peak, lo, hi, bsl) == Success(0.0)
  {
    if lo + hi >= 0 {
      assert InBounds(peak - lo, |trace|) && InBounds(peak + hi, |trace|) ==>
             FirstOutOfRange(peak - lo, peak + hi, |trace|) == None;
    }
  }

  /** Subtracting a baseline b from every summed sample lowers a window's
      sum by b once per sample. */
  lemma {:induction false} SumLessBaseline(trace: seq<real>, lo: int, hi: int, bsl: real)
    requires lo > hi || (0 <= lo && hi < |trace|)
    ensures Sum(trace, lo, hi, bsl) == Sum(trace, lo, hi, 0.0) - (if lo > hi then 0 else hi - lo + 1) as real * bsl
    decreases hi - lo
  {
    if lo <= hi {
      SumLessBaseline(trace, lo, hi - 1, bsl);
      var c := (if lo > hi - 1 then 0 else hi - 1 - lo + 1) as real;
      assert (c + 1.0) * bsl == c * bsl + bsl;
    }
  }

  /** Once both baseline reads are inside the trace (50 <= peak < n - 50),
      the walks stopped at 50 steps cannot leave it, so the
      baseline-subtracted zero-mode and threshold-mode integrals never throw,
      whatever the level. */
  lemma CappedWalksStayInside(trace: seq<real>, peak: int, level: real, bsl: real)
    requires BaselineOffset <= peak < |trace| - BaselineOffset
    ensures WalkedIntegral(trace, peak, level, bsl, Some(WalkCap)).Success?
  {
    var cap := Some(WalkCap);
    var l := WalkFrom(trace, peak, Left, level, bsl, cap, 0);
    var r := WalkFrom(trace, peak, Right, level, bsl, cap, 0);
    assert l.Success? && r.Success?;
    var ilo, ihi := l.value as int - 1, r.value as int - 1;
    assert WalkedWindow(trace, peak, level, bsl, cap) == Success((ilo, ihi));
    ManualWindow(trace, peak, ilo, ihi, bsl);
  }
}
