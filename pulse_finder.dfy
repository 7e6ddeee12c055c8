/** The threshold pulse finder: a scan of the baseline-corrected trace from
    the configured start index that opens a pulse on a sample strictly above
    the threshold, follows the running maximum while the pulse is open, and
    closes it on the first sample strictly below the threshold, recording
    the maximum's index when the pulse was long enough.

    `Step` and `ScanTo` are the specification; `FindPulses` is the loop as
    the analyzer runs it and is proved equal to it. The records of which
    samples opened and closed each recorded pulse (`Scan.pulses`) exist only
    to state what the recorded peaks are; the analyzer does not keep them. */
module PulseFinder {
  import opened Wrappers

  /** The peak count at which the analyzer reports a failed threshold, once
      per further sample while the count stays there. */
  const MaxPulses: nat := 200

  /** Largest value of a 32-bit signed `int`, the type of the waveform's
      sample count and of the scan counter. */
  const IntMax: int := 0x7fff_ffff

  /** The scan's state: outside a pulse, or inside one opened at `openAt`
      whose running maximum so far is `peakVal` at `peakIdx`. The running
      maximum starts from the analyzer's reset values, index 0 and value 0. */
  datatype FinderState = Idle | InPulse(openAt: int, peakIdx: int, peakVal: real)

  /** A recorded pulse: the sample that opened it and the one that closed it. */
  datatype Pulse = Pulse(openAt: int, closeAt: int)

  /** The scan after some prefix of the trace: its state, the recorded peak
      indices, how many times the "200 pulses" failure was counted, and the
      recorded pulses. */
  datatype Scan = Scan(state: FinderState, peaks: seq<int>, capHits: nat, pulses: seq<Pulse>)

  /** A running maximum: index and value. */
  datatype Peak = Peak(idx: int, val: real)

  /** The start the analyzer stores for a pulse opened at sample o: one
      sample earlier, unless that would not be positive. */
  function PulseStart(o: int): int
  {
    if o - 1 > 0 then o - 1 else o
  }

  /** One sample of the scan, at index `counter` with value `adc`: the next
      state and the peak index recorded, if any. The end index of a closing
      pulse is the closing sample itself, since the scan never reaches the
      end of the trace inside its loop. */
  function Step(s: FinderState, adc: real, counter: int, thr: real): (r: (FinderState, Option<int>))
    ensures r.1.Some? ==> s.InPulse? && adc < thr && r.0.Idle? && r.1.value == s.peakIdx
                          && counter - PulseStart(s.openAt) > 2
    ensures s.Idle? && r.0.InPulse? ==> adc > thr && r.0 == InPulse(counter, 0, 0.0)
    ensures s.Idle? ==> r.1.None? && (r.0.InPulse? <==> adc > thr)
    ensures s.InPulse? ==> (r.0.Idle? <==> adc < thr)
    ensures s.InPulse? && adc < thr ==> (r.1 == Some(s.peakIdx) <==> counter - PulseStart(s.openAt) > 2)
    ensures s.InPulse? && r.0.InPulse? ==>
              r.0.openAt == s.openAt && r.0.peakVal >= s.peakVal && (r.0.peakVal > s.peakVal ==> r.0.peakIdx == counter)
  {
    match s
    case Idle =>
      if adc > thr then (InPulse(counter, 0, 0.0), None) else (Idle, None)
    case InPulse(o, pi, pv) =>
      if adc < thr then (Idle, if counter - PulseStart(o) > 2 then Some(pi) else None)
      else if adc > pv then (InPulse(o, counter, adc), None)
      else (s, None)
  }

  /** The scan after the samples start..k-1. */
  function ScanTo(trace: seq<real>, thr: real, start: int, k: int): (r: Scan)
    requires 0 <= start <= k <= |trace|
    ensures |r.peaks| == |r.pulses| && |r.peaks| <= k - start && r.capHits <= k - start
    decreases k
  {
    if k == start then Scan(Idle, [], 0, [])
    else
      var prev := ScanTo(trace, thr, start, k - 1);
      var (next, rec) := Step(prev.state, trace[k - 1], k - 1, thr);
      var peaks := if rec.Some? then prev.peaks + [rec.value] else prev.peaks;
      var pulses := if rec.Some? then prev.pulses + [Pulse(prev.state.openAt, k - 1)] else prev.pulses;
      Scan(next, peaks, prev.capHits + (if |peaks| == MaxPulses then 1 else 0), pulses)
  }

  /** The whole scan. A start beyond the trace visits nothing, and so does a
      negative start: the loop index is unsigned, so a negative start wraps
      to a value above any 32-bit sample count. */
  function Finder(trace: seq<real>, thr: real, start: int): (r: Scan)
    ensures |r.peaks| == |r.pulses| && |r.peaks| <= |trace| && r.capHits <= |trace|
    ensures !(0 <= start <= |trace|) ==> r.peaks == [] && r.capHits == 0
  {
    if 0 <= start <= |trace| then ScanTo(trace, thr, start, |trace|)
    else Scan(Idle, [], 0, [])
  }

  /** The conversion of a 32-bit signed value to a 32-bit unsigned one. */
  function AsUnsigned32(x: int): (r: int)
    requires -IntMax - 1 <= x <= IntMax
    ensures 0 <= r < 0x1_0000_0000
    ensures r % 0x1_0000_0000 == x % 0x1_0000_0000
  {
    if x < 0 then x + 0x1_0000_0000 else x
  }

  /** The pulse finder as the analyzer runs it: the `fire` flag, the running
      `pulse_peak` and `pulse_t_peak`, the stored start, the peak list and
      count, and the failure count for the 200-pulse check, over an
      unsigned loop index starting at `speRegionStart`. The result is the
      specification's scan. */
  method FindPulses(wvfm: seq<real>, thresh: real, speRegionStart: int)
    returns (pulseTPeakV: seq<int>, capHits: nat)
    requires |wvfm| <= IntMax
    requires -IntMax - 1 <= speRegionStart <= IntMax
    ensures pulseTPeakV == Finder(wvfm, thresh, speRegionStart).peaks
    ensures capHits == Finder(wvfm, thresh, speRegionStart).capHits
  {
    var fire := false;
    var peakCount := 0;
    pulseTPeakV := [];
    capHits := 0;
    var pulsePeak := 0.0;
    var pulseTStart := 0;
    var pulseTPeak := 0;
    ghost var openAt := 0;
    ghost var pulses: seq<Pulse> := [];
    var counter := speRegionStart;
    var i := AsUnsigned32(speRegionStart);
    ghost var iterating := i < |wvfm|;
    while i < |wvfm|
      invariant !iterating ==> i >= |wvfm| && pulseTPeakV == [] && capHits == 0
      invariant iterating ==> 0 <= speRegionStart <= counter == i <= |wvfm|
      invariant iterating ==>
                  ScanTo(wvfm, thresh, speRegionStart, counter)
                  == Scan(if fire then InPulse(openAt, pulseTPeak, pulsePeak) else Idle,
                          pulseTPeakV, capHits, pulses)
      invariant !fire ==> pulsePeak == 0.0 && pulseTPeak == 0
      invariant fire ==> pulseTStart == PulseStart(openAt)
      invariant peakCount == |pulseTPeakV|
      decreases |wvfm| - i
    {
      var adc := wvfm[counter];
      if !fire && adc > thresh {
        fire := true;
        pulseTStart := if counter - 1 > 0 then counter - 1 else counter;
        openAt := counter;
      } else if fire && adc < thresh {
        fire := false;
        var pulseTEnd := if counter < |wvfm| then counter else counter - 1;
        if pulseTEnd - pulseTStart > 2 {
          pulseTPeakV := pulseTPeakV + [pulseTPeak];
          pulses := pulses + [Pulse(openAt, counter)];
          peakCount := peakCount + 1;
        }
        pulsePeak, pulseTStart, pulseTEnd, pulseTPeak := 0.0, 0, 0, 0;
      } else if fire {
        if adc > pulsePeak {
          pulsePeak := adc;
          pulseTPeak := counter;
        }
      }
      counter := counter + 1;
      if peakCount == MaxPulses {
        capHits := capHits + 1;
      }
      i := i + 1;
    }
    if !iterating && 0 <= speRegionStart <= |wvfm| {
      assert speRegionStart == |wvfm|;
    }
  }

  /** The running maximum over the samples lo..hi-1 as the open pulse keeps
      it: starting from index 0 and value 0, a sample replaces it only when
      strictly greater. */
  function FirstPeak(trace: seq<real>, lo: int, hi: int): Peak
    requires 0 <= lo && hi <= |trace|
    decreases hi - lo
  {
    if hi <= lo then Peak(0, 0.0)
    else
      var p := FirstPeak(trace, lo, hi - 1);
      if trace[hi - 1] > p.val then Peak(hi - 1, trace[hi - 1]) else p
  }

  /** The running maximum is the first maximum of the samples when some
      sample is positive, and the reset values (index 0, value 0) when none
      is. */
  lemma {:induction false} FirstPeakIsFirstMaximum(trace: seq<real>, lo: int, hi: int)
    requires 0 <= lo && hi <= |trace|
    ensures var p := FirstPeak(trace, lo, hi);
            (p.val > 0.0 <==> exists j :: lo <= j < hi && trace[j] > 0.0)
            && (p.val <= 0.0 ==> p == Peak(0, 0.0))
            && (p.val > 0.0 ==> lo <= p.idx < hi && trace[p.idx] == p.val
                                && (forall j :: lo <= j < p.idx ==> trace[j] < p.val)
                                && (forall j :: lo <= j < hi ==> trace[j] <= p.val))
    decreases hi - lo
  {
    if hi > lo {
      FirstPeakIsFirstMaximum(trace, lo, hi - 1);
      var p := FirstPeak(trace, lo, hi - 1);
      if trace[hi - 1] > p.val {
        assert trace[hi - 1] > 0.0 ==> lo <= hi - 1 < hi;
      } else {
        if p.val > 0.0 {
          var j :| lo <= j < hi - 1 && trace[j] > 0.0;
          assert lo <= j < hi && trace[j] > 0.0;
        }
      }
    }
  }

  /** A recorded pulse: opened within the scan by a sample strictly above
      the threshold, no sample strictly below it until the closing sample,
      which is strictly below it, and long enough to be recorded. */
  predicate ClosedPulse(trace: seq<real>, thr: real, start: int, p: Pulse)
  {
    0 <= start <= p.openAt < p.closeAt < |trace|
    && trace[p.openAt] > thr
    && (forall j :: p.openAt < j < p.closeAt ==> trace[j] >= thr)
    && trace[p.closeAt] < thr
    && p.closeAt - PulseStart(p.openAt) > 2
  }

  /** A pulse opened at o that is still open after the samples before k. */
  predicate OpenPulse(trace: seq<real>, thr: real, start: int, o: int, k: int)
  {
    0 <= start <= o < k <= |trace|
    && trace[o] > thr
    && (forall j :: o < j < k ==> trace[j] >= thr)
  }

  /** The recorded pulses follow each other in the trace. */
  predicate Ordered(pulses: seq<Pulse>)
  {
    forall q :: 0 <= q < |pulses| - 1 ==> pulses[q].closeAt < pulses[q + 1].openAt
  }

  /** What the scan holds after the samples before k: one recorded pulse
      per recorded peak, each peak the running maximum of its pulse's
      interior, the pulses in order and before the open one, and the open
      pulse's running maximum over its samples so far. */
  predicate ScanShape(trace: seq<real>, thr: real, start: int, k: int, r: Scan)
    requires 0 <= start <= k <= |trace|
  {
    |r.pulses| == |r.peaks|
    && (forall q :: 0 <= q < |r.pulses| ==>
          ClosedPulse(trace, thr, start, r.pulses[q]) && r.pulses[q].closeAt < k
          && r.peaks[q] == FirstPeak(trace, r.pulses[q].openAt + 1, r.pulses[q].closeAt).idx)
    && Ordered(r.pulses)
    && (r.state.InPulse? ==>
          OpenPulse(trace, thr, start, r.state.openAt, k)
          && Peak(r.state.peakIdx, r.state.peakVal) == FirstPeak(trace, r.state.openAt + 1, k)
          && (|r.pulses| > 0 ==> r.pulses[|r.pulses| - 1].closeAt < r.state.openAt))
  }

  /** Every prefix of the scan has the shape ScanShape describes. */
  lemma {:induction false} ScanHasShape(trace: seq<real>, thr: real, start: int, k: int)
    requires 0 <= start <= k <= |trace|
    ensures ScanShape(trace, thr, start, k, ScanTo(trace, thr, start, k))
    decreases k
  {
    if k > start {
      ScanHasShape(trace, thr, start, k - 1);
      var prev := ScanTo(trace, thr, start, k - 1);
      var r := ScanTo(trace, thr, start, k);
      match prev.state
      case Idle =>
        ShapeAfterIdle(trace, thr, start, k, prev, r);
      case InPulse(o, pi, pv) =>
        if trace[k - 1] < thr {
          ShapeAfterClose(trace, thr, start, k, prev, r);
        } else {
          ShapeInsidePulse(trace, thr, start, k, prev, r);
        }
    }
  }

  /** A sample read outside a pulse keeps the shape. */
  lemma ShapeAfterIdle(trace: seq<real>, thr: real, start: int, k: int, prev: Scan, r: Scan)
    requires 0 <= start < k <= |trace|
    requires ScanShape(trace, thr, start, k - 1, prev) && prev.state.Idle?
    requires r.peaks == prev.peaks && r.pulses == prev.pulses
    requires r.state == (if trace[k - 1] > thr then InPulse(k - 1, 0, 0.0) else Idle)
    ensures ScanShape(trace, thr, start, k, r)
  {
  }

  /** A sample strictly below the threshold inside a pulse closes it and
      keeps the shape, whether or not the pulse is recorded. */
  lemma ShapeAfterClose(trace: seq<real>, thr: real, start: int, k: int, prev: Scan, r: Scan)
    requires 0 <= start < k <= |trace|
    requires ScanShape(trace, thr, start, k - 1, prev) && prev.state.InPulse?
    requires trace[k - 1] < thr
    requires r.state == Idle
    requires var o := prev.state.openAt;
             if k - 1 - PulseStart(o) > 2
             then r.peaks == prev.peaks + [prev.state.peakIdx] && r.pulses == prev.pulses + [Pulse(o, k - 1)]
             else r.peaks == prev.peaks && r.pulses == prev.pulses
    ensures ScanShape(trace, thr, start, k, r)
  {
    var o := prev.state.openAt;
    if k - 1 - PulseStart(o) > 2 {
      ShapeAfterRecord(trace, thr, start, k, prev, r);
    }
  }

  /** A pulse closed long enough after its opening is recorded: its peak
      and the pulse are appended, and the shape is kept. */
  lemma ShapeAfterRecord(trace: seq<real>, thr: real, start: int, k: int, prev: Scan, r: Scan)
    requires 0 <= start < k <= |trace|
    requires ScanShape(trace, thr, start, k - 1, prev) && prev.state.InPulse?
    requires trace[k - 1] < thr && k - 1 - PulseStart(prev.state.openAt) > 2
    requires r.state == Idle
    requires r.peaks == prev.peaks + [prev.state.peakIdx]
    requires r.pulses == prev.pulses + [Pulse(prev.state.openAt, k - 1)]
    ensures ScanShape(trace, thr, start, k, r)
  {
    var o := prev.state.openAt;
    assert ClosedPulse(trace, thr, start, Pulse(o, k - 1));
    forall q | 0 <= q < |r.pulses|
      ensures ClosedPulse(trace, thr, start, r.pulses[q]) && r.pulses[q].closeAt < k
      ensures r.peaks[q] == FirstPeak(trace, r.pulses[q].openAt + 1, r.pulses[q].closeAt).idx
    {
      if q == |prev.pulses| {
        assert r.pulses[q] == Pulse(o, k - 1);
      } else {
        assert r.pulses[q] == prev.pulses[q] && r.peaks[q] == prev.peaks[q];
      }
    }
    forall q | 0 <= q < |r.pulses| - 1
      ensures r.pulses[q].closeAt < r.pulses[q + 1].openAt
    {
      if q == |prev.pulses| - 1 {
        assert r.pulses[q + 1] == Pulse(o, k - 1);
      } else {
        assert r.pulses[q] == prev.pulses[q] && r.pulses[q + 1] == prev.pulses[q + 1];
      }
    }
  }

  /** A sample at or above the threshold inside a pulse keeps the shape,
      updating the running maximum when it is strictly greater. */
  lemma ShapeInsidePulse(trace: seq<real>, thr: real, start: int, k: int, prev: Scan, r: Scan)
    requires 0 <= start < k <= |trace|
    requires ScanShape(trace, thr, start, k - 1, prev) && prev.state.InPulse?
    requires trace[k - 1] >= thr
    requires r.peaks == prev.peaks && r.pulses == prev.pulses
    requires r.state == if trace[k - 1] > prev.state.peakVal
                        then InPulse(prev.state.openAt, k - 1, trace[k - 1]) else prev.state
    ensures ScanShape(trace, thr, start, k, r)
  {
  }

  /** Each recorded peak index is the running maximum of the samples
      strictly between the opening and the closing sample of a recorded
      pulse: so the opening sample itself is never the peak. With a positive
      threshold the recorded peaks are strictly increasing, each is the
      first maximum of its pulse's interior, and all lie after the start and
      inside the trace. */
  lemma RecordedPeaks(trace: seq<real>, thr: real, start: int)
    requires 0 <= start <= |trace|
    ensures var r := Finder(trace, thr, start);
            |r.pulses| == |r.peaks|
            && forall q :: 0 <= q < |r.peaks| ==>
                 ClosedPulse(trace, thr, start, r.pulses[q])
                 && r.peaks[q] == FirstPeak(trace, r.pulses[q].openAt + 1, r.pulses[q].closeAt).idx
    ensures thr > 0.0 ==>
            var r := Finder(trace, thr, start);
            (forall q :: 0 <= q < |r.peaks| ==>
               r.pulses[q].openAt < r.peaks[q] < r.pulses[q].closeAt
               && start < r.peaks[q] < |trace|
               && (forall j :: r.pulses[q].openAt < j < r.pulses[q].closeAt ==> trace[j] <= trace[r.peaks[q]])
               && (forall j :: r.pulses[q].openAt < j < r.peaks[q] ==> trace[j] < trace[r.peaks[q]]))
            && (forall q1, q2 :: 0 <= q1 < q2 < |r.peaks| ==> r.peaks[q1] < r.peaks[q2])
  {
    ScanHasShape(trace, thr, start, |trace|);
    var r := Finder(trace, thr, start);
    if thr > 0.0 {
      forall q | 0 <= q < |r.peaks|
        ensures r.pulses[q].openAt < r.peaks[q] < r.pulses[q].closeAt
        ensures (forall j :: r.pulses[q].openAt < j < r.pulses[q].closeAt ==> trace[j] <= trace[r.peaks[q]])
        ensures (forall j :: r.pulses[q].openAt < j < r.peaks[q] ==> trace[j] < trace[r.peaks[q]])
      {
        var p := r.pulses[q];
        assert ClosedPulse(trace, thr, start, p);
        FirstPeakIsFirstMaximum(trace, p.openAt + 1, p.closeAt);
        assert trace[p.openAt + 1] >= thr;
      }
      forall q1, q2 | 0 <= q1 < q2 < |r.peaks|
        ensures r.peaks[q1] < r.peaks[q2]
      {
        OrderedTransitive(r.pulses, q1, q2);
      }
    }
  }

  /** In ordered pulses, an earlier pulse closes before a later one opens. */
  lemma {:induction false} OrderedTransitive(pulses: seq<Pulse>, q1: int, q2: int)
    requires Ordered(pulses)
    requires forall q :: 0 <= q < |pulses| ==> pulses[q].openAt < pulses[q].closeAt
    requires 0 <= q1 < q2 < |pulses|
    ensures pulses[q1].closeAt < pulses[q2].openAt
    decreases q2 - q1
  {
    if q2 > q1 + 1 {
      OrderedTransitive(pulses, q1, q2 - 1);
    }
  }

  /** When no sample from the start on exceeds the threshold, no pulse ever
      opens: nothing is recorded and no failure is counted. */
  lemma {:induction false} QuietTraceRecordsNothing(trace: seq<real>, thr: real, start: int, k: int)
    requires 0 <= start <= k <= |trace|
    requires forall j :: start <= j < k ==> trace[j] <= thr
    ensures ScanTo(trace, thr, start, k) == Scan(Idle, [], 0, [])
    decreases k
  {
    if k > start {
      QuietTraceRecordsNothing(trace, thr, start, k - 1);
    }
  }

  /** A pulse still open when the samples from k on never drop below the
      threshold is never closed and so never recorded: the peaks at the end
      of the trace are those recorded before k. */
  lemma {:induction false} OpenTailIsDropped(trace: seq<real>, thr: real, start: int, k: int, n: int)
    requires 0 <= start <= k <= n <= |trace|
    requires ScanTo(trace, thr, start, k).state.InPulse?
    requires forall j :: k <= j < n ==> trace[j] >= thr
    ensures ScanTo(trace, thr, start, n).state.InPulse?
    ensures ScanTo(trace, thr, start, n).state.openAt == ScanTo(trace, thr, start, k).state.openAt
    ensures ScanTo(trace, thr, start, n).peaks == ScanTo(trace, thr, start, k).peaks
    ensures ScanTo(trace, thr, start, n).pulses == ScanTo(trace, thr, start, k).pulses
    decreases n
  {
    if n > k {
      OpenTailIsDropped(trace, thr, start, k, n - 1);
    }
  }

  /** Outside a pulse, samples not above the threshold open nothing: the
      scan stays idle and records nothing. */
  lemma {:induction false} IdleWhileQuiet(trace: seq<real>, thr: real, start: int, k: int, n: int)
    requires 0 <= start <= k <= n <= |trace|
    requires ScanTo(trace, thr, start, k).state.Idle?
    requires forall j :: k <= j < n ==> trace[j] <= thr
    ensures ScanTo(trace, thr, start, n).state.Idle?
    ensures ScanTo(trace, thr, start, n).peaks == ScanTo(trace, thr, start, k).peaks
    ensures ScanTo(trace, thr, start, n).pulses == ScanTo(trace, thr, start, k).pulses
    decreases n
  {
    if n > k {
      IdleWhileQuiet(trace, thr, start, k, n - 1);
    }
  }

  /** The converse of RecordedPeaks: from any point where the scan is
      idle, the next pulse (opened at o by a sample strictly above the
      threshold, closed at c by the first sample strictly below it) is
      recorded, with its running maximum as the peak, exactly when it
      closes more than 2 samples after its stored start; either way the
      scan is idle again after c. */
  lemma PulseIsRecorded(trace: seq<real>, thr: real, start: int, k: int, o: int, c: int)
    requires 0 <= start <= k <= o < c < |trace|
    requires ScanTo(trace, thr, start, k).state.Idle?
    requires forall j :: k <= j < o ==> trace[j] <= thr
    requires trace[o] > thr
    requires forall j :: o < j < c ==> trace[j] >= thr
    requires trace[c] < thr
    ensures var before := ScanTo(trace, thr, start, k);
            var after := ScanTo(trace, thr, start, c + 1);
            after.state.Idle?
            && (c - PulseStart(o) > 2 ==>
                  after.peaks == before.peaks + [FirstPeak(trace, o + 1, c).idx]
                  && after.pulses == before.pulses + [Pulse(o, c)])
            && (c - PulseStart(o) <= 2 ==> after.peaks == before.peaks && after.pulses == before.pulses)
  {
    IdleWhileQuiet(trace, thr, start, k, o);
    assert ScanTo(trace, thr, start, o + 1).state == InPulse(o, 0, 0.0);
    OpenTailIsDropped(trace, thr, start, o + 1, c);
    ScanHasShape(trace, thr, start, c);
    var at := ScanTo(trace, thr, start, c);
    assert at.state.openAt == o && at.state.peakIdx == FirstPeak(trace, o + 1, c).idx;
  }

  /** A single pulse after a quiet stretch from the start, long enough to
      be recorded, is recorded: its running maximum is the only peak. */
  lemma IsolatedPulseIsRecorded(trace: seq<real>, thr: real, start: int, o: int, c: int)
    requires 0 <= start <= o < c < |trace|
    requires forall j :: start <= j < o ==> trace[j] <= thr
    requires trace[o] > thr
    requires forall j :: o < j < c ==> trace[j] >= thr
    requires trace[c] < thr
    requires c - PulseStart(o) > 2
    ensures ScanTo(trace, thr, start, c + 1).peaks == [FirstPeak(trace, o + 1, c).idx]
  {
    PulseIsRecorded(trace, thr, start, start, o, c);
  }

  /** The 200-pulse check does not stop the scan: the failure count is
      positive exactly when at least 200 peaks end up recorded, since the
      peak list grows by at most one per sample. */
  lemma {:induction false} CapOnlyCounts(trace: seq<real>, thr: real, start: int, k: int)
    requires 0 <= start <= k <= |trace|
    ensures ScanTo(trace, thr, start, k).capHits > 0 <==> |ScanTo(trace, thr, start, k).peaks| >= MaxPulses
    decreases k
  {
    if k > start {
      CapOnlyCounts(trace, thr, start, k - 1);
    }
  }

  /** Every peak index the scan records lies inside the trace, whatever the
      threshold: it is a sample index or the reset value 0. */
  lemma PeaksInsideTrace(trace: seq<real>, thr: real, start: int)
    requires 0 <= start <= |trace|
    ensures forall q :: 0 <= q < |Finder(trace, thr, start).peaks| ==>
              InBounds(Finder(trace, thr, start).peaks[q], |trace|)
  {
    ScanHasShape(trace, thr, start, |trace|);
    var r := Finder(trace, thr, start);
    forall q | 0 <= q < |r.peaks|
      ensures InBounds(r.peaks[q], |trace|)
    {
      var p := r.pulses[q];
      FirstPeakIsFirstMaximum(trace, p.openAt + 1, p.closeAt);
    }
  }

  /** With a zero threshold a pulse whose interior never rises above 0 is
      recorded at the reset index 0, before the scan's start: the trace
      [0, 1, 0, 0, 0, -1] scanned from 1 records the peak index 0. */
  lemma ResetPeakIsRecorded()
    ensures Finder([0.0, 1.0, 0.0, 0.0, 0.0, -1.0], 0.0, 1).peaks == [0]
  {
    var t := [0.0, 1.0, 0.0, 0.0, 0.0, -1.0];
    assert ScanTo(t, 0.0, 1, 2).state == InPulse(1, 0, 0.0);
    assert ScanTo(t, 0.0, 1, 3).state == InPulse(1, 0, 0.0);
    assert ScanTo(t, 0.0, 1, 4).state == InPulse(1, 0, 0.0);
    assert ScanTo(t, 0.0, 1, 5).state == InPulse(1, 0, 0.0);
    assert ScanTo(t, 0.0, 1, 5).peaks == [];
  }
}
