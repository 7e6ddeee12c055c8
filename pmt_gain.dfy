/** The analyzer itself: the per-pulse blocks as the loops the analyzer
    runs, and the analyzer object, whose channel table is fixed at
    construction and whose per-channel accumulators each event's waveforms
    update. Every method is proved to compute what the specification in
    GainAnalysis describes. */
module Analyzer {
  import opened Wrappers
  import ChannelTable
  import Noise
  import PulseFinder
  import PulseStages
  import Integrals
  import opened GainAnalysis

  /** The shape block: for each guarded peak, the isolation loop, then the
      shape loop into the channel's sums and one SPE counted. */
  method ShapeBlock(cfg: Config, c: ChannelHists, wvfm: seq<real>, beyond: int -> real, spet: seq<int>)
    returns (r: ChannelHists)
    ensures r == ShapeFold(cfg, c, wvfm, beyond, spet, |spet|)
  {
    r := c;
    for i := 0 to |spet|
      invariant r == ShapeFold(cfg, c, wvfm, beyond, spet, i)
    {
      var peakbin := spet[i];
      if peakbin - cfg.lowbin < 0 || peakbin + cfg.hibin > |wvfm| {
        continue;
      }
      var selected := PulseStages.IsSelected(spet, i, cfg.cut);
      if selected {
        var sums := PulseStages.AddShape(r.avgspe, wvfm, beyond, peakbin, cfg.lowbin);
        r := r.(avgspe := sums, navspes := r.navspes + 1);
      }
    }
  }

  /** The amplitude block: a checked read at each peak, appended to the
      amplitudes, and the SPE counted when the shape block is off. */
  method AmpBlock(cfg: Config, c: ChannelHists, wvfm: seq<real>, spet: seq<int>) returns (r: Stage)
    ensures r == AmpFold(cfg, c, wvfm, spet, |spet|)
  {
    var cur := c;
    for i := 0 to |spet|
      invariant AmpFold(cfg, c, wvfm, spet, i) == Stage(cur, None)
    {
      var peakbin := spet[i];
      if !(0 <= peakbin < |wvfm|) {
        AmpFaultEndsBlock(cfg, c, wvfm, spet, i + 1, |spet|);
        return Stage(cur, Some(OutOfRange(peakbin)));
      }
      var peakheight := wvfm[peakbin];
      cur := cur.(amp := cur.amp + [peakheight]);
      if !cfg.doAvgspe {
        cur := cur.(navspes := cur.navspes + 1);
      }
    }
    return Stage(cur, None);
  }

  /** One guarded peak of the block without baseline subtraction: the
      zero-mode and threshold-mode integrals with their bound searches, then
      the manual-mode integral, each filled as soon as it is computed. */
  method RawIntegralPeak(cfg: Config, c: ChannelHists, wvfm: seq<real>, thresh: real, peakbin: int) returns (r: Stage)
    requires |c.integ| == NIntegrals
    ensures r == RawIntegralStep(cfg, c, wvfm, thresh, peakbin)
  {
    if peakbin - cfg.lowbin < 0 || peakbin + cfg.hibin > |wvfm| {
      return Stage(c, None);
    }
    var zero := Integrals.IntegrateWalked(wvfm, peakbin, Integrals.RawZeroLevel, 0.0, None);
    if zero.Failure? {
      return Stage(c, Some(zero.error));
    }
    var cur := Fill(c, 0, zero.value);
    var threshold := Integrals.IntegrateWalked(wvfm, peakbin, thresh, 0.0, None);
    if threshold.Failure? {
      return Stage(cur, Some(threshold.error));
    }
    cur := Fill(cur, 1, threshold.value);
    var manual := Integrals.SumWindow(wvfm, peakbin, cfg.manualBoundLo, cfg.manualBoundHi, 0.0);
    if manual.Failure? {
      return Stage(cur, Some(manual.error));
    }
    cur := Fill(cur, 2, manual.value);
    if !cfg.doAvgspe && !cfg.doAmp {
      cur := cur.(navspes := cur.navspes + 1);
    }
    return Stage(cur, None);
  }

  /** The block without baseline subtraction over all peaks. */
  method RawIntegralBlock(cfg: Config, c: ChannelHists, wvfm: seq<real>, thresh: real, spet: seq<int>) returns (r: Stage)
    requires |c.integ| == NIntegrals
    ensures r == RawIntegralFold(cfg, c, wvfm, thresh, spet, |spet|)
  {
    var cur := c;
    for i := 0 to |spet|
      invariant RawIntegralFold(cfg, c, wvfm, thresh, spet, i) == Stage(cur, None)
    {
      var s := RawIntegralPeak(cfg, cur, wvfm, thresh, spet[i]);
      assert RawIntegralFold(cfg, c, wvfm, thresh, spet, i + 1) == s;
      if s.fault.Some? {
        RawIntegralFaultEndsBlock(cfg, c, wvfm, thresh, spet, i + 1, |spet|);
        return s;
      }
      cur := s.c;
    }
    return Stage(cur, None);
  }

  /** One guarded peak of the baseline-subtracted block: the checked reads
      50 samples before and after the peak and their average, then the
      zero-mode and threshold-mode integrals with walks stopped at 50 steps,
      which cannot leave the trace once both baseline reads succeeded, and
      the manual-mode integral. */
  method BaselineIntegralPeak(cfg: Config, c: ChannelHists, wvfm: seq<real>, thresh: real, peakbin: int) returns (r: Stage)
    requires |c.integ| == NIntegrals
    ensures r == BaselineIntegralStep(cfg, c, wvfm, thresh, peakbin)
  {
    if peakbin - cfg.lowbin < 0 || peakbin + cfg.hibin > |wvfm| {
      return Stage(c, None);
    }
    var low := peakbin - Integrals.BaselineOffset;
    if !(0 <= low < |wvfm|) {
      return Stage(c, Some(OutOfRange(low)));
    }
    var vallow := wvfm[low];
    var high := peakbin + Integrals.BaselineOffset;
    if !(0 <= high < |wvfm|) {
      return Stage(c, Some(OutOfRange(high)));
    }
    var valhi := wvfm[high];
    var bsl := (vallow + valhi) / 2.0;
    assert Integrals.LocalBaseline(wvfm, peakbin) == Success(bsl);
    Integrals.CappedWalksStayInside(wvfm, peakbin, Integrals.BaselineZeroLevel, bsl);
    Integrals.CappedWalksStayInside(wvfm, peakbin, thresh, bsl);
    var zero := Integrals.IntegrateWalked(wvfm, peakbin, Integrals.BaselineZeroLevel, bsl, Some(Integrals.WalkCap));
    var cur := Fill(c, 3, zero.value);
    var threshold := Integrals.IntegrateWalked(wvfm, peakbin, thresh, bsl, Some(Integrals.WalkCap));
    cur := Fill(cur, 4, threshold.value);
    var manual := Integrals.SumWindow(wvfm, peakbin, cfg.manualBoundLo, cfg.manualBoundHi, bsl);
    if manual.Failure? {
      return Stage(cur, Some(manual.error));
    }
    return Stage(Fill(cur, 5, manual.value), None);
  }

  /** The baseline-subtracted block over all peaks. */
  method BaselineIntegralBlock(cfg: Config, c: ChannelHists, wvfm: seq<real>, thresh: real, spet: seq<int>) returns (r: Stage)
    requires |c.integ| == NIntegrals
    ensures r == BaselineIntegralFold(cfg, c, wvfm, thresh, spet, |spet|)
  {
    var cur := c;
    for i := 0 to |spet|
      invariant BaselineIntegralFold(cfg, c, wvfm, thresh, spet, i) == Stage(cur, None)
    {
      var s := BaselineIntegralPeak(cfg, cur, wvfm, thresh, spet[i]);
      assert BaselineIntegralFold(cfg, c, wvfm, thresh, spet, i + 1) == s;
      if s.fault.Some? {
        BaselineIntegralFaultEndsBlock(cfg, c, wvfm, thresh, spet, i + 1, |spet|);
        return s;
      }
      cur := s.c;
    }
    return Stage(cur, None);
  }

  /** The enabled blocks in order, each skipped once one has thrown. */
  method RunBlocks(cfg: Config, c: ChannelHists, wvfm: seq<real>, beyond: int -> real, thresh: real, spet: seq<int>)
    returns (r: Stage)
    requires |c.integ| == NIntegrals
    ensures r == PulseBlocks(cfg, c, wvfm, beyond, thresh, spet)
  {
    r := Stage(c, None);
    if cfg.doAvgspe {
      var shaped := ShapeBlock(cfg, c, wvfm, beyond, spet);
      r := Stage(shaped, None);
    }
    if cfg.doAmp {
      r := AmpBlock(cfg, r.c, wvfm, spet);
    }
    if r.fault.None? && cfg.doInteg {
      r := RawIntegralBlock(cfg, r.c, wvfm, thresh, spet);
      if r.fault.None? {
        r := BaselineIntegralBlock(cfg, r.c, wvfm, thresh, spet);
      }
    }
  }

  /** Accumulators as the constructor books them: zero SPE counts, shape
      sums of `nbins` zero bins, and no amplitude or integral yet. */
  function Booked(nch: nat, nbins: nat): (h: Hists)
    ensures ValidHists(h, nch, nbins)
    ensures forall p :: 0 <= p < nch ==>
              Get(h, p) == ChannelHists(0, seq(nbins, _ => 0.0), [], [[], [], [], [], [], []])
  {
    Hists(seq(nch, _ => 0), seq(nch, _ => seq(nbins, _ => 0.0)), seq(nch, _ => []),
          seq(NIntegrals, _ => seq(nch, _ => [])))
  }

  /** The booking loop: one zeroed set of accumulators per table entry. */
  method Book(nch: nat, nbins: nat) returns (h: Hists)
    ensures h == Booked(nch, nbins)
  {
    var navspes, avgspe, amp := [], [], [];
    var integ0, integ1, integ2, integ3, integ4, integ5 := [], [], [], [], [], [];
    for ihist := 0 to nch
      invariant navspes == seq(ihist, _ => 0)
      invariant avgspe == seq(ihist, _ => seq(nbins, _ => 0.0))
      invariant amp == seq(ihist, _ => [])
      invariant integ0 == integ1 == integ2 == seq(ihist, _ => [])
      invariant integ3 == integ4 == integ5 == seq(ihist, _ => [])
    {
      avgspe := avgspe + [seq(nbins, _ => 0.0)];
      navspes := navspes + [0];
      amp := amp + [[]];
      integ0 := integ0 + [[]];
      integ1 := integ1 + [[]];
      integ2 := integ2 + [[]];
      integ3 := integ3 + [[]];
      integ4 := integ4 + [[]];
      integ5 := integ5 + [[]];
    }
    h := Hists(navspes, avgspe, amp, [integ0, integ1, integ2, integ3, integ4, integ5]);
    assert h.integ == Booked(nch, nbins).integ;
  }

  /** The analyzer module: its configuration, its table of PMT channels,
      and per channel the SPE count, the shape sums, the amplitudes and six
      lists of integrals. */
  class PMTGain {
    const cfg: Config
    const pmtIndexingVector: seq<int>
    var navspes: seq<int>
    var avgspe: seq<seq<real>>
    var amp: seq<seq<real>>
    var integ0: seq<seq<real>>
    var integ1: seq<seq<real>>
    var integ2: seq<seq<real>>
    var integ3: seq<seq<real>>
    var integ4: seq<seq<real>>
    var integ5: seq<seq<real>>

    /** The accumulators as the specification sees them. */
    function State(): Hists
      reads this
    {
      Hists(navspes, avgspe, amp, [integ0, integ1, integ2, integ3, integ4, integ5])
    }

    /** One accumulator per table entry, shape sums of `NBINS` bins, and a
        start index that fits the analyzer's 32-bit parameter. */
    predicate Valid()
      reads this
    {
      ValidHists(State(), |pmtIndexingVector|, NBins(cfg))
      && -PulseFinder.IntMax - 1 <= cfg.speRegionStart <= PulseFinder.IntMax
    }

    /** The constructor: the channel table, then one booked set of
        accumulators per table entry. */
    constructor(cfg: Config, isXArapuca: int -> bool)
      requires cfg.useAllPMTs || |cfg.selectedPMTs| > 0
      requires -PulseFinder.IntMax - 1 <= cfg.speRegionStart <= PulseFinder.IntMax
      ensures Valid() && this.cfg == cfg
      ensures State() == Booked(|pmtIndexingVector|, NBins(cfg))
      ensures ChannelTable.StrictlyIncreasing(pmtIndexingVector)
      ensures forall k :: 0 <= k < |pmtIndexingVector| ==>
                0 <= pmtIndexingVector[k] < ChannelTable.NPDS && !isXArapuca(pmtIndexingVector[k])
      ensures cfg.useAllPMTs ==> pmtIndexingVector == ChannelTable.PMTsBelow(isXArapuca, ChannelTable.NPDS)
      ensures !cfg.useAllPMTs ==>
                |pmtIndexingVector| <= |cfg.selectedPMTs|
                && forall k :: 0 <= k < |pmtIndexingVector| ==>
                  ChannelTable.Ordinal(isXArapuca, pmtIndexingVector[k]) == cfg.selectedPMTs[k]
    {
      this.cfg := cfg;
      var table := ChannelTable.BuildIndexingVector(isXArapuca, cfg.useAllPMTs, cfg.selectedPMTs);
      pmtIndexingVector := table;
      var booked := Book(|table|, NBins(cfg));
      navspes, avgspe, amp := booked.navspes, booked.avgspe, booked.amp;
      integ0, integ1, integ2 := booked.integ[0], booked.integ[1], booked.integ[2];
      integ3, integ4, integ5 := booked.integ[3], booked.integ[4], booked.integ[5];
      new;
      assert State().integ == booked.integ;
    }

    /** Writes one channel's accumulators back into the per-kind vectors. */
    method StoreChannel(pmt: int, c: ChannelHists)
      requires Valid() && 0 <= pmt < |pmtIndexingVector|
      requires |c.avgspe| == NBins(cfg) && |c.integ| == NIntegrals
      modifies this
      ensures Valid() && State() == Put(old(State()), pmt, c)
    {
      var h := Put(State(), pmt, c);
      PutGet(State(), |pmtIndexingVector|, NBins(cfg), pmt, c);
      navspes, avgspe, amp := h.navspes, h.avgspe, h.amp;
      integ0, integ1, integ2 := h.integ[0], h.integ[1], h.integ[2];
      integ3, integ4, integ5 := h.integ[3], h.integ[4], h.integ[5];
      assert State().integ == h.integ;
    }

    /** The part of one waveform's analysis that leaves the accumulators
        alone: the channel lookup and the detector type check, the minimum
        search, the noise stage and the pulse finder. */
    method Examine(env: Env, idx: nat, w: Waveform) returns (o: Outcome)
      requires Valid() && |w.samples| <= PulseFinder.IntMax
      ensures o == WaveformOutcome(cfg, pmtIndexingVector, env, idx, w)
    {
      var pmtCounter := ChannelTable.GetPMTIndex(pmtIndexingVector, w.channel);
      if pmtCounter == -1 || !env.plotted(w.channel) {
        return Skipped;
      }
      var highestbin := Noise.FirstMinimum(w.samples);
      var windows := env.noiseWindows(highestbin, |w.samples|);
      var noise := Noise.EstimateNoise(w.samples, env.rawBeyond(idx), windows, highestbin);
      match noise {
        case Thrown(f) =>
          return NoiseThrew(f);
        case NoNoiseSamples =>
          return NoNoise;
        case Estimated(stats, wvfm) =>
          Noise.EstimatedParts(w.samples, env.rawBeyond(idx), windows, highestbin);
          var thresh := env.threshold(stats.totalvar, stats.m);
          var spet, capHits := PulseFinder.FindPulses(wvfm, thresh, cfg.speRegionStart);
          return Found(pmtCounter, wvfm, env.traceBeyond(idx), thresh, spet, capHits);
      }
    }

    /** One waveform of the event loop: its examination, then the failure
        counts of the noise stage and of the pulse finder, and with pulses
        the enabled blocks on the channel's accumulators; the counts come
        back updated. */
    method AnalyzeWaveform(env: Env, t: Tally, idx: nat, w: Waveform) returns (t': Tally, fault: Option<Fault>)
      requires Valid() && |w.samples| <= PulseFinder.IntMax
      modifies this
      ensures Valid()
      ensures var o := WaveformOutcome(cfg, pmtIndexingVector, env, idx, w);
              var r := WaveformStep(cfg, |pmtIndexingVector|, old(State()), t, o);
              State() == r.h && t' == r.tally && fault == r.fault
    {
      var o := Examine(env, idx, w);
      match o {
        case Skipped =>
          return t, None;
        case NoiseThrew(f) =>
          return t, Some(f);
        case NoNoise =>
          return t.(failed := t.failed + 1), None;
        case Found(pmtCounter, wvfm, beyond, thresh, spet, capHits) =>
          t' := t.(failed := t.failed + capHits);
          if |spet| == 0 {
            return t'.(failed := t'.failed + 1), None;
          }
          var s := RunBlocks(cfg, Get(State(), pmtCounter), wvfm, beyond, thresh, spet);
          StoreChannel(pmtCounter, s.c);
          if s.fault.Some? {
            return t', s.fault;
          }
          return t'.(success := t'.success + 1, totalNspe := t'.totalNspe + |spet|), None;
      }
    }

    /** The analysis of one event: the waveform loop with its success and
        failure counts and the total SPE count, starting from zero; an
        exception ends the loop and is passed on. */
    method Analyze(env: Env, ws: seq<Waveform>) returns (tally: Tally, fault: Option<Fault>)
      requires Valid() && forall i :: 0 <= i < |ws| ==> |ws[i].samples| <= PulseFinder.IntMax
      modifies this
      ensures Valid()
      ensures var r := Event(cfg, pmtIndexingVector, env, old(State()), ws);
              State() == r.h && tally == r.tally && fault == r.fault
    {
      ghost var os := Outcomes(cfg, pmtIndexingVector, env, ws);
      assert FitsTable(os, |pmtIndexingVector|);
      tally := Tally(0, 0, 0);
      for i := 0 to |ws|
        invariant Valid()
        invariant var r := EventFold(cfg, |pmtIndexingVector|, old(State()), os, i);
                  State() == r.h && tally == r.tally && r.fault.None?
      {
        ghost var before := State();
        var t, f := AnalyzeWaveform(env, tally, i, ws[i]);
        assert os[i] == WaveformOutcome(cfg, pmtIndexingVector, env, i, ws[i]);
        assert EventFold(cfg, |pmtIndexingVector|, old(State()), os, i + 1)
            == WaveformStep(cfg, |pmtIndexingVector|, before, tally, os[i]);
        if f.Some? {
          FaultEndsEvent(cfg, |pmtIndexingVector|, old(State()), os, i + 1, |ws|);
          return t, f;
        }
        tally := t;
      }
      return tally, None;
    }
  }
}
