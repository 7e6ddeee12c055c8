/** The specification of the analyzer's per-event work: for each waveform
    of the event, the channel lookup, the noise stage, the pulse finder, the
    per-pulse blocks that fill the channel's accumulators, and the success
    and failure counts.

    What the model takes as given rather than computing: whether a
    channel's detector type is among those to analyze (`plotted`), the
    noise windows the analyzer derives by truncating `factor * index` in
    double precision (`noiseWindows`), the threshold `sqrt(totalvar / m) *
    nstdev` (`threshold`), and what lies in memory just past a waveform's
    raw samples and corrected trace (`rawBeyond`, `traceBeyond`, by the
    waveform's position in the event). */
module GainAnalysis {
  import opened Wrappers
  import ChannelTable
  import Noise
  import PulseFinder
  import PulseStages
  import Integrals

  /** The analyzer's configuration. */
  datatype Config = Config(
    useAllPMTs: bool,
    selectedPMTs: seq<nat>,
    lowbin: int,
    hibin: int,
    speRegionStart: int,
    manualBoundLo: int,
    manualBoundHi: int,
    cut: bool,
    doAvgspe: bool,
    doAmp: bool,
    doInteg: bool)

  /** Number of bins of a shape histogram, `hibin + lowbin + 1`; none when
      that is not positive. */
  function NBins(cfg: Config): nat
  {
    if cfg.hibin + cfg.lowbin + 1 > 0 then cfg.hibin + cfg.lowbin + 1 else 0
  }

  /** What the analyzer depends on and this model does not compute. */
  datatype Env = Env(
    plotted: int -> bool,
    noiseWindows: (int, nat) -> Noise.NoiseWindows,
    threshold: (real, nat) -> real,
    rawBeyond: nat -> (int -> int),
    traceBeyond: nat -> (int -> real))

  datatype Waveform = Waveform(channel: int, samples: seq<int>)

  /** The event's counts of analyzed and failed waveforms and of SPEs. */
  datatype Tally = Tally(success: nat, failed: nat, totalNspe: nat)

  /** Number of integral kinds: zero, threshold and manual mode, without
      (0, 1, 2) and with (3, 4, 5) local baseline subtraction. */
  const NIntegrals: nat := 6

  /** One channel's accumulators: its SPE count, shape sums, amplitudes and
      the six lists of integrals. */
  datatype ChannelHists = ChannelHists(navspes: int, avgspe: seq<real>, amp: seq<real>, integ: seq<seq<real>>)


  /** All channels' accumulators as the analyzer keeps them: one vector per
      kind, indexed by PMT index; `integ[v][pmt]` holds the integrals of
      kind v. */
  datatype Hists = Hists(navspes: seq<int>, avgspe: seq<seq<real>>, amp: seq<seq<real>>, integ: seq<seq<seq<real>>>)

  /** Every vector has one entry per channel, and there are six kinds of
      integral. */
  predicate Shaped(h: Hists, nch: nat)
  {
    |h.navspes| == nch && |h.avgspe| == nch && |h.amp| == nch && |h.integ| == NIntegrals
    && forall v :: 0 <= v < NIntegrals ==> |h.integ[v]| == nch
  }

  /** Shaped, and every channel's shape sums have `nbins` bins. */
  predicate ValidHists(h: Hists, nch: nat, nbins: nat)
  {
    Shaped(h, nch) && forall p :: 0 <= p < nch ==> |h.avgspe[p]| == nbins
  }

  /** The accumulators of the channel at position pmt. */
  function Get(h: Hists, pmt: int): (c: ChannelHists)
    requires Shaped(h, |h.navspes|) && 0 <= pmt < |h.navspes|
    ensures |c.integ| == NIntegrals && c.avgspe == h.avgspe[pmt]
  {
    ChannelHists(h.navspes[pmt], h.avgspe[pmt], h.amp[pmt],
                 seq(NIntegrals, v requires 0 <= v < NIntegrals => h.integ[v][pmt]))
  }

  /** The accumulators with the channel at position pmt replaced. */
  function Put(h: Hists, pmt: int, c: ChannelHists): Hists
    requires Shaped(h, |h.navspes|) && 0 <= pmt < |h.navspes| && |c.integ| == NIntegrals
  {
    Hists(h.navspes[pmt := c.navspes], h.avgspe[pmt := c.avgspe], h.amp[pmt := c.amp],
          seq(NIntegrals, v requires 0 <= v < NIntegrals => h.integ[v][pmt := c.integ[v]]))
  }

  /** Putting a channel changes that channel and no other, and keeps the
      accumulators well formed. */
  lemma PutGet(h: Hists, nch: nat, nbins: nat, pmt: int, c: ChannelHists)
    requires ValidHists(h, nch, nbins) && 0 <= pmt < nch
    requires |c.avgspe| == nbins && |c.integ| == NIntegrals
    ensures ValidHists(Put(h, pmt, c), nch, nbins)
    ensures Get(Put(h, pmt, c), pmt) == c
    ensures forall p :: 0 <= p < nch && p != pmt ==> Get(Put(h, pmt, c), p) == Get(h, p)
  {
    var h' := Put(h, pmt, c);
    assert Get(h', pmt).integ == c.integ;
    forall p | 0 <= p < nch && p != pmt
      ensures Get(h', p) == Get(h, p)
    {
      assert Get(h', p).integ == Get(h, p).integ;
    }
  }

  /** Appends an integral of kind v to a channel. */
  function Fill(c: ChannelHists, v: nat, value: real): ChannelHists
    requires v < |c.integ|
  {
    c.(integ := c.integ[v := c.integ[v] + [value]])
  }

  /** The accumulators only grow: the shape sums keep their bin count,
      amplitudes and integrals are only appended, and the SPE count never
      decreases. */
  predicate Grows(c: ChannelHists, r: ChannelHists)
  {
    |r.avgspe| == |c.avgspe| && c.amp <= r.amp && |r.integ| == |c.integ|
    && (forall v :: 0 <= v < |c.integ| ==> c.integ[v] <= r.integ[v])
    && c.navspes <= r.navspes
  }

  lemma GrowsTransitive(a: ChannelHists, b: ChannelHists, c: ChannelHists)
    requires Grows(a, b) && Grows(b, c)
    ensures Grows(a, c)
  {
    forall v | 0 <= v < |a.integ|
      ensures a.integ[v] <= c.integ[v]
    {
      PrefixTransitive(a.integ[v], b.integ[v], c.integ[v]);
    }
    PrefixTransitive(a.amp, b.amp, c.amp);
  }

  lemma PrefixTransitive(a: seq<real>, b: seq<real>, c: seq<real>)
    requires a <= b && b <= c
    ensures a <= c
  {
    assert a == b[..|a|];
    assert b == c[..|b|];
    assert a == c[..|a|];
  }

  /** The shape sums keep their bin count and there are still six lists of
      integrals. */
  predicate SameShape(c: ChannelHists, r: ChannelHists)
  {
    |r.avgspe| == |c.avgspe| && |r.integ| == |c.integ|
  }

  /** A block's result: the accumulators reached, and the exception that
      ended the block, if any. */
  datatype Stage = Stage(c: ChannelHists, fault: Option<Fault>)

  /** Whether peak p passes the guard in front of the shape and integral
      blocks. */
  predicate Guarded(cfg: Config, p: int, n: int)
  {
    PulseStages.ShapeGuard(p, cfg.lowbin, cfg.hibin, n)
  }

  /** How many of the peaks 0..k-1 pass the guard. */
  function GuardedCount(cfg: Config, spet: seq<int>, n: int, k: int): (r: nat)
    requires 0 <= k <= |spet|
    ensures r <= k
  {
    if k == 0 then 0 else GuardedCount(cfg, spet, n, k - 1) + (if Guarded(cfg, spet[k - 1], n) then 1 else 0)
  }

  /** One step of GuardedCount, for callers that do not unfold it. */
  lemma GuardedCountStep(cfg: Config, spet: seq<int>, n: int, k: int)
    requires 0 < k <= |spet|
    ensures GuardedCount(cfg, spet, n, k)
            == GuardedCount(cfg, spet, n, k - 1) + (if Guarded(cfg, spet[k - 1], n) then 1 else 0)
  {
  }

  /** The peaks among 0..k-1 that pass the guard, in order. */
  function GuardedPeaks(cfg: Config, spet: seq<int>, n: int, k: int): (g: seq<int>)
    requires 0 <= k <= |spet|
    ensures |g| == GuardedCount(cfg, spet, n, k)
    ensures forall j :: 0 <= j < |g| ==> Guarded(cfg, g[j], n)
  {
    if k == 0 then []
    else GuardedPeaks(cfg, spet, n, k - 1) + (if Guarded(cfg, spet[k - 1], n) then [spet[k - 1]] else [])
  }

  /** What the shape block adds to entry b of the shape sums over the peaks
      0..k-1: for each guarded peak, the read at `peak - lowbin + 1 + b`. */
  function ShapeSum(cfg: Config, trace: seq<real>, tb: int -> real, spet: seq<int>, k: int, b: int): real
    requires 0 <= k <= |spet|
  {
    if k == 0 then 0.0
    else ShapeSum(cfg, trace, tb, spet, k - 1, b)
         + (if Guarded(cfg, spet[k - 1], |trace|)
            then PulseStages.TraceAt(trace, tb, spet[k - 1] - cfg.lowbin + 1 + b) else 0.0)
  }

  /** Integral of kind v of peak p, or the exception computing it throws:
      zero mode (level 10), threshold mode and manual mode without baseline
      subtraction for kinds 0, 1 and 2; the same with the local baseline
      subtracted, and walks stopped at 50 steps, for kinds 3, 4 and 5. */
  function PeakIntegral(cfg: Config, trace: seq<real>, thr: real, p: int, v: int): Result<real, Fault>
  {
    if v == 0 then Integrals.WalkedIntegral(trace, p, Integrals.RawZeroLevel, 0.0, None)
    else if v == 1 then Integrals.WalkedIntegral(trace, p, thr, 0.0, None)
    else if v == 2 then Integrals.Window(trace, p, cfg.manualBoundLo, cfg.manualBoundHi, 0.0)
    else
      match Integrals.LocalBaseline(trace, p)
      case Failure(f) => Failure(f)
      case Success(bsl) =>
        if v == 3 then Integrals.WalkedIntegral(trace, p, Integrals.BaselineZeroLevel, bsl, Some(Integrals.WalkCap))
        else if v == 4 then Integrals.WalkedIntegral(trace, p, thr, bsl, Some(Integrals.WalkCap))
        else Integrals.Window(trace, p, cfg.manualBoundLo, cfg.manualBoundHi, bsl)
  }

  /** The list `after` is `before` followed by the integrals of kind v of
      the peaks g, in order, each of which was computed without throwing. */
  predicate Records(cfg: Config, trace: seq<real>, thr: real, g: seq<int>, v: int, before: seq<real>, after: seq<real>)
  {
    |after| == |before| + |g| && after[..|before|] == before
    && forall j :: 0 <= j < |g| ==> PeakIntegral(cfg, trace, thr, g[j], v) == Success(after[|before| + j])
  }

  /** Records composes: the integrals of g1 and then of g2 are those of
      g1 + g2. */
  lemma RecordsConcat(cfg: Config, trace: seq<real>, thr: real, g1: seq<int>, g2: seq<int>, v: int,
                      a: seq<real>, b: seq<real>, c: seq<real>)
    requires Records(cfg, trace, thr, g1, v, a, b) && Records(cfg, trace, thr, g2, v, b, c)
    ensures Records(cfg, trace, thr, g1 + g2, v, a, c)
  {
    assert c[..|a|] == a by {
      assert c[..|a|] == c[..|b|][..|a|];
    }
    forall j | 0 <= j < |g1 + g2|
      ensures PeakIntegral(cfg, trace, thr, (g1 + g2)[j], v) == Success(c[|a| + j])
    {
      if j < |g1| {
        assert c[|a| + j] == c[..|b|][|a| + j];
      } else {
        assert (g1 + g2)[j] == g2[j - |g1|];
        assert |a| + j == |b| + (j - |g1|);
      }
    }
  }

  /** The shape block for peak i: a guarded and isolated peak adds its
      shape window to the sums and counts one SPE. */
  function ShapeStep(cfg: Config, c: ChannelHists, trace: seq<real>, tb: int -> real, spet: seq<int>, i: int)
    : (r: ChannelHists)
    requires 0 <= i < |spet|
    ensures SameShape(c, r)
  {
    var p := spet[i];
    if !Guarded(cfg, p, |trace|) then c
    else if !PulseStages.Isolated(spet, i, cfg.cut) then c
    else c.(avgspe := PulseStages.AddRow(c.avgspe, PulseStages.ShapeRow(trace, tb, p, cfg.lowbin, |c.avgspe|)),
            navspes := c.navspes + 1)
  }

  /** The shape block over the peaks 0..k-1. */
  function ShapeFold(cfg: Config, c: ChannelHists, trace: seq<real>, tb: int -> real, spet: seq<int>, k: int)
    : (r: ChannelHists)
    requires 0 <= k <= |spet|
    ensures SameShape(c, r)
  {
    if k == 0 then c
    else
      var prev := ShapeFold(cfg, c, trace, tb, spet, k - 1);
      var r := ShapeStep(cfg, prev, trace, tb, spet, k - 1);
      r
  }

  /** The amplitude block for one peak: a checked read of the peak's value,
      appended to the amplitudes; it counts the SPE when the shape block is
      off. */
  function AmpStep(cfg: Config, c: ChannelHists, trace: seq<real>, p: int): (r: Stage)
    ensures SameShape(c, r.c)
  {
    if !InBounds(p, |trace|) then Stage(c, Some(OutOfRange(p)))
    else Stage(c.(amp := c.amp + [trace[p]], navspes := c.navspes + (if cfg.doAvgspe then 0 else 1)), None)
  }

  /** The amplitude block over the peaks 0..k-1, ended by the first
      exception. */
  function AmpFold(cfg: Config, c: ChannelHists, trace: seq<real>, spet: seq<int>, k: int): (r: Stage)
    requires 0 <= k <= |spet|
    ensures SameShape(c, r.c)
  {
    if k == 0 then Stage(c, None)
    else
      var prev := AmpFold(cfg, c, trace, spet, k - 1);
      if prev.fault.Some? then prev
      else
        var r := AmpStep(cfg, prev.c, trace, spet[k - 1]);
        r
  }

  /** The integrals without baseline subtraction for one guarded peak: zero
      mode (level 10), threshold mode and manual mode, each appended as soon
      as it is computed; the SPE is counted here when neither the shape nor
      the amplitude block is on. */
  function RawIntegralStep(cfg: Config, c: ChannelHists, trace: seq<real>, thr: real, p: int): (r: Stage)
    requires |c.integ| == NIntegrals
    ensures SameShape(c, r.c)
  {
    if !Guarded(cfg, p, |trace|) then Stage(c, None)
    else
      match Integrals.WalkedIntegral(trace, p, Integrals.RawZeroLevel, 0.0, None)
      case Failure(f) => Stage(c, Some(f))
      case Success(v0) =>
        var c0 := Fill(c, 0, v0);
        match Integrals.WalkedIntegral(trace, p, thr, 0.0, None)
        case Failure(f) => Stage(c0, Some(f))
        case Success(v1) =>
          var c1 := Fill(c0, 1, v1);
          match Integrals.Window(trace, p, cfg.manualBoundLo, cfg.manualBoundHi, 0.0)
          case Failure(f) => Stage(c1, Some(f))
          case Success(v2) =>
            var c2 := Fill(c1, 2, v2);
            Stage(c2.(navspes := c2.navspes + (if !cfg.doAvgspe && !cfg.doAmp then 1 else 0)), None)
  }

  /** The block of integrals without baseline subtraction over the peaks
      0..k-1, ended by the first exception. */
  function RawIntegralFold(cfg: Config, c: ChannelHists, trace: seq<real>, thr: real, spet: seq<int>, k: int): (r: Stage)
    requires 0 <= k <= |spet| && |c.integ| == NIntegrals
    ensures SameShape(c, r.c)
  {
    if k == 0 then Stage(c, None)
    else
      var prev := RawIntegralFold(cfg, c, trace, thr, spet, k - 1);
      if prev.fault.Some? then prev
      else
        var r := RawIntegralStep(cfg, prev.c, trace, thr, spet[k - 1]);
        r
  }

  /** The integrals with local baseline subtraction for one guarded peak:
      the baseline, then zero mode (level 0) and threshold mode with walks
      stopped at 50 steps, and manual mode. Once the baseline is read, the
      capped walks cannot throw; only the baseline reads and the manual
      window can. */
  function BaselineIntegralStep(cfg: Config, c: ChannelHists, trace: seq<real>, thr: real, p: int): (r: Stage)
    requires |c.integ| == NIntegrals
    ensures SameShape(c, r.c)
  {
    if !Guarded(cfg, p, |trace|) then Stage(c, None)
    else
      match Integrals.LocalBaseline(trace, p)
      case Failure(f) => Stage(c, Some(f))
      case Success(bsl) =>
        Integrals.CappedWalksStayInside(trace, p, Integrals.BaselineZeroLevel, bsl);
        Integrals.CappedWalksStayInside(trace, p, thr, bsl);
        var c3 := Fill(c, 3, Integrals.WalkedIntegral(trace, p, Integrals.BaselineZeroLevel, bsl, Some(Integrals.WalkCap)).value);
        var c4 := Fill(c3, 4, Integrals.WalkedIntegral(trace, p, thr, bsl, Some(Integrals.WalkCap)).value);
        match Integrals.Window(trace, p, cfg.manualBoundLo, cfg.manualBoundHi, bsl)
        case Failure(f) => Stage(c4, Some(f))
        case Success(v5) => Stage(Fill(c4, 5, v5), None)
  }

  /** The block of baseline-subtracted integrals over the peaks 0..k-1,
      ended by the first exception. */
  function BaselineIntegralFold(cfg: Config, c: ChannelHists, trace: seq<real>, thr: real, spet: seq<int>, k: int)
    : (r: Stage)
    requires 0 <= k <= |spet| && |c.integ| == NIntegrals
    ensures SameShape(c, r.c)
  {
    if k == 0 then Stage(c, None)
    else
      var prev := BaselineIntegralFold(cfg, c, trace, thr, spet, k - 1);
      if prev.fault.Some? then prev
      else
        var r := BaselineIntegralStep(cfg, prev.c, trace, thr, spet[k - 1]);
        r
  }

  /** The enabled blocks in the analyzer's order: shape, amplitude, then the
      two integral blocks; an exception ends them all. */
  function PulseBlocks(cfg: Config, c: ChannelHists, trace: seq<real>, tb: int -> real, thr: real, spet: seq<int>)
    : (r: Stage)
    requires |c.integ| == NIntegrals
    ensures SameShape(c, r.c)
  {
    var c1 := if cfg.doAvgspe then ShapeFold(cfg, c, trace, tb, spet, |spet|) else c;
    var s2 := if cfg.doAmp then AmpFold(cfg, c1, trace, spet, |spet|) else Stage(c1, None);
    if s2.fault.Some? || !cfg.doInteg then s2
    else
      var s3 := RawIntegralFold(cfg, s2.c, trace, thr, spet, |spet|);
      if s3.fault.Some? then s3
      else
        var s4 := BaselineIntegralFold(cfg, s3.c, trace, thr, spet, |spet|);
        s4
  }

  /** The shape block counts one SPE per guarded peak, since the isolation
      test never rejects one, adds to each entry b of the shape sums the
      reads at `peak - lowbin + 1 + b` of the guarded peaks, and touches
      neither amplitudes nor integrals. */
  lemma {:induction false} ShapeFoldCounts(cfg: Config, c: ChannelHists, trace: seq<real>, tb: int -> real, spet: seq<int>, k: int)
    requires 0 <= k <= |spet|
    ensures var r := ShapeFold(cfg, c, trace, tb, spet, k);
            r.navspes == c.navspes + GuardedCount(cfg, spet, |trace|, k) && r.amp == c.amp && r.integ == c.integ
    ensures var r := ShapeFold(cfg, c, trace, tb, spet, k);
            forall b :: 0 <= b < |c.avgspe| ==> r.avgspe[b] == c.avgspe[b] + ShapeSum(cfg, trace, tb, spet, k, b)
  {
    if k > 0 {
      ShapeFoldCounts(cfg, c, trace, tb, spet, k - 1);
      var prev := ShapeFold(cfg, c, trace, tb, spet, k - 1);
      var r := ShapeFold(cfg, c, trace, tb, spet, k);
      assert r == ShapeStep(cfg, prev, trace, tb, spet, k - 1);
      forall b | 0 <= b < |c.avgspe|
        ensures r.avgspe[b] == c.avgspe[b] + ShapeSum(cfg, trace, tb, spet, k, b)
      {
        if Guarded(cfg, spet[k - 1], |trace|) {
          assert r.avgspe[b] == prev.avgspe[b] + PulseStages.TraceAt(trace, tb, spet[k - 1] - cfg.lowbin + 1 + b);
        }
      }
    }
  }

  /** The amplitude block completes exactly when every peak is inside the
      trace; it then appends the peak heights in order, counts one SPE per
      peak when the shape block is off, and touches nothing else. */
  lemma {:induction false} AmpFoldRecordsHeights(cfg: Config, c: ChannelHists, trace: seq<real>, spet: seq<int>, k: int)
    requires 0 <= k <= |spet|
    ensures var r := AmpFold(cfg, c, trace, spet, k);
            r.fault.None? <==> forall q :: 0 <= q < k ==> InBounds(spet[q], |trace|)
    ensures var r := AmpFold(cfg, c, trace, spet, k);
            r.fault.None? ==>
              |r.c.amp| == |c.amp| + k
              && (forall q :: 0 <= q < k ==> r.c.amp[|c.amp| + q] == trace[spet[q]])
              && r.c.navspes == c.navspes + (if cfg.doAvgspe then 0 else k)
              && r.c.avgspe == c.avgspe && r.c.integ == c.integ
  {
    if k > 0 {
      AmpFoldRecordsHeights(cfg, c, trace, spet, k - 1);
      var prev := AmpFold(cfg, c, trace, spet, k - 1);
      var r := AmpFold(cfg, c, trace, spet, k);
      if prev.fault.Some? {
        assert r == prev;
      } else {
        assert r == AmpStep(cfg, prev.c, trace, spet[k - 1]);
        if InBounds(spet[k - 1], |trace|) {
          assert r.c.amp == prev.c.amp + [trace[spet[k - 1]]];
          forall q | 0 <= q < k
            ensures r.c.amp[|c.amp| + q] == trace[spet[q]]
          {
            if q < k - 1 {
              assert r.c.amp[|c.amp| + q] == prev.c.amp[|c.amp| + q];
            }
          }
        }
      }
    }
  }

  /** One peak of the block without baseline subtraction, when it
      completes: a guarded peak appends its integrals of kinds 0, 1 and 2
      and counts its SPE when neither shape nor amplitude block is on; an
      unguarded one changes nothing. */
  lemma RawIntegralStepCounts(cfg: Config, c: ChannelHists, trace: seq<real>, thr: real, p: int)
    requires |c.integ| == NIntegrals
    ensures var r := RawIntegralStep(cfg, c, trace, thr, p);
            var g := if Guarded(cfg, p, |trace|) then 1 else 0;
            r.fault.None? ==>
              r.c.navspes == c.navspes + (if !cfg.doAvgspe && !cfg.doAmp then g else 0)
              && (forall v :: 0 <= v < 3 ==> |r.c.integ[v]| == |c.integ[v]| + g)
              && (forall v :: 3 <= v < NIntegrals ==> r.c.integ[v] == c.integ[v])
              && r.c.amp == c.amp && r.c.avgspe == c.avgspe && |r.c.integ| == NIntegrals
    ensures var r := RawIntegralStep(cfg, c, trace, thr, p);
            r.fault.None? ==>
              if Guarded(cfg, p, |trace|)
              then forall v :: 0 <= v < 3 ==> Records(cfg, trace, thr, [p], v, c.integ[v], r.c.integ[v])
              else r.c == c
  {
  }

  /** The block without baseline subtraction, when it completes: each of
      the lists of kinds 0, 1 and 2 receives, in peak order, the integral
      of that kind of every guarded peak, and nothing else changes but the
      SPE count when neither shape nor amplitude block is on. */
  lemma {:induction false} RawIntegralFoldCounts(cfg: Config, c: ChannelHists, trace: seq<real>, thr: real, spet: seq<int>, k: int)
    requires 0 <= k <= |spet| && |c.integ| == NIntegrals
    ensures var r := RawIntegralFold(cfg, c, trace, thr, spet, k);
            var g := GuardedCount(cfg, spet, |trace|, k);
            r.fault.None? ==>
              r.c.navspes == c.navspes + (if !cfg.doAvgspe && !cfg.doAmp then g else 0)
              && (forall v :: 0 <= v < 3 ==> |r.c.integ[v]| == |c.integ[v]| + g)
              && (forall v :: 3 <= v < NIntegrals ==> r.c.integ[v] == c.integ[v])
              && r.c.amp == c.amp && r.c.avgspe == c.avgspe
    ensures var r := RawIntegralFold(cfg, c, trace, thr, spet, k);
            var g := GuardedPeaks(cfg, spet, |trace|, k);
            r.fault.None? ==> forall v :: 0 <= v < 3 ==> Records(cfg, trace, thr, g, v, c.integ[v], r.c.integ[v])
  {
    if k == 0 {
      forall v | 0 <= v < 3
        ensures Records(cfg, trace, thr, [], v, c.integ[v], c.integ[v])
      {
      }
    } else {
      RawIntegralFoldCounts(cfg, c, trace, thr, spet, k - 1);
      var prev := RawIntegralFold(cfg, c, trace, thr, spet, k - 1);
      var r := RawIntegralFold(cfg, c, trace, thr, spet, k);
      if prev.fault.None? {
        assert r == RawIntegralStep(cfg, prev.c, trace, thr, spet[k - 1]);
        RawIntegralStepCounts(cfg, prev.c, trace, thr, spet[k - 1]);
        GuardedCountStep(cfg, spet, |trace|, k);
        if r.fault.None? {
          var g0 := GuardedPeaks(cfg, spet, |trace|, k - 1);
          forall v | 0 <= v < 3
            ensures Records(cfg, trace, thr, GuardedPeaks(cfg, spet, |trace|, k), v, c.integ[v], r.c.integ[v])
          {
            if Guarded(cfg, spet[k - 1], |trace|) {
              RecordsConcat(cfg, trace, thr, g0, [spet[k - 1]], v, c.integ[v], prev.c.integ[v], r.c.integ[v]);
            } else {
              assert GuardedPeaks(cfg, spet, |trace|, k) == g0;
            }
          }
        }
      }
    }
  }

  /** One peak of the baseline-subtracted block, when it completes: a
      guarded peak appends its integrals of kinds 3, 4 and 5; an unguarded
      one changes nothing. */
  lemma BaselineIntegralStepCounts(cfg: Config, c: ChannelHists, trace: seq<real>, thr: real, p: int)
    requires |c.integ| == NIntegrals
    ensures var r := BaselineIntegralStep(cfg, c, trace, thr, p);
            var g := if Guarded(cfg, p, |trace|) then 1 else 0;
            r.fault.None? ==>
              (forall v :: 0 <= v < 3 ==> r.c.integ[v] == c.integ[v])
              && (forall v :: 3 <= v < NIntegrals ==> |r.c.integ[v]| == |c.integ[v]| + g)
              && r.c.amp == c.amp && r.c.avgspe == c.avgspe && r.c.navspes == c.navspes && |r.c.integ| == NIntegrals
    ensures var r := BaselineIntegralStep(cfg, c, trace, thr, p);
            r.fault.None? ==>
              if Guarded(cfg, p, |trace|)
              then forall v :: 3 <= v < NIntegrals ==> Records(cfg, trace, thr, [p], v, c.integ[v], r.c.integ[v])
              else r.c == c
  {
    var r := BaselineIntegralStep(cfg, c, trace, thr, p);
    if r.fault.None? && Guarded(cfg, p, |trace|) {
      var bsl := Integrals.LocalBaseline(trace, p).value;
      assert PeakIntegral(cfg, trace, thr, p, 3)
          == Integrals.WalkedIntegral(trace, p, Integrals.BaselineZeroLevel, bsl, Some(Integrals.WalkCap));
      assert PeakIntegral(cfg, trace, thr, p, 4)
          == Integrals.WalkedIntegral(trace, p, thr, bsl, Some(Integrals.WalkCap));
      assert PeakIntegral(cfg, trace, thr, p, 5)
          == Integrals.Window(trace, p, cfg.manualBoundLo, cfg.manualBoundHi, bsl);
    }
  }

  /** The baseline-subtracted block, when it completes: each of the lists
      of kinds 3, 4 and 5 receives, in peak order, the integral of that kind
      of every guarded peak, and nothing else changes. */
  lemma {:induction false} BaselineIntegralFoldCounts(cfg: Config, c: ChannelHists, trace: seq<real>, thr: real, spet: seq<int>, k: int)
    requires 0 <= k <= |spet| && |c.integ| == NIntegrals
    ensures var r := BaselineIntegralFold(cfg, c, trace, thr, spet, k);
            var g := GuardedCount(cfg, spet, |trace|, k);
            r.fault.None? ==>
              (forall v :: 0 <= v < 3 ==> r.c.integ[v] == c.integ[v])
              && (forall v :: 3 <= v < NIntegrals ==> |r.c.integ[v]| == |c.integ[v]| + g)
              && r.c.amp == c.amp && r.c.avgspe == c.avgspe && r.c.navspes == c.navspes
    ensures var r := BaselineIntegralFold(cfg, c, trace, thr, spet, k);
            var g := GuardedPeaks(cfg, spet, |trace|, k);
            r.fault.None? ==> forall v :: 3 <= v < NIntegrals ==> Records(cfg, trace, thr, g, v, c.integ[v], r.c.integ[v])
  {
    if k == 0 {
      forall v | 3 <= v < NIntegrals
        ensures Records(cfg, trace, thr, [], v, c.integ[v], c.integ[v])
      {
      }
    } else {
      BaselineIntegralFoldCounts(cfg, c, trace, thr, spet, k - 1);
      var prev := BaselineIntegralFold(cfg, c, trace, thr, spet, k - 1);
      var r := BaselineIntegralFold(cfg, c, trace, thr, spet, k);
      if prev.fault.None? {
        assert r == BaselineIntegralStep(cfg, prev.c, trace, thr, spet[k - 1]);
        BaselineIntegralStepCounts(cfg, prev.c, trace, thr, spet[k - 1]);
        GuardedCountStep(cfg, spet, |trace|, k);
        if r.fault.None? {
          var g0 := GuardedPeaks(cfg, spet, |trace|, k - 1);
          forall v | 3 <= v < NIntegrals
            ensures Records(cfg, trace, thr, GuardedPeaks(cfg, spet, |trace|, k), v, c.integ[v], r.c.integ[v])
          {
            if Guarded(cfg, spet[k - 1], |trace|) {
              RecordsConcat(cfg, trace, thr, g0, [spet[k - 1]], v, c.integ[v], prev.c.integ[v], r.c.integ[v]);
            } else {
              assert GuardedPeaks(cfg, spet, |trace|, k) == g0;
            }
          }
        }
      }
    }
  }

  /** The SPEs a waveform's blocks count for its channel: each peak is
      counted by the first enabled block only, so never more than once. */
  function SpeCount(cfg: Config, spet: seq<int>, n: int): (r: nat)
    ensures r <= |spet|
  {
    var g := GuardedCount(cfg, spet, n, |spet|);
    if cfg.doAvgspe then g else if cfg.doAmp then |spet| else if cfg.doInteg then g else 0
  }

  /** When a waveform's blocks complete, the channel's SPE count grows by
      `SpeCount` (at most one per peak, whichever blocks are on), its
      amplitudes by one per peak when the amplitude block is on, and each of
      its six integral lists by one per guarded peak when the integral
      blocks are on. */
  lemma PulseBlocksCounts(cfg: Config, c: ChannelHists, trace: seq<real>, tb: int -> real, thr: real, spet: seq<int>)
    requires |c.integ| == NIntegrals
    ensures var r := PulseBlocks(cfg, c, trace, tb, thr, spet);
            var g := GuardedCount(cfg, spet, |trace|, |spet|);
            r.fault.None? ==>
              r.c.navspes == c.navspes + SpeCount(cfg, spet, |trace|)
              && |r.c.amp| == |c.amp| + (if cfg.doAmp then |spet| else 0)
              && (forall v :: 0 <= v < NIntegrals ==> |r.c.integ[v]| == |c.integ[v]| + (if cfg.doInteg then g else 0))
  {
    var k := |spet|;
    var c1 := if cfg.doAvgspe then ShapeFold(cfg, c, trace, tb, spet, k) else c;
    ShapeFoldCounts(cfg, c, trace, tb, spet, k);
    AmpFoldRecordsHeights(cfg, c1, trace, spet, k);
    var s2 := if cfg.doAmp then AmpFold(cfg, c1, trace, spet, k) else Stage(c1, None);
    if s2.fault.None? && cfg.doInteg {
      RawIntegralFoldCounts(cfg, s2.c, trace, thr, spet, k);
      var s3 := RawIntegralFold(cfg, s2.c, trace, thr, spet, k);
      if s3.fault.None? {
        BaselineIntegralFoldCounts(cfg, s3.c, trace, thr, spet, k);
      }
    }
  }

  /** What a waveform's blocks add to the shape sums and the amplitudes,
      when they complete: with the shape block on, each entry of the shape
      sums grows by the guarded peaks' reads for it; with the amplitude
      block on, the heights of all peaks are appended in order. A block
      that is off leaves its accumulator as it was, and what was there
      before is kept. */
  lemma PulseBlocksContents(cfg: Config, c: ChannelHists, trace: seq<real>, tb: int -> real, thr: real, spet: seq<int>)
    requires |c.integ| == NIntegrals
    ensures var r := PulseBlocks(cfg, c, trace, tb, thr, spet);
            r.fault.None? ==>
              (forall b :: 0 <= b < |c.avgspe| ==>
                 r.c.avgspe[b] == c.avgspe[b] + (if cfg.doAvgspe then ShapeSum(cfg, trace, tb, spet, |spet|, b) else 0.0))
              && c.amp <= r.c.amp
              && (cfg.doAmp ==> forall q :: 0 <= q < |spet| ==>
                                  InBounds(spet[q], |trace|) && |c.amp| + q < |r.c.amp| && r.c.amp[|c.amp| + q] == trace[spet[q]])
              && (!cfg.doAmp ==> r.c.amp == c.amp)
  {
    var k := |spet|;
    var c1 := if cfg.doAvgspe then ShapeFold(cfg, c, trace, tb, spet, k) else c;
    ShapeFoldCounts(cfg, c, trace, tb, spet, k);
    AmpFoldRecordsHeights(cfg, c1, trace, spet, k);
    AmpFoldAppends(cfg, c1, trace, spet, k);
    var s2 := if cfg.doAmp then AmpFold(cfg, c1, trace, spet, k) else Stage(c1, None);
    if s2.fault.None? && cfg.doInteg {
      RawIntegralFoldCounts(cfg, s2.c, trace, thr, spet, k);
      var s3 := RawIntegralFold(cfg, s2.c, trace, thr, spet, k);
      if s3.fault.None? {
        BaselineIntegralFoldCounts(cfg, s3.c, trace, thr, spet, k);
      }
    }
  }

  /** What a waveform's blocks add to the integral lists, when they
      complete: with the integral blocks on, each of the six lists
      receives, in peak order, the integral of its kind of every guarded
      peak after what was there before; with them off, the lists are left
      as they were. */
  lemma PulseBlocksIntegrals(cfg: Config, c: ChannelHists, trace: seq<real>, tb: int -> real, thr: real, spet: seq<int>)
    requires |c.integ| == NIntegrals
    ensures var r := PulseBlocks(cfg, c, trace, tb, thr, spet);
            var g := GuardedPeaks(cfg, spet, |trace|, |spet|);
            r.fault.None? ==>
              (cfg.doInteg ==> forall v :: 0 <= v < NIntegrals ==> Records(cfg, trace, thr, g, v, c.integ[v], r.c.integ[v]))
              && (!cfg.doInteg ==> r.c.integ == c.integ)
  {
    var k := |spet|;
    var c1 := if cfg.doAvgspe then ShapeFold(cfg, c, trace, tb, spet, k) else c;
    ShapeFoldCounts(cfg, c, trace, tb, spet, k);
    AmpFoldRecordsHeights(cfg, c1, trace, spet, k);
    var s2 := if cfg.doAmp then AmpFold(cfg, c1, trace, spet, k) else Stage(c1, None);
    if s2.fault.None? && cfg.doInteg {
      assert s2.c.integ == c.integ;
      IntegralBlocksRecord(cfg, s2.c, trace, thr, spet);
    }
  }

  /** The two integral blocks in a row, when both complete: each of the six
      lists receives, in peak order, the integral of its kind of every
      guarded peak. */
  lemma IntegralBlocksRecord(cfg: Config, c: ChannelHists, trace: seq<real>, thr: real, spet: seq<int>)
    requires |c.integ| == NIntegrals
    ensures var s3 := RawIntegralFold(cfg, c, trace, thr, spet, |spet|);
            var s4 := BaselineIntegralFold(cfg, s3.c, trace, thr, spet, |spet|);
            var g := GuardedPeaks(cfg, spet, |trace|, |spet|);
            s3.fault.None? && s4.fault.None? ==>
              forall v :: 0 <= v < NIntegrals ==> Records(cfg, trace, thr, g, v, c.integ[v], s4.c.integ[v])
  {
    var k := |spet|;
    var g := GuardedPeaks(cfg, spet, |trace|, k);
    RawIntegralFoldCounts(cfg, c, trace, thr, spet, k);
    var s3 := RawIntegralFold(cfg, c, trace, thr, spet, k);
    if s3.fault.None? {
      BaselineIntegralFoldCounts(cfg, s3.c, trace, thr, spet, k);
      var s4 := BaselineIntegralFold(cfg, s3.c, trace, thr, spet, k);
      if s4.fault.None? {
        forall v | 0 <= v < NIntegrals
          ensures Records(cfg, trace, thr, g, v, c.integ[v], s4.c.integ[v])
        {
          if v < 3 {
            assert Records(cfg, trace, thr, g, v, c.integ[v], s3.c.integ[v]);
            assert s4.c.integ[v] == s3.c.integ[v];
          } else {
            assert s3.c.integ[v] == c.integ[v];
            assert Records(cfg, trace, thr, g, v, s3.c.integ[v], s4.c.integ[v]);
          }
        }
      }
    }
  }

  /** Whether the amplitude block throws does not depend on the
      accumulators it starts from. */
  lemma {:induction false} AmpFoldFaultIndependent(cfg: Config, c1: ChannelHists, c2: ChannelHists, trace: seq<real>, spet: seq<int>, k: int)
    requires 0 <= k <= |spet|
    ensures AmpFold(cfg, c1, trace, spet, k).fault == AmpFold(cfg, c2, trace, spet, k).fault
  {
    if k > 0 {
      AmpFoldFaultIndependent(cfg, c1, c2, trace, spet, k - 1);
    }
  }

  /** Whether the block without baseline subtraction throws, and where,
      does not depend on the accumulators it starts from. */
  lemma {:induction false} RawIntegralFoldFaultIndependent(cfg: Config, c1: ChannelHists, c2: ChannelHists, trace: seq<real>,
                                                           thr: real, spet: seq<int>, k: int)
    requires 0 <= k <= |spet| && |c1.integ| == NIntegrals && |c2.integ| == NIntegrals
    ensures RawIntegralFold(cfg, c1, trace, thr, spet, k).fault == RawIntegralFold(cfg, c2, trace, thr, spet, k).fault
  {
    if k > 0 {
      RawIntegralFoldFaultIndependent(cfg, c1, c2, trace, thr, spet, k - 1);
    }
  }

  /** Whether the baseline-subtracted block throws, and where, does not
      depend on the accumulators it starts from. */
  lemma {:induction false} BaselineIntegralFoldFaultIndependent(cfg: Config, c1: ChannelHists, c2: ChannelHists, trace: seq<real>,
                                                                thr: real, spet: seq<int>, k: int)
    requires 0 <= k <= |spet| && |c1.integ| == NIntegrals && |c2.integ| == NIntegrals
    ensures BaselineIntegralFold(cfg, c1, trace, thr, spet, k).fault == BaselineIntegralFold(cfg, c2, trace, thr, spet, k).fault
  {
    if k > 0 {
      BaselineIntegralFoldFaultIndependent(cfg, c1, c2, trace, thr, spet, k - 1);
    }
  }

  /** Whether a waveform's blocks throw, and where, depends on the trace,
      the threshold and the peaks only, not on what the channel has
      accumulated. */
  lemma PulseBlocksFaultIndependent(cfg: Config, c1: ChannelHists, c2: ChannelHists, trace: seq<real>, tb: int -> real,
                                    thr: real, spet: seq<int>)
    requires |c1.integ| == NIntegrals && |c2.integ| == NIntegrals
    ensures PulseBlocks(cfg, c1, trace, tb, thr, spet).fault == PulseBlocks(cfg, c2, trace, tb, thr, spet).fault
  {
    var k := |spet|;
    var d1 := if cfg.doAvgspe then ShapeFold(cfg, c1, trace, tb, spet, k) else c1;
    var d2 := if cfg.doAvgspe then ShapeFold(cfg, c2, trace, tb, spet, k) else c2;
    AmpFoldFaultIndependent(cfg, d1, d2, trace, spet, k);
    var s1 := if cfg.doAmp then AmpFold(cfg, d1, trace, spet, k) else Stage(d1, None);
    var s2 := if cfg.doAmp then AmpFold(cfg, d2, trace, spet, k) else Stage(d2, None);
    if s1.fault.None? && cfg.doInteg {
      RawIntegralFoldFaultIndependent(cfg, s1.c, s2.c, trace, thr, spet, k);
      var t1 := RawIntegralFold(cfg, s1.c, trace, thr, spet, k);
      var t2 := RawIntegralFold(cfg, s2.c, trace, thr, spet, k);
      if t1.fault.None? {
        BaselineIntegralFoldFaultIndependent(cfg, t1.c, t2.c, trace, thr, spet, k);
      }
    }
  }

  /** The peaks the pulse finder records never make the amplitude block
      throw: each one is an index inside the trace. */
  lemma FinderPeaksHaveAmplitudes(cfg: Config, c: ChannelHists, trace: seq<real>, thr: real)
    ensures var spet := PulseFinder.Finder(trace, thr, cfg.speRegionStart).peaks;
            AmpFold(cfg, c, trace, spet, |spet|).fault.None?
  {
    var spet := PulseFinder.Finder(trace, thr, cfg.speRegionStart).peaks;
    if 0 <= cfg.speRegionStart <= |trace| {
      PulseFinder.PeaksInsideTrace(trace, thr, cfg.speRegionStart);
    }
    AmpFoldRecordsHeights(cfg, c, trace, spet, |spet|);
  }

  /** An exception ends the amplitude block: the peaks after it change
      nothing. */
  lemma {:induction false} AmpFaultEndsBlock(cfg: Config, c: ChannelHists, trace: seq<real>, spet: seq<int>, j: int, k: int)
    requires 0 <= j <= k <= |spet| && AmpFold(cfg, c, trace, spet, j).fault.Some?
    ensures AmpFold(cfg, c, trace, spet, k) == AmpFold(cfg, c, trace, spet, j)
    decreases k
  {
    if k > j {
      AmpFaultEndsBlock(cfg, c, trace, spet, j, k - 1);
      assert AmpFold(cfg, c, trace, spet, k - 1).fault.Some?;
      assert AmpFold(cfg, c, trace, spet, k) == AmpFold(cfg, c, trace, spet, k - 1);
    }
  }

  /** An exception ends the block without baseline subtraction. */
  lemma {:induction false} RawIntegralFaultEndsBlock(cfg: Config, c: ChannelHists, trace: seq<real>, thr: real, spet: seq<int>, j: int, k: int)
    requires 0 <= j <= k <= |spet| && |c.integ| == NIntegrals
    requires RawIntegralFold(cfg, c, trace, thr, spet, j).fault.Some?
    ensures RawIntegralFold(cfg, c, trace, thr, spet, k) == RawIntegralFold(cfg, c, trace, thr, spet, j)
    decreases k
  {
    if k > j {
      RawIntegralFaultEndsBlock(cfg, c, trace, thr, spet, j, k - 1);
      assert RawIntegralFold(cfg, c, trace, thr, spet, k - 1).fault.Some?;
      assert RawIntegralFold(cfg, c, trace, thr, spet, k) == RawIntegralFold(cfg, c, trace, thr, spet, k - 1);
    }
  }

  /** An exception ends the baseline-subtracted block. */
  lemma {:induction false} BaselineIntegralFaultEndsBlock(cfg: Config, c: ChannelHists, trace: seq<real>, thr: real, spet: seq<int>, j: int, k: int)
    requires 0 <= j <= k <= |spet| && |c.integ| == NIntegrals
    requires BaselineIntegralFold(cfg, c, trace, thr, spet, j).fault.Some?
    ensures BaselineIntegralFold(cfg, c, trace, thr, spet, k) == BaselineIntegralFold(cfg, c, trace, thr, spet, j)
    decreases k
  {
    if k > j {
      assert BaselineIntegralFold(cfg, c, trace, thr, spet, k - 1) == BaselineIntegralFold(cfg, c, trace, thr, spet, j) by {
        BaselineIntegralFaultEndsBlock(cfg, c, trace, thr, spet, j, k - 1);
      }
      BaselineIntegralFoldStops(cfg, c, trace, thr, spet, k);
    }
  }

  /** A baseline-subtracted block that has thrown stays as it is. */
  lemma BaselineIntegralFoldStops(cfg: Config, c: ChannelHists, trace: seq<real>, thr: real, spet: seq<int>, k: int)
    requires 0 < k <= |spet| && |c.integ| == NIntegrals
    requires BaselineIntegralFold(cfg, c, trace, thr, spet, k - 1).fault.Some?
    ensures BaselineIntegralFold(cfg, c, trace, thr, spet, k) == BaselineIntegralFold(cfg, c, trace, thr, spet, k - 1)
  {
  }

  /** The shape block only adds to the sums and the count. */
  lemma {:induction false} ShapeFoldAppends(cfg: Config, c: ChannelHists, trace: seq<real>, tb: int -> real, spet: seq<int>, k: int)
    requires 0 <= k <= |spet|
    ensures Grows(c, ShapeFold(cfg, c, trace, tb, spet, k))
  {
    if k > 0 {
      ShapeFoldAppends(cfg, c, trace, tb, spet, k - 1);
      var prev := ShapeFold(cfg, c, trace, tb, spet, k - 1);
      GrowsTransitive(c, prev, ShapeStep(cfg, prev, trace, tb, spet, k - 1));
    }
  }

  /** The amplitude block only appends. */
  lemma {:induction false} AmpFoldAppends(cfg: Config, c: ChannelHists, trace: seq<real>, spet: seq<int>, k: int)
    requires 0 <= k <= |spet|
    ensures Grows(c, AmpFold(cfg, c, trace, spet, k).c)
  {
    if k > 0 {
      AmpFoldAppends(cfg, c, trace, spet, k - 1);
      var prev := AmpFold(cfg, c, trace, spet, k - 1);
      if prev.fault.None? {
        GrowsTransitive(c, prev.c, AmpStep(cfg, prev.c, trace, spet[k - 1]).c);
      }
    }
  }

  /** One peak of the block without baseline subtraction only appends. */
  lemma RawIntegralStepAppends(cfg: Config, c: ChannelHists, trace: seq<real>, thr: real, p: int)
    requires |c.integ| == NIntegrals
    ensures Grows(c, RawIntegralStep(cfg, c, trace, thr, p).c)
  {
  }

  /** The block without baseline subtraction only appends. */
  lemma {:induction false} RawIntegralFoldAppends(cfg: Config, c: ChannelHists, trace: seq<real>, thr: real, spet: seq<int>, k: int)
    requires 0 <= k <= |spet| && |c.integ| == NIntegrals
    ensures Grows(c, RawIntegralFold(cfg, c, trace, thr, spet, k).c)
  {
    if k > 0 {
      RawIntegralFoldAppends(cfg, c, trace, thr, spet, k - 1);
      var prev := RawIntegralFold(cfg, c, trace, thr, spet, k - 1);
      if prev.fault.None? {
        RawIntegralStepAppends(cfg, prev.c, trace, thr, spet[k - 1]);
        GrowsTransitive(c, prev.c, RawIntegralStep(cfg, prev.c, trace, thr, spet[k - 1]).c);
      }
    }
  }

  /** One peak of the baseline-subtracted block only appends. */
  lemma BaselineIntegralStepAppends(cfg: Config, c: ChannelHists, trace: seq<real>, thr: real, p: int)
    requires |c.integ| == NIntegrals
    ensures Grows(c, BaselineIntegralStep(cfg, c, trace, thr, p).c)
  {
  }

  /** The baseline-subtracted block only appends. */
  lemma {:induction false} BaselineIntegralFoldAppends(cfg: Config, c: ChannelHists, trace: seq<real>, thr: real, spet: seq<int>, k: int)
    requires 0 <= k <= |spet| && |c.integ| == NIntegrals
    ensures Grows(c, BaselineIntegralFold(cfg, c, trace, thr, spet, k).c)
  {
    if k > 0 {
      BaselineIntegralFoldAppends(cfg, c, trace, thr, spet, k - 1);
      var prev := BaselineIntegralFold(cfg, c, trace, thr, spet, k - 1);
      if prev.fault.None? {
        BaselineIntegralStepAppends(cfg, prev.c, trace, thr, spet[k - 1]);
        GrowsTransitive(c, prev.c, BaselineIntegralStep(cfg, prev.c, trace, thr, spet[k - 1]).c);
      }
    }
  }

  /** A waveform's blocks never remove or rewrite anything: the shape sums
      keep their bins, amplitudes and integrals are only appended, and the
      SPE count never decreases, even when a block throws part way. */
  lemma PulseBlocksOnlyAppend(cfg: Config, c: ChannelHists, trace: seq<real>, tb: int -> real, thr: real, spet: seq<int>)
    requires |c.integ| == NIntegrals
    ensures Grows(c, PulseBlocks(cfg, c, trace, tb, thr, spet).c)
  {
    var k := |spet|;
    var c1 := if cfg.doAvgspe then ShapeFold(cfg, c, trace, tb, spet, k) else c;
    ShapeFoldAppends(cfg, c, trace, tb, spet, k);
    AmpFoldAppends(cfg, c1, trace, spet, k);
    var s2 := if cfg.doAmp then AmpFold(cfg, c1, trace, spet, k) else Stage(c1, None);
    GrowsTransitive(c, c1, s2.c);
    if s2.fault.None? && cfg.doInteg {
      RawIntegralFoldAppends(cfg, s2.c, trace, thr, spet, k);
      var s3 := RawIntegralFold(cfg, s2.c, trace, thr, spet, k);
      GrowsTransitive(c, s2.c, s3.c);
      if s3.fault.None? {
        BaselineIntegralFoldAppends(cfg, s3.c, trace, thr, spet, k);
        GrowsTransitive(c, s3.c, BaselineIntegralFold(cfg, s3.c, trace, thr, spet, k).c);
      }
    }
  }

  /** What a waveform yields before any accumulator is touched: skipped
      (channel not in the table, or detector type not analyzed); an
      exception from the noise stage; a noise stage without samples; or
      the channel's position, the corrected trace, what lies past its end,
      the threshold, and the pulse finder's peaks and 200-pulse reports. */
  datatype Outcome =
    | Skipped
    | NoiseThrew(fault: Fault)
    | NoNoise
    | Found(pmt: int, trace: seq<real>, beyond: int -> real, thr: real, peaks: seq<int>, capHits: nat)

  /** Whether the analyzer looks at a waveform at all: its channel is in
      the table and its detector type is among those to analyze. */
  predicate Analyzed(table: seq<int>, env: Env, w: Waveform)
  {
    ChannelTable.IndexOf(table, w.channel) != -1 && env.plotted(w.channel)
  }

  /** The part of one waveform's analysis, at position idx of the event,
      that does not depend on the accumulators: the table lookup, the
      detector type check, the minimum search, the noise stage, the
      threshold and the pulse finder. */
  function WaveformOutcome(cfg: Config, table: seq<int>, env: Env, idx: nat, w: Waveform): (o: Outcome)
    ensures o.Skipped? <==> !Analyzed(table, env, w)
    ensures o.Found? ==> o.pmt == ChannelTable.IndexOf(table, w.channel) && 0 <= o.pmt < |table|
                         && table[o.pmt] == w.channel
                         && o.peaks == PulseFinder.Finder(o.trace, o.thr, cfg.speRegionStart).peaks
                         && o.capHits == PulseFinder.Finder(o.trace, o.thr, cfg.speRegionStart).capHits
    ensures var hb := Noise.FirstMinimumOf(w.samples);
            var nz := Noise.NoiseOf(w.samples, env.rawBeyond(idx), env.noiseWindows(hb, |w.samples|), hb);
            Analyzed(table, env, w) ==>
              (o.NoiseThrew? <==> nz.Thrown?) && (o.NoiseThrew? ==> o.fault == nz.fault)
              && (o.NoNoise? <==> nz.NoNoiseSamples?) && (o.Found? <==> nz.Estimated?)
    ensures var hb := Noise.FirstMinimumOf(w.samples);
            var nw := env.noiseWindows(hb, |w.samples|);
            var nz := Noise.NoiseOf(w.samples, env.rawBeyond(idx), nw, hb);
            o.Found? ==>
              nz.Estimated? && o.trace == nz.trace
              && o.trace == Noise.Corrected(w.samples, Noise.NoiseMean(w.samples, env.rawBeyond(idx), nw))
              && o.thr == env.threshold(nz.stats.totalvar, nz.stats.m) && o.beyond == env.traceBeyond(idx)
  {
    var pmt := ChannelTable.IndexOf(table, w.channel);
    if !Analyzed(table, env, w) then Skipped
    else
      var hb := Noise.FirstMinimumOf(w.samples);
      var nw := env.noiseWindows(hb, |w.samples|);
      match Noise.NoiseOf(w.samples, env.rawBeyond(idx), nw, hb)
      case Thrown(f) => NoiseThrew(f)
      case NoNoiseSamples => NoNoise
      case Estimated(stats, trace) =>
        Noise.EstimatedParts(w.samples, env.rawBeyond(idx), nw, hb);
        var thr := env.threshold(stats.totalvar, stats.m);
        var scan := PulseFinder.Finder(trace, thr, cfg.speRegionStart);
        Found(pmt, trace, env.traceBeyond(idx), thr, scan.peaks, scan.capHits)
  }

  /** The outcomes of the waveforms of an event, in order. */
  function Outcomes(cfg: Config, table: seq<int>, env: Env, ws: seq<Waveform>): seq<Outcome>
  {
    seq(|ws|, i requires 0 <= i < |ws| => WaveformOutcome(cfg, table, env, i, ws[i]))
  }

  /** Every found channel position addresses the accumulators. */
  predicate FitsTable(os: seq<Outcome>, nch: nat)
  {
    forall i :: 0 <= i < |os| && os[i].Found? ==> 0 <= os[i].pmt < nch
  }

  /** Every found outcome of an event addresses the accumulators. */
  lemma OutcomesFitTable(cfg: Config, table: seq<int>, env: Env, ws: seq<Waveform>)
    ensures FitsTable(Outcomes(cfg, table, env, ws), |table|)
  {
    var os := Outcomes(cfg, table, env, ws);
    forall i | 0 <= i < |os| && os[i].Found?
      ensures 0 <= os[i].pmt < |table|
    {
      assert os[i] == WaveformOutcome(cfg, table, env, i, ws[i]);
    }
  }

  /** The event's state between waveforms: the accumulators, the counts,
      and the exception that ended the event's processing, if any. */
  datatype EventState = EventState(h: Hists, tally: Tally, fault: Option<Fault>)

  /** One waveform applied to the event's state: nothing for a skipped one;
      an exception from the noise stage ends the event; a noise stage
      without samples counts a failure; otherwise each 200-pulse report of
      the finder counts a failure, no pulse at all counts one more, and
      with pulses the enabled blocks run on the channel's accumulators,
      followed (unless one threw) by one success and the SPE count. */
  function WaveformStep(cfg: Config, nch: nat, h: Hists, t: Tally, o: Outcome): (r: EventState)
    requires ValidHists(h, nch, NBins(cfg)) && (o.Found? ==> 0 <= o.pmt < nch)
    ensures ValidHists(r.h, nch, NBins(cfg))
  {
    match o
    case Skipped => EventState(h, t, None)
    case NoiseThrew(f) => EventState(h, t, Some(f))
    case NoNoise => EventState(h, t.(failed := t.failed + 1), None)
    case Found(pmt, trace, tb, thr, peaks, capHits) =>
      var t1 := t.(failed := t.failed + capHits);
      if |peaks| == 0 then EventState(h, t1.(failed := t1.failed + 1), None)
      else
        var s := PulseBlocks(cfg, Get(h, pmt), trace, tb, thr, peaks);
        PutGet(h, nch, NBins(cfg), pmt, s.c);
        var h' := Put(h, pmt, s.c);
        if s.fault.Some? then EventState(h', t1, s.fault)
        else EventState(h', t1.(success := t1.success + 1, totalNspe := t1.totalNspe + |peaks|), None)
  }

  /** The event loop over the outcomes 0..k-1, starting from the
      accumulators `h` and zero counts, ended by the first exception. */
  function EventFold(cfg: Config, nch: nat, h: Hists, os: seq<Outcome>, k: int): (r: EventState)
    requires 0 <= k <= |os| && ValidHists(h, nch, NBins(cfg)) && FitsTable(os, nch)
    ensures ValidHists(r.h, nch, NBins(cfg))
  {
    if k == 0 then EventState(h, Tally(0, 0, 0), None)
    else
      var prev := EventFold(cfg, nch, h, os, k - 1);
      if prev.fault.Some? then prev
      else WaveformStep(cfg, nch, prev.h, prev.tally, os[k - 1])
  }

  /** The analysis of one event's waveforms: the accumulators keep their
      shape, and the counts and the exception are those the outcomes add
      up to, up to and including the first outcome that ends the event. */
  function Event(cfg: Config, table: seq<int>, env: Env, h: Hists, ws: seq<Waveform>): (r: EventState)
    requires ValidHists(h, |table|, NBins(cfg))
    ensures ValidHists(r.h, |table|, NBins(cfg))
    ensures var os := Outcomes(cfg, table, env, ws);
            var j := FirstEnd(cfg, os, |os|);
            r.tally == TallyOf(cfg, os, if j < |os| then j + 1 else |os|)
            && r.fault == (if j < |os| then Ends(cfg, os[j]) else None)
  {
    var os := Outcomes(cfg, table, env, ws);
    OutcomesFitTable(cfg, table, env, ws);
    EventTally(cfg, |table|, h, os, |ws|);
    EventFold(cfg, |table|, h, os, |ws|)
  }

  /** A channel with nothing accumulated yet. */
  function Blank(): (c: ChannelHists)
    ensures |c.integ| == NIntegrals
  {
    ChannelHists(0, [], [], [[], [], [], [], [], []])
  }

  /** The exception with which a waveform ends the event, if any: one from
      the noise stage, or one from the blocks of a waveform with peaks
      (where the blocks throw does not depend on the accumulators they
      start from, see PulseBlocksFaultIndependent). */
  function Ends(cfg: Config, o: Outcome): Option<Fault>
  {
    match o
    case NoiseThrew(f) => Some(f)
    case Found(_, trace, tb, thr, peaks, _) =>
      if |peaks| == 0 then None else PulseBlocks(cfg, Blank(), trace, tb, thr, peaks).fault
    case _ => None
  }

  /** What one waveform adds to the event's counts: a noise stage without
      samples is one failure; a found channel counts one failure per
      200-pulse report, one more when it has no peak, and, when it has
      peaks and its blocks complete, one success and its peaks as SPEs. */
  function Contribution(cfg: Config, o: Outcome): Tally
  {
    match o
    case NoNoise => Tally(0, 1, 0)
    case Found(_, _, _, _, peaks, capHits) =>
      if |peaks| == 0 then Tally(0, capHits + 1, 0)
      else if Ends(cfg, o).Some? then Tally(0, capHits, 0)
      else Tally(1, capHits, |peaks|)
    case _ => Tally(0, 0, 0)
  }

  function Plus(a: Tally, b: Tally): Tally
  {
    Tally(a.success + b.success, a.failed + b.failed, a.totalNspe + b.totalNspe)
  }

  /** The counts the outcomes 0..k-1 add up to. */
  function TallyOf(cfg: Config, os: seq<Outcome>, k: int): Tally
    requires 0 <= k <= |os|
  {
    if k == 0 then Tally(0, 0, 0) else Plus(TallyOf(cfg, os, k - 1), Contribution(cfg, os[k - 1]))
  }

  /** The first of the outcomes 0..k-1 that ends the event, or k when none
      does. */
  function FirstEnd(cfg: Config, os: seq<Outcome>, k: int): (j: nat)
    requires 0 <= k <= |os|
    ensures j <= k
    ensures j < k ==> Ends(cfg, os[j]).Some?
    ensures forall i :: 0 <= i < j ==> Ends(cfg, os[i]).None?
  {
    if k == 0 then 0
    else
      var j := FirstEnd(cfg, os, k - 1);
      if j < k - 1 then j else if Ends(cfg, os[k - 1]).Some? then k - 1 else k
  }

  /** One waveform adds its contribution to the counts and ends the event
      exactly when `Ends` says so. */
  lemma WaveformTally(cfg: Config, nch: nat, h: Hists, t: Tally, o: Outcome)
    requires ValidHists(h, nch, NBins(cfg)) && (o.Found? ==> 0 <= o.pmt < nch)
    ensures var r := WaveformStep(cfg, nch, h, t, o);
            r.tally == Plus(t, Contribution(cfg, o)) && r.fault == Ends(cfg, o)
  {
    if o.Found? && |o.peaks| > 0 {
      PulseBlocksFaultIndependent(cfg, Get(h, o.pmt), Blank(), o.trace, o.beyond, o.thr, o.peaks);
    }
  }

  /** The event loop's counts over the outcomes 0..k-1 are the sum of the
      contributions of the outcomes up to and including the first one that
      ends the event, and the loop ends with that outcome's exception: the
      successes are the found channels with peaks whose blocks complete,
      the SPEs their peaks, and the failures the 200-pulse reports, the
      found channels without a peak and the noise stages without samples. */
  lemma {:induction false} EventTally(cfg: Config, nch: nat, h: Hists, os: seq<Outcome>, k: int)
    requires 0 <= k <= |os| && ValidHists(h, nch, NBins(cfg)) && FitsTable(os, nch)
    ensures var r := EventFold(cfg, nch, h, os, k);
            var j := FirstEnd(cfg, os, k);
            r.tally == TallyOf(cfg, os, if j < k then j + 1 else k)
            && r.fault == (if j < k then Ends(cfg, os[j]) else None)
  {
    if k > 0 {
      EventTally(cfg, nch, h, os, k - 1);
      var prev := EventFold(cfg, nch, h, os, k - 1);
      if FirstEnd(cfg, os, k - 1) == k - 1 {
        WaveformTally(cfg, nch, prev.h, prev.tally, os[k - 1]);
      }
    }
  }

  /** A skipped waveform changes nothing; an analyzed one that does not
      throw counts as a success or a failure or both; there is at most one
      success per waveform and it brings at least one SPE. */
  lemma WaveformCounts(cfg: Config, nch: nat, h: Hists, t: Tally, o: Outcome)
    requires ValidHists(h, nch, NBins(cfg)) && (o.Found? ==> 0 <= o.pmt < nch)
    ensures var r := WaveformStep(cfg, nch, h, t, o);
            (o.Skipped? ==> r == EventState(h, t, None))
            && t.success <= r.tally.success <= t.success + 1 && t.failed <= r.tally.failed
            && r.tally.totalNspe - t.totalNspe >= r.tally.success - t.success
            && (!o.Skipped? && r.fault.None? ==> r.tally.success + r.tally.failed > t.success + t.failed)
  {
  }

  /** A waveform changes the accumulators of its own channel only. */
  lemma WaveformTouchesOwnChannel(cfg: Config, nch: nat, h: Hists, t: Tally, o: Outcome, p: int)
    requires ValidHists(h, nch, NBins(cfg)) && (o.Found? ==> 0 <= o.pmt < nch)
    requires 0 <= p < nch && !(o.Found? && o.pmt == p)
    ensures Get(WaveformStep(cfg, nch, h, t, o).h, p) == Get(h, p)
  {
    if o.Found? && |o.peaks| > 0 {
      var s := PulseBlocks(cfg, Get(h, o.pmt), o.trace, o.beyond, o.thr, o.peaks);
      PutGet(h, nch, NBins(cfg), o.pmt, s.c);
    }
  }

  /** A waveform on which the finder records 200 or more pulses is counted
      both as a failure (the 200-pulse report) and, when its blocks
      complete, as a success. */
  lemma SaturatedWaveformCountsTwice(cfg: Config, nch: nat, h: Hists, t: Tally, pmt: int, trace: seq<real>,
                                      tb: int -> real, thr: real)
    requires ValidHists(h, nch, NBins(cfg)) && 0 <= pmt < nch
    requires |PulseFinder.Finder(trace, thr, cfg.speRegionStart).peaks| >= PulseFinder.MaxPulses
    ensures var scan := PulseFinder.Finder(trace, thr, cfg.speRegionStart);
            var r := WaveformStep(cfg, nch, h, t, Found(pmt, trace, tb, thr, scan.peaks, scan.capHits));
            r.fault.None? ==> r.tally.success == t.success + 1 && r.tally.failed >= t.failed + 1
  {
    assert 0 <= cfg.speRegionStart <= |trace|;
    PulseFinder.CapOnlyCounts(trace, thr, cfg.speRegionStart, |trace|);
  }

  /** How many of the outcomes 0..k-1 are of analyzed waveforms. */
  function AnalyzedCount(os: seq<Outcome>, k: int): (r: nat)
    requires 0 <= k <= |os|
    ensures r <= k
  {
    if k == 0 then 0 else AnalyzedCount(os, k - 1) + (if os[k - 1].Skipped? then 0 else 1)
  }

  /** The event's counts: no more successes than waveforms, at least one SPE
      per success, and, when no exception ended the event, every analyzed
      waveform counted as a success or a failure. */
  lemma {:induction false} EventCounts(cfg: Config, nch: nat, h: Hists, os: seq<Outcome>, k: int)
    requires 0 <= k <= |os| && ValidHists(h, nch, NBins(cfg)) && FitsTable(os, nch)
    ensures var r := EventFold(cfg, nch, h, os, k);
            r.tally.success <= k && r.tally.success <= r.tally.totalNspe
            && (r.fault.None? ==> r.tally.success + r.tally.failed >= AnalyzedCount(os, k))
  {
    if k > 0 {
      EventCounts(cfg, nch, h, os, k - 1);
      var prev := EventFold(cfg, nch, h, os, k - 1);
      if prev.fault.None? {
        WaveformCounts(cfg, nch, prev.h, prev.tally, os[k - 1]);
      }
    }
  }

  /** A channel none of the outcomes 0..k-1 was found on keeps its
      accumulators. */
  lemma {:induction false} OtherChannelsUntouched(cfg: Config, nch: nat, h: Hists, os: seq<Outcome>, k: int, p: int)
    requires 0 <= k <= |os| && ValidHists(h, nch, NBins(cfg)) && FitsTable(os, nch)
    requires 0 <= p < nch && forall i :: 0 <= i < k ==> !(os[i].Found? && os[i].pmt == p)
    ensures Get(EventFold(cfg, nch, h, os, k).h, p) == Get(h, p)
  {
    if k > 0 {
      OtherChannelsUntouched(cfg, nch, h, os, k - 1, p);
      var prev := EventFold(cfg, nch, h, os, k - 1);
      if prev.fault.None? {
        WaveformTouchesOwnChannel(cfg, nch, prev.h, prev.tally, os[k - 1], p);
      }
    }
  }

  /** The event as a whole: no more successes than waveforms, at least one
      SPE per success, every analyzed waveform counted when no exception
      occurred, and the accumulators of a channel none of the waveforms
      belongs to left as they were. The counts themselves are stated by
      Event. */
  lemma EventSummary(cfg: Config, table: seq<int>, env: Env, h: Hists, ws: seq<Waveform>)
    requires ValidHists(h, |table|, NBins(cfg))
    ensures var r := Event(cfg, table, env, h, ws);
            r.tally.success <= |ws| && r.tally.success <= r.tally.totalNspe
            && (r.fault.None? ==>
                  r.tally.success + r.tally.failed >= AnalyzedCount(Outcomes(cfg, table, env, ws), |ws|))
            && forall p :: 0 <= p < |table| && (forall i :: 0 <= i < |ws| ==> ws[i].channel != table[p]) ==>
                 Get(r.h, p) == Get(h, p)
  {
    var os := Outcomes(cfg, table, env, ws);
    OutcomesFitTable(cfg, table, env, ws);
    EventCounts(cfg, |table|, h, os, |ws|);
    forall p | 0 <= p < |table| && (forall i :: 0 <= i < |ws| ==> ws[i].channel != table[p])
      ensures Get(Event(cfg, table, env, h, ws).h, p) == Get(h, p)
    {
      OtherChannelsUntouched(cfg, |table|, h, os, |ws|, p);
    }
  }

  /** An exception ends the event: the waveforms after it are not looked
      at. */
  lemma {:induction false} FaultEndsEvent(cfg: Config, nch: nat, h: Hists, os: seq<Outcome>, j: int, k: int)
    requires 0 <= j <= k <= |os| && ValidHists(h, nch, NBins(cfg)) && FitsTable(os, nch)
    requires EventFold(cfg, nch, h, os, j).fault.Some?
    ensures EventFold(cfg, nch, h, os, k) == EventFold(cfg, nch, h, os, j)
    decreases k
  {
    if k > j {
      FaultEndsEvent(cfg, nch, h, os, j, k - 1);
    }
  }
}
