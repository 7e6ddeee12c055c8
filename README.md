# PMT gain analyzer: a Dafny model

This project models the per-event core of the SBND PMT gain calibration
analyzer (`PMTGain`, in `sbndcode/PDSCalibration/PMTGainAna_module.cc`).
For every optical-detector waveform of an event, the analyzer does the following:

- **Channel lookup.** It finds the channel in the table of PMT channels built at
  construction, and analyzes only channels that are in the table and whose
  detector type is selected.
- **Noise estimation.** It estimates the noise from the position of the waveform's
  minimum and two sample windows. This gives the waveform's mean, a
  baseline-corrected (polarity-flipped) trace and a variance sum.
- **Pulse finder.** It scans the corrected trace from `spe_region_start`. A pulse
  opens above the threshold and closes below it. Pulses that are long enough
  record the index of their running maximum. The 200-pulse check only counts
  failures.
- **Per-pulse blocks.** Each enabled block fills the channel's accumulators:
  - the shape block, which adds the shape window to the average-SPE sums;
  - the amplitude block, which records the peak heights;
  - the six integrals: zero mode, threshold mode and manual mode, each
    without and with a local baseline (the baseline walks stop after 50 steps).
- **Counts.** It counts successes, failures and the SPEs found.

A `.at()` read outside a vector throws, and the exception ends the event.
The model represents it as a `Fault` (`OutOfRange(index)`), returned through
every level. Unchecked `operator[]` reads past the end of a vector yield whatever
lies in memory there. The model supplies those values as functions
(`rawBeyond`, `traceBeyond`), and lemmas show where the results depend on them.

Modules:

- `Wrappers`: `Option`, `Result`, `Fault`.
- `ChannelTable`: the constructor's channel table and `GetPMTIndex`.
- `Noise`: the minimum search and the noise stage.
- `PulseFinder`: the pulse finder as a specification scan (`Finder`) and as
  the analyzer's loop (`FindPulses`).
- `Integrals`: bound walks, summing windows and the local baseline.
- `PulseStages`: the window guard, the isolation test and the shape window.
- `GainAnalysis`: the specification of the blocks and of the event loop, over
  immutable values (`ChannelHists`, `Hists`, `Outcome`, `EventState`).
- `Analyzer`: the loops the analyzer runs for the blocks, and the class
  `PMTGain` with its table and per-channel accumulators updated in place.
  Each method is proved equal to its specification function.

Things the model takes as parameters rather than computing (all in
`GainAnalysis.Env`, or passed to the constructor):

- the detector-type map: whether a channel id is an X-ARAPUCA, and whether a
  channel's type is among those to plot;
- the noise windows, which the analyzer obtains by truncating
  `factor * index` in double precision;
- the threshold `sqrt(totalvar / m) * nstdev`;
- the memory past the end of each waveform's raw samples and corrected trace.

## Model

| member | source | states |
|---|---|---|
| Wrappers.FirstOutOfRange | sbndcode/PDSCalibration/PMTGainAna_module.cc:403-411 | the first index of an inclusive range outside [0, n), i.e. where a loop of checked reads throws; none exactly when every index is inside |
| ChannelTable.PMTsBelowCharacterised | sbndcode/PDSCalibration/PMTGainAna_module.cc:175-197 | the list of non-X-ARAPUCA ids below a bound contains exactly those ids, once each, in increasing order, one per PMT ordinal |
| ChannelTable.BuildIndexingVector | sbndcode/PDSCalibration/PMTGainAna_module.cc:170-197 | the table is strictly increasing, holds only ids below 312 that are not X-ARAPUCAs; with all PMTs it is exactly the PMT ids; with a selection, entry k is the PMT whose ordinal is the k-th selected one, and an increasing selection of existing ordinals is matched in full |
| ChannelTable.AppendLarger | sbndcode/PDSCalibration/PMTGainAna_module.cc:187 | pushing an id larger than all present keeps the table strictly increasing |
| ChannelTable.IndexOf | sbndcode/PDSCalibration/PMTGainAna_module.cc:704-714 | -1 exactly when the channel is absent; otherwise a position holding the channel with no earlier occurrence |
| ChannelTable.GetPMTIndex | sbndcode/PDSCalibration/PMTGainAna_module.cc:704-714 | the linear search returns IndexOf's position |
| ChannelTable.FirstPositionIsUnique | sbndcode/PDSCalibration/PMTGainAna_module.cc:704-714 | any position holding the channel with no earlier occurrence is the one returned |
| Noise.FirstMinimumOf | sbndcode/PDSCalibration/PMTGainAna_module.cc:351-360 | -1 exactly when no sample is below the 999999 sentinel (so for an empty waveform); otherwise the first position of the smallest sample |
| Noise.FirstMinimum | sbndcode/PDSCalibration/PMTGainAna_module.cc:351-360 | the search loop returns FirstMinimumOf |
| Noise.MinimumBecomesMaximum | sbndcode/PDSCalibration/PMTGainAna_module.cc:351-414 | subtracting the raw samples from the mean makes the first minimum the first maximum of the corrected trace: every corrected sample is at most the one at highestbin, and every earlier one strictly less |
| Noise.RawSum | sbndcode/PDSCalibration/PMTGainAna_module.cc:372-381 | definition: the sum of the unchecked reads over an inclusive range, memory past the waveform included |
| Noise.NoiseTotal | sbndcode/PDSCalibration/PMTGainAna_module.cc:370-381 | definition: the total of both mean loops, region 1 [noisebinmin, noisebinmax] and region 2 [noisebin2min, wvf_nbins] |
| Noise.CheckedSquareSum | sbndcode/PDSCalibration/PMTGainAna_module.cc:401-411 | definition: a variance loop with checked reads, the throw at the first index outside the trace, or the sum of squares |
| Noise.SumRegion | sbndcode/PDSCalibration/PMTGainAna_module.cc:372-381 | a mean loop returns the sum of the unchecked reads over its inclusive range and their number |
| Noise.NoiseMean | sbndcode/PDSCalibration/PMTGainAna_module.cc:366-384 | when some sample is visited, the mean times the number of visited samples is the sum of both windows' reads |
| Noise.NoiseOf | sbndcode/PDSCalibration/PMTGainAna_module.cc:366-414 | the stage throws only at an index outside the waveform; otherwise highestbin is inside it, and the stage estimates exactly when some noise sample is visited, with a trace of the waveform's length, that count and NoiseMean; no samples means a count of 0 |
| Noise.SquareRegion | sbndcode/PDSCalibration/PMTGainAna_module.cc:403-411 | a variance loop over the buffer returns the sum of squares, or throws at the first index outside it |
| Noise.CheckedSquareSumSucceeds | sbndcode/PDSCalibration/PMTGainAna_module.cc:403-411 | a variance loop that does not throw read only inside the trace and yields the sum of squares |
| Noise.EstimateNoise | sbndcode/PDSCalibration/PMTGainAna_module.cc:366-414 | the noise stage as written returns NoiseOf: mean, corrected trace, count and variance sum, a throw, or no samples |
| Noise.RawSumAgree | sbndcode/PDSCalibration/PMTGainAna_module.cc:372-381 | two memory states that read alike over a range give the same sum |
| Noise.RawSumFlat | sbndcode/PDSCalibration/PMTGainAna_module.cc:372-381 | reads that all yield c sum to c times their number |
| Noise.SquareSumFlat | sbndcode/PDSCalibration/PMTGainAna_module.cc:403-411 | a constant trace value d gives a variance sum of count times d squared |
| Noise.RegionTwoReadsPastEnd | sbndcode/PDSCalibration/PMTGainAna_module.cc:378-384 | region 2 ends one past the last sample: the mean moves by the difference of that memory value divided by the count |
| Noise.EstimatedParts | sbndcode/PDSCalibration/PMTGainAna_module.cc:366-414 | an estimated noise stage had every variance read inside the trace and at least one sample; its trace and statistics are the corrected trace, mean, count and two sums of squares |
| Noise.FlatWaveformIsQuiet | sbndcode/PDSCalibration/PMTGainAna_module.cc:366-411 | a flat waveform whose past-the-end memory equals the level has mean equal to the level, a zero trace and zero variance |
| Noise.FlatMean | sbndcode/PDSCalibration/PMTGainAna_module.cc:372-384 | the mean of a flat waveform is the level plus the past-the-end excess over the count |
| Noise.FlatWaveformBiasedByPastEnd | sbndcode/PDSCalibration/PMTGainAna_module.cc:378-390 | when that memory differs from the level, the mean differs from it and every corrected sample is the same nonzero offset |
| Noise.FlatBiased | sbndcode/PDSCalibration/PMTGainAna_module.cc:378-390 | the same bias stated on the mean and the corrected trace |
| Noise.VarianceNonNegative | sbndcode/PDSCalibration/PMTGainAna_module.cc:401-411 | the variance sum of an estimated stage is never negative |
| Noise.SquareSumNonNegative | sbndcode/PDSCalibration/PMTGainAna_module.cc:403-411 | a sum of squares is never negative |
| PulseFinder.AsUnsigned32 | sbndcode/PDSCalibration/PMTGainAna_module.cc:436 | the unsigned loop index is the start taken modulo 2^32 |
| PulseFinder.Step | sbndcode/PDSCalibration/PMTGainAna_module.cc:441-471 | one sample: outside a pulse, a pulse opens exactly when the sample is strictly above the threshold, with a reset running maximum, and nothing is recorded; inside one, the pulse closes exactly when the sample is strictly below the threshold, and then yields its running maximum exactly when it closes more than 2 samples after its stored start; an open pulse's running maximum never falls and moves only to a strictly greater sample at the current index |
| PulseFinder.ScanTo | sbndcode/PDSCalibration/PMTGainAna_module.cc:436-477 | after k samples the scan holds one pulse per peak, and no more peaks or 200-pulse failures than samples scanned |
| PulseFinder.Finder | sbndcode/PDSCalibration/PMTGainAna_module.cc:433-477 | one pulse per peak, at most one peak and one failure per sample; a start outside the trace scans nothing |
| PulseFinder.FindPulses | sbndcode/PDSCalibration/PMTGainAna_module.cc:425-484 | the finder loop returns the specification scan's peak list and 200-pulse failure count |
| PulseFinder.FirstPeak | sbndcode/PDSCalibration/PMTGainAna_module.cc:463-469 | definition: the running maximum over an open pulse's samples, starting from the reset index 0 and value 0 and moving only to a strictly greater sample |
| PulseFinder.FirstPeakIsFirstMaximum | sbndcode/PDSCalibration/PMTGainAna_module.cc:463-469 | the running maximum is the first maximum when some sample is positive, and the reset values (0, 0) otherwise |
| PulseFinder.ScanHasShape | sbndcode/PDSCalibration/PMTGainAna_module.cc:436-477 | every prefix of the scan holds one closed, long-enough, ordered pulse per recorded peak and the open pulse's running maximum |
| PulseFinder.ShapeAfterIdle | sbndcode/PDSCalibration/PMTGainAna_module.cc:441-445 | a sample outside a pulse keeps that shape |
| PulseFinder.ShapeAfterClose | sbndcode/PDSCalibration/PMTGainAna_module.cc:448-460 | a sample below the threshold closes the pulse, recording it only when longer than 2, and keeps the shape |
| PulseFinder.ShapeAfterRecord | sbndcode/PDSCalibration/PMTGainAna_module.cc:451-457 | a pulse closed more than 2 samples after its stored start appends its running maximum and itself, keeping the shape |
| PulseFinder.ShapeInsidePulse | sbndcode/PDSCalibration/PMTGainAna_module.cc:463-469 | a sample inside a pulse updates the running maximum only when strictly greater and keeps the shape |
| PulseFinder.RecordedPeaks | sbndcode/PDSCalibration/PMTGainAna_module.cc:436-477 | each recorded peak is the running maximum of its pulse's interior; with a positive threshold, peaks are strictly increasing, after the start, inside the trace, and the first maximum of their pulse; PulseIsRecorded states the converse |
| PulseFinder.OrderedTransitive | sbndcode/PDSCalibration/PMTGainAna_module.cc:448-460 | an earlier recorded pulse closes before a later one opens |
| PulseFinder.QuietTraceRecordsNothing | sbndcode/PDSCalibration/PMTGainAna_module.cc:436-477 | with no sample above the threshold nothing is recorded and no failure counted |
| PulseFinder.OpenTailIsDropped | sbndcode/PDSCalibration/PMTGainAna_module.cc:479-483 | a pulse still open at the end of the trace records nothing |
| PulseFinder.CapOnlyCounts | sbndcode/PDSCalibration/PMTGainAna_module.cc:475 | the 200-pulse failure count is positive exactly when at least 200 peaks are recorded; the scan is not stopped |
| PulseFinder.PeaksInsideTrace | sbndcode/PDSCalibration/PMTGainAna_module.cc:433-477 | whatever the threshold, every recorded peak index lies inside the trace |
| PulseFinder.ResetPeakIsRecorded | sbndcode/PDSCalibration/PMTGainAna_module.cc:433-469 | with threshold 0, a pulse whose interior never rises above 0 is recorded at the reset index 0, before the scan's start |
| PulseFinder.IdleWhileQuiet | sbndcode/PDSCalibration/PMTGainAna_module.cc:441-445 | outside a pulse, samples not above the threshold leave the scan idle and record nothing |
| PulseFinder.PulseIsRecorded | sbndcode/PDSCalibration/PMTGainAna_module.cc:441-460 | from any idle point, the next pulse (opened strictly above the threshold, closed by the first sample strictly below it) is recorded with its running maximum as the peak exactly when it closes more than 2 samples after its stored start, and otherwise dropped; the scan is idle afterwards |
| PulseFinder.IsolatedPulseIsRecorded | sbndcode/PDSCalibration/PMTGainAna_module.cc:436-460 | a single long-enough pulse after a quiet stretch from the start is recorded, its running maximum being the only peak |
| Integrals.WalkFrom | sbndcode/PDSCalibration/PMTGainAna_module.cc:561-576 | a bound walk stops at the first sample not above the level (or at the cap), every sample before it exceeds; it throws at -1 or n exactly when every sample to the edge exceeds |
| Integrals.Walk | sbndcode/PDSCalibration/PMTGainAna_module.cc:561-576 | a walk that completes started inside the trace, ends inside it, every sample it passed exceeds the level, and it never passes the cap; a walk that throws does so at peak, -1 or n, outside the trace |
| Integrals.LocalBaseline | sbndcode/PDSCalibration/PMTGainAna_module.cc:623-626 | succeeds exactly when 50 <= peak < n - 50, with the average of the two samples; otherwise throws at the first read outside |
| Integrals.Window | sbndcode/PDSCalibration/PMTGainAna_module.cc:578-583 | a summing window throws at the first index outside the trace within it, with every earlier one inside; a window that completes lies inside the trace |
| Integrals.WalkedWindow | sbndcode/PDSCalibration/PMTGainAna_module.cc:561-577 | definition: the two walks, left then right, each decremented by one (the walks stop one step past the last kept sample), or the first walk's throw |
| Integrals.WalkedIntegral | sbndcode/PDSCalibration/PMTGainAna_module.cc:561-584 | the integral throws exactly when its walks do, the summing loop never throwing after them, and only at peak, -1 or n |
| Integrals.WalkBound | sbndcode/PDSCalibration/PMTGainAna_module.cc:561-576 | the bound loop with checked reads and the break at the cap returns Walk |
| Integrals.SumWindow | sbndcode/PDSCalibration/PMTGainAna_module.cc:578-583 | the summing loop returns Window |
| Integrals.IntegrateWalked | sbndcode/PDSCalibration/PMTGainAna_module.cc:561-584 | the two walks, the decrement and the sum return WalkedIntegral |
| Integrals.WalkedWindowCharacterised | sbndcode/PDSCalibration/PMTGainAna_module.cc:561-583 | the walked window is empty when the peak does not exceed the level; otherwise a contiguous exceeding range bounded by non-exceeding samples (or by the cap); throws only at peak, -1 or n |
| Integrals.PeakAtOrBelowLevelIntegratesToZero | sbndcode/PDSCalibration/PMTGainAna_module.cc:561-583 | a peak not above the level integrates to 0 |
| Integrals.ManualWindow | sbndcode/PDSCalibration/PMTGainAna_module.cc:607-614 | a fixed window throws exactly when non-empty and leaving the trace, otherwise sums its samples less the baseline; an empty window gives 0 |
| Integrals.SumLessBaseline | sbndcode/PDSCalibration/PMTGainAna_module.cc:670-676 | subtracting the baseline lowers a window's sum by the baseline once per sample |
| Integrals.CappedWalksStayInside | sbndcode/PDSCalibration/PMTGainAna_module.cc:623-668 | once both baseline reads succeed, the capped zero-mode and threshold-mode integrals never throw |
| PulseStages.IsSelected | sbndcode/PDSCalibration/PMTGainAna_module.cc:522-527 | the isolation loop returns Isolated: no peak between 0 and 0.1 samples before, or the cut off |
| PulseStages.Isolated | sbndcode/PDSCalibration/PMTGainAna_module.cc:522-527 | the isolation test, cut or not, selects every peak |
| PulseStages.IsolationNeverRejects | sbndcode/PDSCalibration/PMTGainAna_module.cc:522-527 | two integer peak positions never differ by a fraction strictly between 0 and 0.1, so no comparison of the isolation loop rejects |
| PulseStages.AddShape | sbndcode/PDSCalibration/PMTGainAna_module.cc:531-534 | the shape loop adds ShapeRow to the sums |
| PulseStages.ShapeWindowReadsPastEnd | sbndcode/PDSCalibration/PMTGainAna_module.cc:518-534 | the guard lets the shape window read n and n + 1 for a peak at peak + hibin == n, and it never reads index peak - lowbin |
| GainAnalysis.NBins | sbndcode/PDSCalibration/PMTGainAna_module.cc:202 | definition: the number of shape bins, hibin + lowbin + 1, or none when that is not positive |
| GainAnalysis.PutGet | sbndcode/PDSCalibration/PMTGainAna_module.cc:533-547 | writing one channel's accumulators changes that channel only and keeps every vector's shape |
| GainAnalysis.GuardedCount | sbndcode/PDSCalibration/PMTGainAna_module.cc:518-520 | definition: how many peaks pass the window guard; at most the number of peaks |
| GainAnalysis.GuardedPeaks | sbndcode/PDSCalibration/PMTGainAna_module.cc:518-520 | the peaks that pass the window guard, one per guarded peak, in order; each passes the guard |
| GainAnalysis.ShapeSum | sbndcode/PDSCalibration/PMTGainAna_module.cc:530-534 | definition: what the shape block adds to bin b, the read at peak - lowbin + 1 + b of each guarded peak, past-the-end memory included |
| GainAnalysis.PeakIntegral | sbndcode/PDSCalibration/PMTGainAna_module.cc:556-677 | definition: the integral of kind v of one peak or the exception computing it throws: walked zero mode (level 10), walked threshold mode and the manual window for kinds 0-2; the same after the local baseline, at level 0 and with walks capped at 50 steps, for kinds 3-5 |
| GainAnalysis.ShapeStep | sbndcode/PDSCalibration/PMTGainAna_module.cc:516-536 | keeps the number of shape bins and integral kinds |
| GainAnalysis.ShapeFold | sbndcode/PDSCalibration/PMTGainAna_module.cc:515-538 | keeps the number of shape bins and integral kinds |
| GainAnalysis.AmpStep | sbndcode/PDSCalibration/PMTGainAna_module.cc:543-548 | keeps the number of shape bins and integral kinds |
| GainAnalysis.AmpFold | sbndcode/PDSCalibration/PMTGainAna_module.cc:542-549 | keeps the number of shape bins and integral kinds |
| GainAnalysis.RawIntegralStep | sbndcode/PDSCalibration/PMTGainAna_module.cc:556-616 | keeps the number of shape bins and integral kinds |
| GainAnalysis.RawIntegralFold | sbndcode/PDSCalibration/PMTGainAna_module.cc:556-617 | keeps the number of shape bins and integral kinds |
| GainAnalysis.BaselineIntegralStep | sbndcode/PDSCalibration/PMTGainAna_module.cc:620-677 | keeps the number of shape bins and integral kinds |
| GainAnalysis.BaselineIntegralFold | sbndcode/PDSCalibration/PMTGainAna_module.cc:619-677 | keeps the number of shape bins and integral kinds |
| GainAnalysis.PulseBlocks | sbndcode/PDSCalibration/PMTGainAna_module.cc:515-678 | keeps the number of shape bins and integral kinds |
| GainAnalysis.ShapeFoldCounts | sbndcode/PDSCalibration/PMTGainAna_module.cc:515-538 | the shape block counts one SPE per guarded peak, adds to each shape bin b the reads at peak - lowbin + 1 + b of the guarded peaks, and touches neither amplitudes nor integrals |
| GainAnalysis.AmpFoldRecordsHeights | sbndcode/PDSCalibration/PMTGainAna_module.cc:542-549 | the amplitude block completes exactly when every peak is inside the trace, then appends the heights in order and counts SPEs only with the shape block off |
| GainAnalysis.RawIntegralStepCounts | sbndcode/PDSCalibration/PMTGainAna_module.cc:556-616 | a completed guarded peak appends to kinds 0-2 exactly its zero-mode, threshold-mode and manual integrals, counting its SPE only when shape and amplitude blocks are off; an unguarded peak changes nothing |
| GainAnalysis.RawIntegralFoldCounts | sbndcode/PDSCalibration/PMTGainAna_module.cc:556-617 | a completed block appends to each of kinds 0-2 exactly the integrals of the guarded peaks, in order, and leaves kinds 3-5 alone |
| GainAnalysis.BaselineIntegralStepCounts | sbndcode/PDSCalibration/PMTGainAna_module.cc:620-677 | a completed guarded peak appends to kinds 3-5 exactly its baseline-subtracted zero-mode, threshold-mode and manual integrals and counts nothing; an unguarded peak changes nothing |
| GainAnalysis.BaselineIntegralFoldCounts | sbndcode/PDSCalibration/PMTGainAna_module.cc:619-677 | a completed block appends to each of kinds 3-5 exactly the baseline-subtracted integrals of the guarded peaks, in order, and leaves kinds 0-2 alone |
| GainAnalysis.SpeCount | sbndcode/PDSCalibration/PMTGainAna_module.cc:535-615 | a waveform's blocks count each peak at most once |
| GainAnalysis.PulseBlocksCounts | sbndcode/PDSCalibration/PMTGainAna_module.cc:515-678 | completed blocks grow the SPE count by SpeCount, amplitudes by one per peak, each integral list by one per guarded peak |
| GainAnalysis.PulseBlocksContents | sbndcode/PDSCalibration/PMTGainAna_module.cc:515-549 | completed blocks add to each shape bin the guarded peaks' shape reads and append every peak's height in order; a disabled block leaves its accumulator alone, and earlier amplitudes are kept |
| GainAnalysis.PulseBlocksIntegrals | sbndcode/PDSCalibration/PMTGainAna_module.cc:556-678 | completed blocks append to each of the six integral kinds exactly the guarded peaks' integrals of that kind, in peak order, after what was there; with the integral blocks off the lists are unchanged |
| GainAnalysis.IntegralBlocksRecord | sbndcode/PDSCalibration/PMTGainAna_module.cc:556-677 | the unsubtracted block followed by the baseline-subtracted one, both completed, append to each of the six kinds exactly the guarded peaks' integrals of that kind |
| GainAnalysis.AmpFoldFaultIndependent | sbndcode/PDSCalibration/PMTGainAna_module.cc:542-549 | whether and where the amplitude block throws does not depend on what the accumulators held before |
| GainAnalysis.RawIntegralFoldFaultIndependent | sbndcode/PDSCalibration/PMTGainAna_module.cc:556-617 | whether and where the unsubtracted block throws does not depend on what the accumulators held before |
| GainAnalysis.BaselineIntegralFoldFaultIndependent | sbndcode/PDSCalibration/PMTGainAna_module.cc:619-677 | whether and where the baseline-subtracted block throws does not depend on what the accumulators held before |
| GainAnalysis.PulseBlocksFaultIndependent | sbndcode/PDSCalibration/PMTGainAna_module.cc:515-678 | whether and where a waveform's blocks throw does not depend on what the channel's accumulators held before |
| GainAnalysis.FinderPeaksHaveAmplitudes | sbndcode/PDSCalibration/PMTGainAna_module.cc:542-547 | peaks recorded by the finder never make the amplitude block throw |
| GainAnalysis.AmpFaultEndsBlock | sbndcode/PDSCalibration/PMTGainAna_module.cc:545 | after an exception, later peaks change nothing |
| GainAnalysis.RawIntegralFaultEndsBlock | sbndcode/PDSCalibration/PMTGainAna_module.cc:556-617 | after an exception, later peaks change nothing |
| GainAnalysis.BaselineIntegralFaultEndsBlock | sbndcode/PDSCalibration/PMTGainAna_module.cc:619-677 | after an exception, later peaks change nothing |
| GainAnalysis.ShapeFoldAppends | sbndcode/PDSCalibration/PMTGainAna_module.cc:530-535 | the shape block only adds to the sums and the count |
| GainAnalysis.AmpFoldAppends | sbndcode/PDSCalibration/PMTGainAna_module.cc:542-549 | the amplitude block only appends |
| GainAnalysis.RawIntegralStepAppends | sbndcode/PDSCalibration/PMTGainAna_module.cc:584-615 | one peak of the unsubtracted block only appends |
| GainAnalysis.RawIntegralFoldAppends | sbndcode/PDSCalibration/PMTGainAna_module.cc:556-617 | the unsubtracted block only appends |
| GainAnalysis.BaselineIntegralStepAppends | sbndcode/PDSCalibration/PMTGainAna_module.cc:647-676 | one peak of the baseline-subtracted block only appends |
| GainAnalysis.BaselineIntegralFoldAppends | sbndcode/PDSCalibration/PMTGainAna_module.cc:619-677 | the baseline-subtracted block only appends |
| GainAnalysis.PulseBlocksOnlyAppend | sbndcode/PDSCalibration/PMTGainAna_module.cc:515-678 | a waveform's blocks never remove or rewrite anything, even when one throws part way |
| GainAnalysis.WaveformOutcome | sbndcode/PDSCalibration/PMTGainAna_module.cc:298-477 | skipped exactly when the channel is not in the table or its type is not plotted; otherwise the noise stage's throw, lack of samples or estimate is the outcome's, a found outcome names the channel's table position, and carries the corrected trace, the threshold from that stage's variance sum and count, and the finder's scan of that trace |
| GainAnalysis.WaveformStep | sbndcode/PDSCalibration/PMTGainAna_module.cc:475-684 | keeps the accumulators well formed |
| GainAnalysis.OutcomesFitTable | sbndcode/PDSCalibration/PMTGainAna_module.cc:288-300 | every found outcome of an event names a position inside the channel table |
| GainAnalysis.EventFold | sbndcode/PDSCalibration/PMTGainAna_module.cc:288-684 | keeps the accumulators well formed |
| GainAnalysis.Event | sbndcode/PDSCalibration/PMTGainAna_module.cc:288-684 | the accumulators stay well formed; the counts are the sum of every waveform's contribution up to and including the first that throws, and the exception is that waveform's |
| GainAnalysis.FirstEnd | sbndcode/PDSCalibration/PMTGainAna_module.cc:288-684 | the position of the first waveform whose analysis throws, or the number of waveforms when none does |
| GainAnalysis.Ends | sbndcode/PDSCalibration/PMTGainAna_module.cc:475-683 | definition: the exception a waveform ends the event with, from the noise stage or from the blocks of a waveform with peaks |
| GainAnalysis.Contribution | sbndcode/PDSCalibration/PMTGainAna_module.cc:475-683 | definition: a waveform's counts, one failure for no noise samples or no peaks, one failure per 200-pulse report, and one success with its peaks as SPEs when its blocks complete |
| GainAnalysis.TallyOf | sbndcode/PDSCalibration/PMTGainAna_module.cc:288-684 | definition: the sum of the contributions of the first k waveforms |
| GainAnalysis.WaveformTally | sbndcode/PDSCalibration/PMTGainAna_module.cc:475-683 | one waveform adds its contribution to the counts: one failure for no noise samples or no peaks, its 200-pulse failures, and when its blocks complete one success and one SPE per peak; it throws exactly what its blocks throw |
| GainAnalysis.WaveformCounts | sbndcode/PDSCalibration/PMTGainAna_module.cc:475-683 | a skipped waveform changes nothing; at most one success per waveform, with at least one SPE; an analyzed waveform that does not throw counts as a success or a failure |
| GainAnalysis.EventTally | sbndcode/PDSCalibration/PMTGainAna_module.cc:288-684 | the event loop's counts are the sum of the contributions up to and including the first waveform that throws, and its exception is that waveform's |
| GainAnalysis.WaveformTouchesOwnChannel | sbndcode/PDSCalibration/PMTGainAna_module.cc:515-677 | a waveform changes the accumulators of its own channel only |
| GainAnalysis.SaturatedWaveformCountsTwice | sbndcode/PDSCalibration/PMTGainAna_module.cc:475-683 | a waveform with 200 or more pulses counts as a failure and, if its blocks complete, also as a success |
| GainAnalysis.AnalyzedCount | sbndcode/PDSCalibration/PMTGainAna_module.cc:300-306 | the number of analyzed waveforms is at most the number seen |
| GainAnalysis.EventCounts | sbndcode/PDSCalibration/PMTGainAna_module.cc:288-684 | successes never exceed waveforms or SPEs; without an exception every analyzed waveform is counted |
| GainAnalysis.OtherChannelsUntouched | sbndcode/PDSCalibration/PMTGainAna_module.cc:288-684 | a channel no waveform was found on keeps its accumulators |
| GainAnalysis.EventSummary | sbndcode/PDSCalibration/PMTGainAna_module.cc:253-684 | successes never exceed waveforms or SPEs, without an exception every analyzed waveform is counted, and channels absent from the event are untouched |
| GainAnalysis.FaultEndsEvent | sbndcode/PDSCalibration/PMTGainAna_module.cc:288-684 | after an exception, later waveforms change nothing |
| Analyzer.ShapeBlock | sbndcode/PDSCalibration/PMTGainAna_module.cc:515-538 | the shape loop returns ShapeFold |
| Analyzer.AmpBlock | sbndcode/PDSCalibration/PMTGainAna_module.cc:542-549 | the amplitude loop returns AmpFold, stopping at the first throw |
| Analyzer.RawIntegralPeak | sbndcode/PDSCalibration/PMTGainAna_module.cc:557-616 | one peak of the unsubtracted block returns RawIntegralStep |
| Analyzer.RawIntegralBlock | sbndcode/PDSCalibration/PMTGainAna_module.cc:556-617 | the unsubtracted loop returns RawIntegralFold |
| Analyzer.BaselineIntegralPeak | sbndcode/PDSCalibration/PMTGainAna_module.cc:620-677 | one peak of the baseline-subtracted block returns BaselineIntegralStep |
| Analyzer.BaselineIntegralBlock | sbndcode/PDSCalibration/PMTGainAna_module.cc:619-677 | the baseline-subtracted loop returns BaselineIntegralFold |
| Analyzer.RunBlocks | sbndcode/PDSCalibration/PMTGainAna_module.cc:515-678 | the enabled blocks in order return PulseBlocks |
| Analyzer.Booked | sbndcode/PDSCalibration/PMTGainAna_module.cc:202-231 | one entry per channel, each with NBINS zero shape bins and empty amplitude and six empty integral lists |
| Analyzer.Book | sbndcode/PDSCalibration/PMTGainAna_module.cc:208-231 | the booking loop returns Booked |
| Analyzer.PMTGain.constructor | sbndcode/PDSCalibration/PMTGainAna_module.cc:170-231 | the object is valid, its table has BuildIndexingVector's properties, and its accumulators are Booked |
| Analyzer.PMTGain.StoreChannel | sbndcode/PDSCalibration/PMTGainAna_module.cc:533-676 | the new state is the old one with that channel's accumulators replaced |
| Analyzer.PMTGain.Examine | sbndcode/PDSCalibration/PMTGainAna_module.cc:298-477 | lookup, noise stage and finder return WaveformOutcome |
| Analyzer.PMTGain.AnalyzeWaveform | sbndcode/PDSCalibration/PMTGainAna_module.cc:288-684 | the new state, counts and exception are WaveformStep's for the waveform's outcome |
| Analyzer.PMTGain.Analyze | sbndcode/PDSCalibration/PMTGainAna_module.cc:242-684 | the new state, counts and exception are Event's for the event's waveforms |

## Left out

- ChannelTable.BuildIndexingVector and Analyzer.PMTGain.constructor require a non-empty selection when not every PMT is used. With an empty selection the analyzer reads the first selected ordinal past the end of the list, which is undefined behaviour; the model does not describe that case.
- The framework around the module is not modelled. This covers fhicl parameter reading, the art event and its handle, `beginJob`/`endJob`, and the histogram files. The model takes a `Config` and the event's waveforms; a missing or empty handle is the empty sequence.
- ROOT histograms are kept as plain lists of filled values. The amplitude and integral binning (50 bins) and the shape histogram's axis are not modelled. The shape sums are the per-bin contents of bins 1..NBINS.
- Per-waveform debug histograms, timestamps, sampling frequencies and all printed output are left out: they do not affect the analysis.
- The detector-type map (`sbndPDMapAlg`) is a parameter: an X-ARAPUCA predicate at construction and a "type is plotted" predicate per channel.
- The noise windows are parameters, because the analyzer obtains them by truncating `factor * index` in double precision. So is the threshold `sqrt(totalvar / m) * nstdev`. Floating point is modelled as exact reals.
- Noise.NoiseMean: when no sample is visited, the analyzer divides 0 by 0 (NaN), so no comparison holds and the finder records nothing. The model states that case directly as a failure (`NoNoiseSamples`) instead of computing a NaN.
- Noise.VarianceNonNegative: the model states that the variance sum is not negative. It makes no claim about the threshold this sum yields.
- The `Int_t`/`int` widths of indices and counters are not modelled, except the 32-bit unsigned start of the finder loop. Waveforms are assumed to have fewer than 2^31 samples.
- GainAnalysis.NBins: when `hibin + lowbin + 1` is not positive, the model books no shape bins, where ROOT would book a histogram with its own default binning.
- Analyzer.PMTGain.StoreChannel: the analyzer fills the accumulators of `pmt_counter` one value at a time. The model works on a copy of the channel's accumulators and writes it back once per waveform, including when a block throws part way. The values stored are the same, and no other channel is ever touched in between.
- The endJob normalisation of the shape histograms (division by `navspes`) is not part of the per-event core and is not modelled.
