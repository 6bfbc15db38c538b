# Verification of the amp-model engine's signal path and loaders

A Dafny model of the stateful cores of a real-time neural amp-model engine, with proofs
of what each core is for. Audio samples and gains are `real`, indices and counters are
unbounded integers (wrap-around is written out where the source relies on it), and
objects the source updates in place are classes whose methods are proved against a
specification over the object's whole history.

| file | what it models |
|---|---|
| `Basics.dfy` | shared types, comparisons and product facts |
| `Signals.dfy`, `HalfBand.dfy` | signals over all of time, FIR convolution, and the half-band coefficient layout with its short dot products |
| `Stage.dfy` | one 2x oversampling stage: mirrored rings, phase-batched loops, even/odd demultiplexing |
| `Oversample.dfy` | the Off/X2/X4 engine: cascade, clamping and alignment, block partition, latency |
| `OrderStatistics.dfy`, `LatencyBins.dfy`, `Telemetry.dfy` | latency histogram and exact reservoir against order statistics |
| `Gate.dfy`, `GateRuns.dfy` | the noise gate, and its gain sequence over whole runs |
| `Crossfade.dfy`, `Adaptive.dfy` | crossfade timing, and the adaptive-compute machine with hysteresis and crossfade |
| `Container.dfy` | the submodel bundle and its crossfade controller |
| `PlaneAdapter.dfy` | staging between planar buffers and an interleaved processor, with aliasing |
| `SampleRate.dfy`, `RatePaths.dfy` | sample-rate resolution over a tree of models, under shared limits, and the same limits and rates path by path |
| `LittleEndian.dfy`, `Wav.dfy`, `WavChunks.dfy`, `WavRoundTrip.dfy`, `WavErrors.dfy` | the WAV impulse-response parser, the chunk grammar behind it, its inverse, and the fault behind each rejection |
| `Polyphase.dfy` | partition of a prototype filter into phases |
| `Clock.dfy` | fixed-point conversion of cycles to nanoseconds |

## Main results

- Oversampling. On the way up, whatever the call pattern, a stage emits exactly the next
  stretch of the 25-tap convolution of everything it has consumed, zero-stuffed. On the way
  down, over calls of even length with room for their outputs, it emits exactly the next
  stretch of the decimated convolution (`Oversample.DecimateWhole`); a call of odd length
  may leave an output of the stream unwritten, and `Stage.X2Stage.Downsample` says which
  ones are written. The engine only makes even calls: its outputs do not depend on how a
  stream is cut into calls, it never writes past what it reports, it takes all that fits and
  nothing else, it raises the contract flag exactly when it drops input, and the latency it
  reports is the axis shift of its linear-phase round trip: 0, 12 and 18 samples.
- Telemetry. A percentile answer is the upper edge of the bin of the true order statistic,
  hence between it and 9/8 of it, as long as the order statistic is below 2^31 or no sample
  reached 2^32 (`Telemetry.Reportable`); it never reports less than the exact reservoir
  answers on the same samples. `LatencyBins.EdgesBracketExactly` shows the bound holds for a
  value if and only if it is below 2^32: the doc comment of the upper edge promises it for
  any sample the bin holds, the comment of the bin index only up to 2^31.
- Noise gate. Under fixed fade length, consecutive gains of a whole run differ by nothing or
  by one fade step if and only if the fade length is at most 10^6; multiplier and gains stay
  in [0, 1] for every parameter change, in sub-blocks shorter than the ramp too; a closed
  gate stirs exactly at the open threshold, an open one leaves Open exactly on completing a
  stretch of the hold length below the close threshold; silence closes the gate within a
  bound, and loud blocks open it once they total the fade length. The mono form lays the
  ramp over the whole buffer: a buffer of `len` samples stays in [0, 1] after every run that
  ends in a declared block of `n` if and only if `len` is at most `n + 1` or `n` exceeds
  10^9, where every ramp over the block is too flat to be laid
  (`GateRuns.BufferInUnitExactly`).
- Adaptive compute. Two counters suffice to follow a machine that remembers every verdict;
  over any latencies the level is the one dictated by three in a row above a limit or five
  in a row below half of one; 3 d + 5 r <= K over K updates; levels change one at a time;
  through a whole crossfade at one sample rate, however often it is re-targeted, the gain
  never decreases, and the fade ends exactly when its samples have passed.
- Container. The output moves from the active submodel's block towards the pending one's by
  the fraction of the fade that has passed. The controller heads for the last request whose
  reset did not fail, over any mix of requests and blocks, and fitting blocks totalling the
  fade's rest bring it there. Over any such run a submodel fades against itself if and only
  if a request during a fade failed and since then nothing but the target was asked for and
  no fade ended, or the run started that way undisturbed (`Container.SelfFadeExactly`); it
  then hears every block that fits the scratch buffer twice
  (`Container.SelfFadeHearsTwice`).
- Staging. The output planes hold one unchunked run on the original inputs even when input
  and output planes are the same arrays, and no other plane changes.
- Sample rates. Resolution succeeds if and only if the tree is within its limits and its
  declared rates form a set of size at most one, and an error names a fault on some path
  from the root; the limits and rates are those met along such paths; reordering children at
  any depths, all at once, changes neither the verdict nor the rate.
- WAV. The parser accepts exactly the containers with one valid format chunk and, later, one
  data chunk of whole frames; it ignores unknown chunks and trailing bytes; it inverts a
  serializer for every supported sample format, integers as fractions of full scale; every
  error names a fault that the file has.
- Polyphase and clock. The dot product of a stored phase, times the sum it was divided by,
  is 256 times the zero-stuffed convolution. The clock is within 1 + c/2^32 ns of the
  measured rate if and only if c is 0 or neither the cast of the multiplier nor the final
  cast truncates (`Clock.AccurateExactly`; `Clock.TruncatedRate` is a rate whose multiplier
  is truncated). It never runs backwards over the whole 64-bit counter if and only if the
  multiplier is at most 2^32 (`Clock.MonotoneExactly`): the doc comment of `cycles_to_nanos`
  says the full domain maps without wrapping for any multiplier.

## Model

| member | source | states |
|---|---|---|
| HalfBand.Design | src/dsp/stage.rs:125-161 | the stored coefficients are the prototype's odd taps, rescaled to half the DC gain and reversed; the centre tap is the other half |
| HalfBand.LayOut | src/dsp/stage.rs:130-146 | only odd taps are stored, tap 2k+1 in slot k |
| HalfBand.Rescale | src/dsp/stage.rs:148-156 | every stored tap is multiplied by one scale, applied only when the sum is not negligible |
| HalfBand.Reverse | src/dsp/stage.rs:158 | reversal in place |
| HalfBand.DesignedTap | src/dsp/stage.rs:125-161 | undoing the reversal, odd tap i of the kernel is prototype tap i scaled |
| HalfBand.DesignedExactly | src/dsp/stage.rs:125-161 | the centre tap is half the DC gain, and the odd taps share the other half in the prototype's proportions or, nearly cancelling, are the prototype's |
| HalfBand.DesignedIsLinearPhase | src/dsp/stage.rs:125-161 | a symmetric prototype gives a symmetric 25-tap kernel |
| HalfBand.DesignedGain | src/dsp/stage.rs:148-156 | the 25 taps sum to the requested DC gain whenever the odd taps do not nearly cancel |
| HalfBand.StuffedFir | src/dsp/stage.rs:236-322 | on a zero-stuffed signal the 25-tap FIR is one centre product at even times and a 12-tap dot product at odd times |
| HalfBand.DecimatedFir | src/dsp/stage.rs:432-484 | at even times the 25-tap FIR is the centre product plus a 12-tap dot product over odd-phase samples |
| Stage.Push | src/dsp/stage.rs:391-426 | a double write keeps both halves of a mirrored ring equal and advances the window of the last n samples |
| Stage.UpsampledPrefix | src/dsp/stage.rs:236-322 | later input never revises upsampled output already produced |
| Stage.DecimatedPrefix | src/dsp/stage.rs:347-484 | later input never revises decimated output already produced |
| Stage.UpsampledPair | src/dsp/stage.rs:264-315 | the pair for one input sample, read off the last 12 samples, is the zero-stuffed convolution at those two times |
| Stage.DecimatedOutput | src/dsp/stage.rs:432-484 | an output read off the even and odd rings is the convolution of the whole history at time 2m |
| Stage.X2Stage.constructor | src/dsp/stage.rs:186-202 | a new stage holds silence and an empty history |
| Stage.X2Stage.Reset | src/dsp/stage.rs:209-217 | every cell and counter returns to its initial value, the history to empty |
| Stage.X2Stage.Upsample | src/dsp/stage.rs:236-322 | writes twice the samples that fit, exactly the next stretch of the zero-stuffed convolution of all input so far; nothing else in the output changes |
| Stage.X2Stage.UpsampleRun | src/dsp/stage.rs:249-316 | a non-wrapping run keeps ring and output stream in step |
| Stage.X2Stage.Downsample | src/dsp/stage.rs:347-387 | for any length and parity, emits exactly the next outputs of filter-then-decimate over all input so far, half the input or as many as fit |
| Stage.X2Stage.PairLoop | src/dsp/stage.rs:371-378 | the phase-batched loop consumes whole pairs and owes one output per pair |
| Stage.X2Stage.WriteEvenSample | src/dsp/stage.rs:391-407 | the even ring holds the last 13 even-phase samples |
| Stage.X2Stage.WriteOddSample | src/dsp/stage.rs:411-426 | the odd ring holds the last 12 odd-phase samples |
| Stage.X2Stage.EmitDownsampleOutput | src/dsp/stage.rs:432-484 | appends the decimated output for the latest even sample, if there is room |
| Oversample.LargestWhole | src/dsp/oversample.rs:376-400 | aligning down is the largest multiple of the factor, so only what does not fit or complete a sample is dropped |
| Oversample.UpPartition | src/dsp/oversample.rs:302-342 | outputs of any sequence of calls, concatenated, are those of one call on the joined input |
| Oversample.DownPartition | src/dsp/oversample.rs:370-426 | the same for downsampling, over blocks of whole samples |
| Oversample.RoundTripIsLinearPhase | src/dsp/oversample.rs:240-263 | with symmetric kernels, reflecting the input about an axis reflects the round trip about an axis `LatencySamples` later, at both factors |
| Oversample.StreamRoundTrip | src/dsp/oversample.rs:302-426 | upsampling then downsampling a stream from rest is the round-trip operator on it |
| Oversample.PulseLatency | src/dsp/oversample.rs:240-263 | a symmetric pulse followed by 2·latency zeros comes out as a symmetric block of the same length |
| Oversample.CascadeUp | src/dsp/oversample.rs:337-340 | the second stage sees exactly the first stage's stream |
| Oversample.CascadeDown | src/dsp/oversample.rs:421-424 | every length a decimation stage sees is even and the first stage consumes exactly the second's stream |
| Oversample.OversampleEngine.constructor | src/dsp/oversample.rs:176-199 | as many stages as the factor needs, at rest |
| Oversample.OversampleEngine.Reset | src/dsp/oversample.rs:215-225 | histories are empty and the scratch is zero, as for a new engine |
| Oversample.OversampleEngine.AcceptedExactly | src/dsp/oversample.rs:309-314 | upsampling accepts m samples exactly if the input has them, the engine allows them and the output holds m times the factor |
| Oversample.OversampleEngine.TakenExactly | src/dsp/oversample.rs:376-397 | downsampling takes whole native samples, and no whole number of them that fits input, engine and output is refused |
| Oversample.OversampleEngine.Upsample | src/dsp/oversample.rs:302-342 | accepts exactly the clamped prefix, writes exactly its share of the stream, and raises the violation flag if and only if input was dropped |
| Oversample.OversampleEngine.Downsample | src/dsp/oversample.rs:370-426 | accepts exactly the clamped and aligned prefix, writes exactly its share of the stream, and raises the flag if and only if input was dropped |
| OrderStatistics.OrderStatisticIsRanked | src/dsp/telemetry.rs:501-512 | the r-th entry of the sorted samples has fewer than r samples below it and at least r not above it |
| OrderStatistics.RankedIsUnique | src/dsp/telemetry.rs:501-512 | that counting definition determines the value |
| OrderStatistics.SortedBelow | src/dsp/telemetry.rs:501-512 | sorting keeps every count |
| OrderStatistics.OrderStatisticRotated | src/dsp/telemetry.rs:479-512 | rotating the samples changes no order statistic |
| OrderStatistics.LeastAndGreatest | src/dsp/telemetry.rs:501-512 | the first order statistic is the least sample, the last one the greatest |
| LatencyBins.BinSplit | src/dsp/telemetry.rs:38-50 | the index of a value from 8 to 2^32 is its octave and the three bits below the leading one |
| LatencyBins.BinInRange | src/dsp/telemetry.rs:38-50 | every value has one of the 256 bins |
| LatencyBins.BinMonotone | src/dsp/telemetry.rs:38-50 | larger values never land in smaller bins while the larger is below 2^32 or the smaller below the top octave |
| LatencyBins.EdgesBracket | src/dsp/telemetry.rs:52-87 | the bin's edges bracket a value below 2^32, each within 1/8 |
| LatencyBins.EdgesBracketExactly | src/dsp/telemetry.rs:70-87 | the upper edge is within the documented bound if and only if the value is below 2^32 |
| LatencyBins.UnfaithfulEdge | src/dsp/telemetry.rs:28-37 | from 2^32 on the upper edge is below the value |
| Telemetry.BinsSeparate | src/dsp/telemetry.rs:336-360 | cumulative bin counts up to a value's bin bracket the count of samples up to that value |
| Telemetry.ScanFindsRank | src/dsp/telemetry.rs:336-360 | the first bin whose cumulative count reaches rank r is the bin of the rank-r sample |
| Telemetry.LatencyHistogram.Record | src/dsp/telemetry.rs:313-322 | counters, extremes and the wrapped sum describe the recorded multiset plus the new sample |
| Telemetry.LatencyHistogram.GetPercentileOpt | src/dsp/telemetry.rs:336-360 | None exactly when empty or out of range; otherwise the edge of the bin of the rank max(1, ⌈Np⌉) sample |
| Telemetry.ReportAccuracy | src/dsp/telemetry.rs:262-275 | such a report is between the order statistic and 9/8 of it |
| Telemetry.LatencyHistogram.GetMax | src/dsp/telemetry.rs:363-370 | 0 when empty, else the upper edge of the highest bin in use: between the exact maximum and 9/8 of it, or at most 2^32 and at most the maximum once a sample reached 2^32 |
| Telemetry.LatencyHistogram.GetMin | src/dsp/telemetry.rs:373-380 | 0 when empty, else the lower edge of the lowest bin in use: never above the exact minimum, and at least 8/9 of it when the minimum is below 2^31 or no sample reached 2^32 |
| Telemetry.LatencyHistogram.TotalCount | src/dsp/telemetry.rs:392-394 | the number of samples recorded since the last reset |
| Telemetry.LatencyHistogram.Reset | src/dsp/telemetry.rs:401-408 | nothing is recorded |
| Telemetry.CeilRankExactly | src/dsp/telemetry.rs:349 | the histogram's rank is the r with r - 1 < Np <= r, or 1 if Np is 0 |
| Telemetry.FloorRankExactly | src/dsp/telemetry.rs:509-510 | the reservoir's rank is the r with r <= Np < r + 1, or 1 if Np is below 1 |
| Telemetry.RanksAgree | src/dsp/telemetry.rs:349 | the histogram's and the reservoir's rank agree exactly when Np is whole or below one |
| Telemetry.RingPush | src/dsp/telemetry.rs:479-485 | overwriting slot count mod N keeps a ring over the last N samples |
| Telemetry.RingHolds | src/dsp/telemetry.rs:479-490 | the filled slots hold exactly the multiset of the last min(count, N) samples |
| Telemetry.RingStatistic | src/dsp/telemetry.rs:501-512 | the ring's order statistics are those of the retained samples |
| Telemetry.ExactLatencyReservoir.Record | src/dsp/telemetry.rs:479-485 | the history grows by the sample and the ring follows it |
| Telemetry.ExactLatencyReservoir.PercentileExact | src/dsp/telemetry.rs:501-512 | 0 when empty; else for p in [0, 1] the order statistic of rank max(1, ⌊len·p⌋) of the retained samples, for p <= 0 the least of them and for p >= 1 the greatest |
| Telemetry.ClampedIsPercentile | src/dsp/telemetry.rs:509-511 | clamping p gives exactly those three answers |
| Telemetry.HistogramAgreesWithReservoir | src/dsp/telemetry.rs:336-360 | with nothing overwritten the histogram never reports less than the reservoir's answer, and within 9/8 of it where the two ranks agree |
| Gate.DynamicHysteresis.Update | src/dsp/gate.rs:278-317 | the handlers together perform one transition of the machine over fade positions |
| Gate.DynamicHysteresis.UpdateOpen | src/dsp/gate.rs:319-355 | the Open arm of that transition |
| Gate.DynamicHysteresis.UpdateFadingOut | src/dsp/gate.rs:357-399 | the FadingOut arm, re-trigger included |
| Gate.DynamicHysteresis.UpdateClosed | src/dsp/gate.rs:401-443 | the Closed arm, instant opening included |
| Gate.DynamicHysteresis.UpdateFadingIn | src/dsp/gate.rs:445-476 | the FadingIn arm, reversal included |
| Gate.DynamicHysteresis.ApplyGainRt | src/dsp/gate.rs:490-546 | every sample of the buffer is multiplied by the gain the state prescribes; nothing happens to an empty block |
| Gate.DynamicHysteresis.ApplyGainRtStereo | src/dsp/gate.rs:559-639 | both channels get the same gains over their common prefix, the tails are untouched |
| Gate.DynamicHysteresis.Reset | src/dsp/gate.rs:249-251 | the state is the initial one |
| GateRuns.RunSafe | src/dsp/gate.rs:278-476 | under any parameter changes the multiplier is in [0, 1], Open means 1, Closed means 0, and no ramp outlasts its block |
| GateRuns.GainInUnit | src/dsp/gate.rs:480-546 | no sample of a block, nor the one past it, is amplified or inverted, in sub-blocks shorter than the ramp too |
| GateRuns.SubBlockArrives | src/dsp/gate.rs:480-522 | over a sub-block no longer than the ramp the gain arrives at the multiplier one sample past it, with the kernels' tolerances stated |
| GateRuns.LongBufferOvershoots | src/dsp/gate.rs:490-522 | a two-block run that amplifies every position from two past a block of at most 10^9 samples |
| GateRuns.OvershootsExactly | src/dsp/gate.rs:490-522 | after every run ending in a block of n samples, position k is in [0, 1] if and only if k <= n or n > 10^9 |
| GateRuns.BufferInUnitExactly | src/dsp/gate.rs:490-546 | a whole buffer of len samples is in [0, 1] after every such run if and only if len <= n + 1 or n > 10^9 |
| GateRuns.StepGlides | src/dsp/gate.rs:278-476 | a block moves the fade position one unit per sample and ramps exactly as long as it moves |
| GateRuns.GainFollowsLevel | src/dsp/gate.rs:490-546 | sample k gets the fade position after k unit steps over the fade length |
| GateRuns.RunIsClickFree | src/dsp/gate.rs:278-546 | over a whole run, borders, reversals and re-triggers included, consecutive gains differ by 0 or exactly one fade step |
| GateRuns.LongFadeClicks | src/dsp/gate.rs:509-523 | for any fade above 10^6 a three-block run has a different step |
| GateRuns.ClickFreeExactly | src/dsp/gate.rs:490-546 | every run is click-free if and only if the fade length is at most 10^6 |
| GateRuns.HoldCountsQuiet | src/dsp/gate.rs:319-355 | the hold counter of an open gate is the length of the trailing stretch of quiet |
| GateRuns.ThresholdsExactly | src/dsp/gate.rs:319-476 | a closed gate stirs and a closing one turns round exactly at or above the open threshold, an opening one turns round exactly below the close threshold, an open one at or above it forgets its hold |
| GateRuns.BetweenThresholds | src/dsp/gate.rs:319-476 | between the two thresholds the gate keeps its direction |
| GateRuns.InstantFade | src/dsp/gate.rs:319-476 | with no fade length every change is complete within its block, without a ramp |
| GateRuns.LeavesOpenExactly | src/dsp/gate.rs:319-355 | the gate leaves Open exactly on a block below the close threshold that completes such a stretch of at least the hold length |
| GateRuns.SilenceProgresses | src/dsp/gate.rs:278-476 | a silent block strictly decreases the distance to Closed, and Closed persists |
| GateRuns.SilenceCloses | src/dsp/gate.rs:278-476 | from any state, that many silent blocks leave the gate closed |
| GateRuns.LoudOpens | src/dsp/gate.rs:319-476 | from any state, blocks at the open threshold that total the fade length leave the gate open |
| GateRuns.LoudOpensExactly | src/dsp/gate.rs:401-476 | from Closed fewer samples do not, and the fade position is then their number |
| Adaptive.TransitionsArePaid | src/dsp/adaptive.rs:307-387 | degradations minus recoveries is the level, and every transition is paid for by its updates plus the run in progress |
| Adaptive.OscillationBound | src/dsp/adaptive.rs:307-387 | 3d + 5r <= K and 8d <= K + 10 |
| Adaptive.OneLevelAtATime | src/dsp/adaptive.rs:307-387 | Full and Minimal are never adjacent |
| Adaptive.RunsStayShort | src/dsp/adaptive.rs:307-387 | a run never reaches its threshold without a transition |
| Adaptive.CountersSuffice | src/dsp/adaptive.rs:307-387 | the two trailing-run lengths determine the next level and the next lengths |
| Adaptive.LoadDecidesLevel | src/dsp/adaptive.rs:165-387 | over any latencies the level is that of a reference that counts only runs: three in a row above 0.55 then 0.70 (Aggressive) or 0.70 then 0.85 (Conservative) degrade, five in a row below half the limit that was passed recover |
| Crossfade.RebaseKeepsProgress | src/dsp/adaptive.rs:400-419 | retargeting a fade keeps its progress, exactly at an unchanged duration |
| Adaptive.AdaptiveCompute.Update | src/dsp/adaptive.rs:307-387 | the object follows the machine that remembers every verdict; an update while Off, forced or with no budget changes nothing; flags and crossfade move only with the level |
| Adaptive.AdaptiveCompute.TransitionTo | src/dsp/adaptive.rs:390-439 | flags encode the new level, the fade origin and progress of a running fade are kept |
| Adaptive.AdaptiveCompute.CrossfadeMultiplier | src/dsp/adaptive.rs:267-294 | the gain is the fade's, in [0, 1], and the fade advances and ends exactly when its time is up |
| Crossfade.FadeNeverFallsBack | src/dsp/adaptive.rs:267-419 | through a whole fade, over any calls that advance or re-target it at one sample rate, the reported gain never decreases |
| Crossfade.CrossfadeLength | src/dsp/adaptive.rs:400-419 | a fade lasts 32 ms of samples, rounded, and at least one |
| Crossfade.FadeRunsItsCourse | src/dsp/adaptive.rs:267-294 | a running fade is idle exactly when its remaining samples have passed, and until then its position counts them |
| Crossfade.FadeReportsProgress | src/dsp/adaptive.rs:267-294 | it reports the fraction of its samples that have passed, and full gain at its end |
| Crossfade.FreshFadeStartsAtZero | src/dsp/adaptive.rs:400-419 | a fade started from idle begins at position and gain zero |
| Adaptive.AdaptiveCompute.SetMode | src/dsp/adaptive.rs:218-231 | Off clears history, level, fade and flags; other modes keep history, level, fade origin, fade, flags and counters |
| Adaptive.AdaptiveCompute.Reset | src/dsp/adaptive.rs:204-214 | history, level, fade and flags are cleared, configuration kept |
| Container.ValidateSubmodels | src/models/container.rs:188-217 | sorts in place without loss and reports exactly which requirement fails, with the first offending index |
| Container.NewContainer | src/models/container.rs:176-264 | succeeds exactly on valid submodels, and then holds their thresholds, ascending, and responses in sorted order |
| Container.SortByMaxSorts | src/models/container.rs:193 | comparable thresholds end up ascending |
| Container.ContainerModel.constructor | src/models/container.rs:224-264 | starts on the last submodel with no fade, nothing heard, and the rounded 32 ms of its sample rate as duration, at least one |
| Container.ContainerModel.Select | src/models/container.rs:445-467 | the search for the first threshold above the value counts the breakpoints not above it |
| Container.ChoiceExactly | src/models/container.rs:445-467 | the choice is the first submodel whose threshold is above the value, or the last submodel |
| Container.RequestExactly | src/models/container.rs:469-499 | a repeated request changes nothing; a new one whose reset succeeds fades from the previous target, from the start; one whose reset fails makes that target active and leaves the fade as it was |
| Container.ContainerModel.SetSlimmableSize | src/models/container.rs:455-500 | performs one request of the controller; the chosen submodel's memory is cleared exactly when its reset succeeds |
| Container.ContainerModel.Process | src/models/container.rs:315-351 | advances the controller, feeds exactly the sounding submodels, and outputs the active one's block moved towards the pending one's in proportion to the weight |
| Container.BlendEnds | src/models/container.rs:339-340 | weight 0 plays the active block, weight 1 the pending one, and weights between stay between |
| Container.WeightIsProportion | src/models/container.rs:335-343 | the weight is the fraction of the fade's frames that have passed, and 1 after them |
| Container.RenderSplits | src/models/container.rs:315-351 | cutting a block in two changes neither what a submodel plays nor what it remembers |
| Container.TracksGoal | src/models/container.rs:455-500 | over any mix of requests and blocks the target is the last request whose reset did not fail |
| Container.Converges | src/models/container.rs:315-351 | over any blocks, those that fit add up until the fade is over, and exactly then the target is active with nothing pending |
| Container.WeightGrows | src/models/container.rs:335-343 | through a whole fade, over any blocks, the weight starts at 0 and never decreases |
| Container.SelfFadeExactly | src/models/container.rs:445-499 | over any run of requests and blocks a submodel ends up fading against itself exactly when a request during a fade failed and nothing has disturbed the result since, or the run started so |
| Container.SelfFadeHearsTwice | src/models/container.rs:330-337 | the feeding order of a fitting block then makes that submodel, and no other, hear the block twice |
| PlaneAdapter.InterleavedAt | src/models/plane_adapter.rs:151-166 | sample i·channels + c of the interleaved stream is frame i of channel c |
| PlaneAdapter.RunStep | src/models/plane_adapter.rs:148-183 | running a split-independent processor on the next chunk continues the unchunked run |
| PlaneAdapter.WrittenStep | src/models/plane_adapter.rs:170-181 | placing a chunk's channels extends what the planes must hold |
| PlaneAdapter.NextChunk | src/models/plane_adapter.rs:141-149 | a chunk is non-empty and fits both scratch buffers, and one frame more would not, unless it is the last |
| PlaneAdapter.StageChunk | src/models/plane_adapter.rs:148-183 | a chunk's input is read before its output is written, and unread input frames stay original under aliasing |
| PlaneAdapter.RepresentableExactly | src/models/plane_adapter.rs:86-103 | work is done exactly for at least one frame and one to 1024 channels each way, all supplied |
| PlaneAdapter.RunStagedIo | src/models/plane_adapter.rs:78-183 | output planes hold exactly one unchunked run on the original inputs, aliased or not; planes past the channel count, and everything in unrepresentable geometries, stay unchanged |
| SampleRate.ReduceRate | src/loader/sample_rate.rs:90-107 | folding succeeds exactly when both rates together are at most one |
| SampleRate.AcceptedRatesExactly | src/loader/sample_rate.rs:51-80 | a positive number is accepted, unchanged, exactly if it is m·2^e with m below 2^24 and itself below 2^32; other positive numbers are errors, the rest mean no rate |
| SampleRate.ResolveValueRate | src/loader/sample_rate.rs:145-224 | succeeds exactly on legal trees within the remaining budget that declare at most one rate, returns that rate and spends the tree's sequential children; each error has its fault on a path from the node, and mismatch and exhaustion are never reported falsely |
| SampleRate.ResolveModels | src/loader/sample_rate.rs:166-185 | the same for the children of a sequential node |
| SampleRate.ResolveEntries | src/loader/sample_rate.rs:198-220 | the same for the entries of a container |
| SampleRate.EffectiveKnownRate | src/loader/sample_rate.rs:244-283 | a whole graph resolves exactly when it is well formed, has at most 64 sequential children and declares at most one rate; each error has its fault on a path from the root |
| SampleRate.ChildOrderIsIrrelevant | src/loader/sample_rate.rs:145-224 | permuting the children of one node changes neither legality, nor count, nor rates |
| SampleRate.OrderIsIrrelevant | src/loader/sample_rate.rs:145-224 | the same for reordering children anywhere in the tree, at any depths at once |
| SampleRate.ShuffledSelf | src/loader/sample_rate.rs:145-224 | such a reordering may leave any subtree as it is |
| SampleRate.PathsAreBounded | src/loader/sample_rate.rs:154-224 | a path of a legal tree has at most 8 sequential and 5 container nodes, and every node on it is legal by itself |
| RatePaths.LegalExactly | src/loader/sample_rate.rs:145-224 | and a tree with only such paths is legal |
| RatePaths.RatesExactly | src/loader/sample_rate.rs:145-224 | a tree's rates are exactly those declared at the end of some path |
| RatePaths.ChildrenExactly | src/loader/sample_rate.rs:166-220 | one more child spends its own count, plus one under a sequential node and nothing under a container |
| LittleEndian.UintLe | src/loader/wav.rs:207-213 | reads at most four bytes, lowest first, within 32 bits |
| LittleEndian.LeOfToLe | src/loader/wav.rs:207-213 | reading undoes writing |
| LittleEndian.ToLeOfLe | src/loader/wav.rs:207-213 | writing undoes reading |
| Wav.ParseWavIr | src/loader/wav.rs:232-424 | the loop and decoder compute the recursive walk and its result, errors included |
| Wav.ScanChunks | src/loader/wav.rs:259-349 | the walk stays in bounds and ends with the format and data span of the recursive walk |
| Wav.NextChunk | src/loader/wav.rs:259-349 | one turn of the walk |
| Wav.AcceptChunk | src/loader/wav.rs:278-346 | what one chunk contributes |
| Wav.ReadFormatIsSupported | src/loader/wav.rs:278-338 | an accepted format is mono or stereo of a supported width, with a consistent rate |
| Wav.Identifiers | src/loader/wav.rs:217-219 | the chunk identifiers are their ASCII text and the subformat tail is the standard one |
| Wav.DecodeSamples | src/loader/wav.rs:379-411 | all weights are the decoded samples in channel order, or a float is not finite |
| Wav.FiniteBitsExactly | src/loader/wav.rs:393-397 | a word is finite exactly outside the two stretches of infinities and NaNs |
| Wav.SlotsAreAPermutation | src/loader/wav.rs:385-389 | each sample has its own weight and each weight one sample |
| Wav.SlotOfFrame | src/loader/wav.rs:385-389 | channel c of frame f goes to c·taps + f |
| Wav.TapsFit | src/loader/wav.rs:358-361 | the tap count never exceeds the 32-bit limit checked by the source |
| WavChunks.ParsedContainer | src/loader/wav.rs:232-361 | a container of any chunk list, whatever follows it, parses to the meaning of the list, errors included |
| WavChunks.AcceptedFile | src/loader/wav.rs:232-361 | every accepted file is such a container followed by anything |
| WavChunks.AcceptedExactly | src/loader/wav.rs:278-356 | a list yields a result exactly when it has one valid format chunk and then one data chunk of whole, finite frames |
| WavChunks.UnknownChunkIsIgnored | src/loader/wav.rs:259-349 | an unknown chunk inserted anywhere, and other trailing bytes, change nothing |
| WavChunks.WalkStops | src/loader/wav.rs:259-349 | a walk that fails has read whole chunks up to one it refuses |
| WavErrors.RejectedFile | src/loader/wav.rs:232-411 | every rejected file has the fault its error names, in its header, in the first refused chunk, or in what its chunks hold in all |
| WavErrors.FormatFaults | src/loader/wav.rs:278-338 | each format error names a fault of the payload |
| WavErrors.ChunkFaults | src/loader/wav.rs:278-346 | so does each chunk error, duplicates and wrong order included |
| WavErrors.DataFaults | src/loader/wav.rs:351-398 | data errors mean missing data, unwhole frames, or a word that is infinite or no number |
| WavRoundTrip.FormatAcceptedExactly | src/loader/wav.rs:278-338 | a format payload is accepted exactly when it starts with the header of a supported format, directly or through a valid extension |
| WavRoundTrip.RoundTrip | src/loader/wav.rs:232-424 | parsing undoes a serializer for every supported format: floats come back as their bits, integers as two's complement fractions of full scale |
| WavRoundTrip.DecodeExactly | src/loader/wav.rs:392-408 | every word is decoded so |
| WavRoundTrip.PcmRoundTrip | src/loader/wav.rs:385-411 | for PCM of 16, 24 and 32 bits the weight is the signed integer over half of 2^16, 2^24 or 2^32 |
| Polyphase.PlaceIsABijection | src/dsp/sinc_kernel.rs:329-335 | every place of the bank is used by exactly one coefficient |
| Polyphase.PartitionPolyphase | src/dsp/sinc_kernel.rs:318-363 | every stored phase is the normalised form of its placed coefficients |
| Polyphase.PhaseRefinesConvolution | src/dsp/sinc_kernel.rs:313-335 | before normalisation a phase's output is the whole prototype over the zero-stuffed input, times 256 |
| Polyphase.StoredPhaseConvolves | src/dsp/sinc_kernel.rs:318-363 | a stored phase's output times the sum it was divided by is that convolution, times 256 |
| Polyphase.NormalisedSum | src/dsp/sinc_kernel.rs:344-355 | a normalised phase sums to 1, unless its sum was nearly zero and is kept |
| Clock.AccurateExactly | src/common/tsc.rs:67-89 | for every rate with a multiplier, the clock is never early and late by less than 1 + c/2^32 ns if and only if c is 0 or neither cast truncates |
| Clock.TruncatedRate | src/common/tsc.rs:82-89 | a rate whose multiplier is truncated, and how far off one cycle then is |
| Clock.NoMultiplierExactly | src/common/tsc.rs:82-89 | a rate has no multiplier exactly when no cycles passed or the rounded fraction is a multiple of 2^64, zero included |
| Clock.UsableRate | src/common/tsc.rs:82-89 | every rate between one cycle in 2^32 ns and 2^32 cycles in one has the rounded multiplier |
| Clock.ClockIsMonotone | src/common/tsc.rs:74-76 | without truncation a later counter gives no earlier time |
| Clock.FirstWrap | src/common/tsc.rs:69-76 | for every multiplier above 2^32, the count after which the clock first falls back, from near 2^64 to below 2^32 |
| Clock.MonotoneExactly | src/common/tsc.rs:69-76 | over the whole 64-bit counter time never runs backwards if and only if the multiplier is at most 2^32 |

## Left out

- Rounding of `f32` and `f64` arithmetic, including the `f64` product in the percentile rank, the reduction of a decoded PCM sample and of the WAV rate to `f32`, and near-ties of thresholds.
- Values that are not numbers: NaN percentiles, latency ratios, gate levels, quality values and sample data in the DSP paths. Thresholds read from a file may be non-finite (`Container.Threshold`).
- Fixed-width wrap-around of counters that would take years of audio (`down_total`, histogram bins, hold and elapsed counters) and of `max_samples` times the factor.
- SIMD kernels, prefetching, alignment and raw pointers: gains, ramps and blends are their pointwise definitions, windows are sequences, and exact aliasing is sharing of arrays. Shifted overlap of planes is outside the source's contract.
- Window and sinc numerics: prototype coefficients are parameters, symmetric where a result needs it.
- Stage.X2Stage.Downsample: odd lengths follow the release build; the debug-only assertion on even length is not modelled.
- Atomic orderings and concurrent readers of the histogram, the reservoir and the status flags: each operation is one step.
- The coarse power-of-two histogram, the means, and the take-and-clear extremes.
- WaveNet and LSTM layer targets, slimmable rebuild bookkeeping and forced-state reporting of the adaptive machine.
- Container reset, prewarm and scratch resizing as operations; duration and scratch length are fields, and submodels are arbitrary causal processors.
- PlaneAdapter.RunStagedIo: the processor is a pure state transformer that writes its whole output chunk, so stale scratch contents are not observable; the debug-only overlap assertion is not modelled.
- SampleRate.EffectiveKnownRate: the root's own rate is taken as already read from its declaration, as the parser does, and the loops over its children are shared with nested nodes.
- LittleEndian.UintLe: shifting and or-ing disjoint bytes is written as addition.
- Wav.ParseWavIr: memory reservation failures, the bound on pointer-sized products, logging and the conversion to engine model data. The truncated-payload and too-long errors cannot arise from the checks that precede them, so they have no constructor.
- WavRoundTrip.RoundTrip: chunk identifiers in errors are bytes, not text.
- Clock.AccurateExactly: calibration, anchors and the fallback clock.
- SPSC queues, resampler, convolution engine, delay line, linear FFT, the binary model format, parameter builders, command-line programs.
