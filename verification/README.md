# linkjiru, modelled in Dafny

A model of the audio pipeline, the VTube Studio client and the training tools of linkjiru, with
proofs. `dafny verify dfyconfig.toml` checks everything. Samples, scores and coefficients are
reals; integers are unbounded.

| file | models |
|---|---|
| `PolyphaseFir.dfy` | one stage of the resampler: a polyphase commutator over a mirrored history, against "zero-stuff, filter, decimate" |
| `Resampler.dfy` | the cascade of stages: planning, sizing, streaming |
| `SharedRing.dfy`, `RingProtocol.dfy` | the lock-free ring as an object, and as the interleaved atomic steps of one writer and one reader over a log of every sample stored |
| `InferenceHandoff.dfy`, `OnnxRunner.dfy` | the hand-off between the manager and the inference worker, one atomic access at a time; the object whose calls are such runs |
| `AnalysisThread.dfy`, `AnalysisLoop.dfy`, `AnalysisRuns.dfy`, `LoopWithRunner.dfy` | draining the host ring through the resampler; the tick that gates, harvests, kicks, latches and sends; what runs of it decide and send; that loop in conversation with the runner |
| `Cadence.dfy`, `Gating.dfy`, `SilenceGate.dfy` | pacing, score filter with hysteresis, silence and send gates |
| `VtsProtocol.dfy`, `VtsClient.dfy` | the VTube Studio client: its state machine over pending operations, and the object that carries it out |
| `Viterbi.dfy`, `Transition.dfy`, `Yin.dfy` | the numerics of the native pitch tracker |
| `PitchMarks.dfy`, `Psola.dfy`, `PsolaShift.dfy` | pitch marks, overlap-add, shift and stretch |
| `LabelSmoothing.dfy`, `Checkpoints.dfy`, `Dataset.dfy` | training data and checkpoint bookkeeping |
| `Sums.dfy`, `Basics.dfy` | finite sums, index arithmetic, small shared notions |

Objects whose methods update fields are classes; each method is tied to a function of its old
state, usually through a ghost history (every sample pushed, every write count polled, every
save), and the properties are proved about that history. The two protocols between threads are
transition functions over atomic steps, with runs as sequences of steps.

## Where code and documentation differ

The model follows the code.

- `SharedRingBuffer.h:36-40` promises coherent snapshots under concurrent writes. The re-read sees
  only published samples, so a block whose slots are being stored can tear an accepted window.
  `RingProtocol.SlackIsExact` gives the reserve the test would need. `read()` has no test at all
  (`RingProtocol.DrainSlackIsExact`), and after an overrun no reserve (`RingProtocol.JumpHasNoSlack`).
- `cpp_impl/README.md:112` says the plugin reconnects about 5 s after VTS restarts. Once Ready is
  lost nothing happens until `connect()` is called (`VtsProtocol.LossIsNotRetried`); the 5 s back-off
  applies only to drops before Ready. `VtsProtocol.AttemptStartsExactly` says when an attempt starts.
- `isRegistered()` can be true while disconnected (`VtsProtocol.RegisteredWhileDisconnected`).
- `makedata.py:12` calls the kernel triangular. Its rear part is built falling and then reversed
  (`LabelSmoothing.FallsAfterPeakExactly`).
- `psola.py:140-142` means to return silence when no output position exists; the mask on line 138
  is then one longer than the array it indexes (`PsolaShift.PsolaStretch`, `PsolaShift.StretchCanFail`).
- `psola.py:39` puts the top of the triangle at the new peak; the weight of one falls on the sample
  before it (`Psola.WindowPeaksOneEarly`).
- `Resampler.hpp:52` rounds the host rate and line 60 halves it with truncation, so the output rate
  is the target only for an integer rate that the 2:1 stages divide; it comes out slightly fast or
  slow otherwise (`Resampling.PlanIsExactRatio`).
- `pitch_detect.py:82-83` can return a mark one past the end (`PitchMarks.FallbackMarksInRange`).
- `trainer.py:157-160` can delete the file it has just written when an epoch is saved twice
  (`Checkpoints.ResavedEpochLosesItsFile`).
- `dataset.py:117-124` reads one row past the scores of a file when windows are shorter than two
  samples, and hops much longer than windows put a segment's end before its file
  (`Dataset.ShortWindowsPassTheEnd`, `Dataset.LongHopsLeaveTheFile`).

## Model

| member | source | states |
|---|---|---|
| PolyphaseFilter.SampleIsTextbook | cpp_impl/src/linkjiru/PolyphaseFir.hpp:71-133 | Sample k of the polyphase form, sum over j < T of poly[kM mod L][j] * x[kM div L - j] with silence before the start, equals sample kM of the prototype convolved with the L-fold zero-stuffed input, for all L, M, T >= 1, every prototype and every input |
| PolyphaseFilter.PolyphaseFir.Process | cpp_impl/src/linkjiru/PolyphaseFir.hpp:71-95 | For any block: the outputs are the next stretch of the stream of all inputs since reset; outputs, inputs consumed and commutator state agree with the formulas for phase and inNeeded. A drained filter given at most maxInputSamples consumes the whole block and never stops at the full output buffer |
| PolyphaseFilter.PolyphaseFir.Pull | cpp_impl/src/linkjiru/PolyphaseFir.hpp:77-93 | One pass of the outer loop: inputs are pushed only until the newest one the next output needs has arrived, then exactly that output is appended; without it the whole block has been pushed |
| PolyphaseFilter.PolyphaseFir.PushHistory | cpp_impl/src/linkjiru/PolyphaseFir.hpp:106-112 | Keeps the mirror invariant: the newest T inputs, newest first, are contiguous from histWrite, whatever the position of the ring |
| PolyphaseFilter.PolyphaseFir.DotHistory | cpp_impl/src/linkjiru/PolyphaseFir.hpp:116-133 | The inner product of the current phase's taps with that contiguous run is the next sample of the stream, with or without AVX |
| PolyphaseFilter.PolyphaseFir.Emit | cpp_impl/src/linkjiru/PolyphaseFir.hpp:88-92 | Writes the next sample and moves phase and inNeeded to (k+1)M mod L and (k+1)M div L |
| PolyphaseFilter.PolyphaseFir.PushUntilReady | cpp_impl/src/linkjiru/PolyphaseFir.hpp:80-87 | Pushes a prefix of the block and stops early only when the needed input is there |
| PolyphaseFilter.PolyphaseFir.Reset | cpp_impl/src/linkjiru/PolyphaseFir.hpp:60-67 | Back to the state of no inputs and no outputs |
| PolyphaseFilter.PolyphaseFir.SplitPhases | cpp_impl/src/linkjiru/PolyphaseFir.hpp:215-223 | Coefficient j of subfilter p is tap p + jL of the prototype |
| PolyphaseFilter.PolyphaseFir.constructor | cpp_impl/src/linkjiru/PolyphaseFir.hpp:37-58 | A designed filter is valid, drained and has consumed nothing |
| PolyphaseFilter.AdvancePhase | cpp_impl/src/linkjiru/PolyphaseFir.hpp:90-92 | phase += M; inNeeded += phase / L; phase %= L steps from output e to e + 1 |
| PolyphaseFilter.CountIsLeast | cpp_impl/src/linkjiru/PolyphaseFir.hpp:77-93 | A filter whose next needed input is the first missing one has emitted exactly ceil(P*L/M) outputs after P inputs |
| PolyphaseFilter.PolyphaseFir.DrainedCount | cpp_impl/src/linkjiru/PolyphaseFir.hpp:77-94 | Whenever the filter is drained the number of outputs is exactly ceil(inputs * L / M) |
| PolyphaseFilter.CountNewest | cpp_impl/src/linkjiru/PolyphaseFir.hpp:77-93 | Output k is among those determined by P inputs if and only if its newest input is |
| PolyphaseFilter.RoomSuffices | cpp_impl/src/linkjiru/PolyphaseFir.hpp:49 | A buffer of maxInputSamples*L/M + 2 always has a slot to spare for a block of at most maxInputSamples, from any drained state |
| PolyphaseFilter.SampleIsCausal | cpp_impl/src/linkjiru/PolyphaseFir.hpp:71-95 | No output already determined changes when more input arrives |
| PolyphaseFilter.StreamExtends | cpp_impl/src/linkjiru/PolyphaseFir.hpp:71-95 | The stream of an input is a prefix of the stream of any longer input |
| PolyphaseFilter.DotAvx | cpp_impl/src/linkjiru/PolyphaseFir.hpp:138-156 | Eight lanes accumulated apart, folded, plus a scalar tail, is the plain inner product for every length |
| PolyphaseFilter.DotScalar | cpp_impl/src/linkjiru/PolyphaseFir.hpp:127-132 | The scalar loop is the inner product |
| Resampling.BlockIndependence | cpp_impl/src/linkjiru/Resampler.hpp:72-93 | Two ways of cutting the same input into blocks give the same concatenated output, through the whole cascade and from any state |
| Resampling.CascadeExtends | cpp_impl/src/linkjiru/Resampler.hpp:79-86 | More input only appends to the output of a cascade |
| Resampling.PlanIsExactRatio | cpp_impl/src/linkjiru/Resampler.hpp:52-67 | For every real host rate from 0.5 Hz the planned stages change the rate by exactly target/host if and only if the host rate is an integer that the 2:1 stages halve evenly; the output is too fast exactly if a halving truncates or the rate was rounded down, too slow exactly if the halvings are even and the rate was rounded up |
| Resampling.OddRateIsOff | cpp_impl/src/linkjiru/Resampler.hpp:52-62 | At 192001 Hz the plan is too fast, at 95999.6 Hz too slow |
| Resampling.PlanShape | cpp_impl/src/linkjiru/Resampler.hpp:55-67 | Every stage but the last is 2:1, and there is one before the last exactly above twice the target; the last takes the halved rate to the target (up * left == down * target) in lowest terms: no number above one divides both |
| Resampling.GcdIsGreatest | cpp_impl/src/linkjiru/Resampler.hpp:65-67 | Every common divisor of two rates divides the computed one, so none is greater |
| Resampling.CommonRate | cpp_impl/src/linkjiru/Resampler.hpp:52-67 | 44100 Hz for 48000 is the single stage 160/147 |
| Resampling.RoundRateIsNearest | cpp_impl/src/linkjiru/Resampler.hpp:52 | The host rate is rounded to a nearest integer, halves up |
| Resampling.NeverTruncates | cpp_impl/src/linkjiru/Resampler.hpp:38-90 | At a host rate of at least target/2 a block of n yields at most 2n samples, so the final min never cuts anything |
| Resampling.TruncatesBelowHalf | cpp_impl/src/linkjiru/Resampler.hpp:38-90 | Below target/2 any first block of n yields more than 2n samples, so the final min cuts the output of a first block of full size |
| Resampling.Resampler.Prepare | cpp_impl/src/linkjiru/Resampler.hpp:43-68 | Builds exactly the planned stages (PlanShape says which), each sized for what the one before can hand it, and resets; bypass exactly at the target rate |
| Resampling.Resampler.Process | cpp_impl/src/linkjiru/Resampler.hpp:72-93 | Returns what the cascade adds to its output for this block given everything before it, cut to the final buffer; in bypass, the block itself |
| Resampling.Resampler.RunStages | cpp_impl/src/linkjiru/Resampler.hpp:79-86 | Each stage is handed its predecessor's output and all of them stay drained |
| Resampling.Resampler.CopyOut | cpp_impl/src/linkjiru/Resampler.hpp:90-92 | The final copy |
| Resampling.Resampler.constructor | cpp_impl/src/linkjiru/Resampler.hpp:35-39 | Room for twice the largest block |
| SharedRing.SharedRingBuffer.Write | cpp_impl/src/linkjiru/SharedRingBuffer.h:23-31 | Appends the block to the log of everything written, even one longer than the ring |
| SharedRing.SharedRingBuffer.CopyOut | cpp_impl/src/linkjiru/SharedRingBuffer.h:126-132 | Copies out any live stretch of the log |
| SharedRing.SharedRingBuffer.ReadLastN | cpp_impl/src/linkjiru/SharedRingBuffer.h:41-85 | Without a concurrent writer: the newest n samples, right-aligned behind zeros, n clamped to the capacity, nothing past n touched; fails only when no attempt is allowed |
| SharedRing.SharedRingBuffer.Read | cpp_impl/src/linkjiru/SharedRingBuffer.h:96-114 | The log from the cursor, at most maxSamples; overrun exactly when more than a capacity behind, then from the oldest live sample |
| SharedRing.StoreKeepsHolds | cpp_impl/src/linkjiru/SharedRingBuffer.h:26-29 | A store keeps the newest capacity samples in their slots |
| RingProtocol.StepKeepsInv | cpp_impl/src/linkjiru/SharedRingBuffer.h:23-114 | Every atomic step of writer and reader, in any order, keeps the invariant linking slots, counter and what has been copied to the log |
| RingProtocol.AcceptedIsExact | cpp_impl/src/linkjiru/SharedRingBuffer.h:73-81 | An accepted snapshot is the newest n published samples whenever the samples stored by the re-read, published or not, had not reached the oldest copied slot again |
| RingProtocol.QuietSnapshotIsExact | cpp_impl/src/linkjiru/SharedRingBuffer.h:78 | The source's own test suffices when no block is between its slot stores and its publish at the re-read |
| RingProtocol.SnapshotWithSlackIsExact | cpp_impl/src/linkjiru/SharedRingBuffer.h:23-85 | With blocks of at most B samples, every accepted snapshot with B samples of slack at the re-read is exact, in every interleaving |
| RingProtocol.TornSnapshot | cpp_impl/src/linkjiru/SharedRingBuffer.h:36-40 | A run that accepts a window holding sample `cap` where sample 0 belongs, for every slack below both B and the capacity |
| RingProtocol.SlackIsExact | cpp_impl/src/linkjiru/SharedRingBuffer.h:36-81 | The acceptance test is sound for all runs with blocks of at most B samples if and only if it keeps B samples in reserve (or accepts nothing); the source keeps none |
| RingProtocol.DrainIsExact | cpp_impl/src/linkjiru/SharedRingBuffer.h:96-114 | The cursor read returns exactly the log from the possibly advanced cursor unless the writer has stored past the cursor's slot by then |
| RingProtocol.DrainSlackIsExact | cpp_impl/src/linkjiru/SharedRingBuffer.h:96-114 | A caller that re-reads the counter after read() can trust what it got, in all runs with blocks of at most B samples, if and only if it asks for B samples to spare (or never accepts) |
| RingProtocol.TornDrain | cpp_impl/src/linkjiru/SharedRingBuffer.h:96-114 | A run with any smaller reserve in which the cursor read returns sample `cap` for sample 0 |
| RingProtocol.JumpHasNoSlack | cpp_impl/src/linkjiru/SharedRingBuffer.h:101-114 | After an overrun jump one more stored sample, published or not, tears the read |
| RingProtocol.RetriesAreCounted | cpp_impl/src/linkjiru/SharedRingBuffer.h:41-85 | In every interleaving a snapshot makes at most maxRetries attempts and gives up only after all of them (at once if none is allowed); after the last it has been accepted or given up |
| RingProtocol.AttemptIsLappedExactly | cpp_impl/src/linkjiru/SharedRingBuffer.h:78-81 | An attempt is accepted exactly when at most a capacity has been published past the oldest sample copied |
| InferenceHandoff.HandoffIsSound | cpp_impl/src/linkjiru/OnnxRunner.hpp:112-226 | In every interleaving: at most one run in flight; every harvest is the whole result of one successful run, in kick order, none twice; at rest, successful runs = harvested + overtaken by a later kick + (1 if one is ready) |
| InferenceHandoff.HarvestTakesResult | cpp_impl/src/linkjiru/OnnxRunner.hpp:144-156 | Between call and return of tryHarvest, with any worker steps in between: a result ready at the call is taken, whole and of the newest run, one harvest is recorded and none is left ready; otherwise nothing is taken |
| InferenceHandoff.HarvestedOnce | cpp_impl/src/linkjiru/OnnxRunner.hpp:144-156 | Of two calls with no result published in between the second takes nothing |
| InferenceHandoff.InputIsStableDuringRun | cpp_impl/src/linkjiru/OnnxRunner.hpp:112-139 | No step writes the input buffer while a run is in flight |
| InferenceHandoff.StepKeepsInv | cpp_impl/src/linkjiru/OnnxRunner.hpp:112-226 | Each atomic access of kick, tryHarvest and onComplete keeps the invariant |
| InferenceRunner.OnnxRunner.Kick | cpp_impl/src/linkjiru/OnnxRunner.hpp:112-139 | A no-op unless ready, healthy and idle; otherwise the padded window is in the input buffer, an unread result is discarded, and a run is launched or the runner has failed |
| InferenceRunner.OnnxRunner.TryHarvest | cpp_impl/src/linkjiru/OnnxRunner.hpp:144-156 | True exactly when a result was ready, which it is not any more; then the caller gets the class scores and one harvest of the newest run with these scores is recorded; otherwise the caller's array and the history are unchanged |
| InferenceRunner.OnnxRunner.OnComplete | cpp_impl/src/linkjiru/OnnxRunner.hpp:201-226 | Publishes the output as the scores and raises the result, or marks the runner failed; running ends in both cases |
| InferenceRunner.KickIsARun | cpp_impl/src/linkjiru/OnnxRunner.hpp:112-139 | An undisturbed kick is one of the interleaved runs |
| InferenceRunner.HarvestIsARun | cpp_impl/src/linkjiru/OnnxRunner.hpp:144-156 | An undisturbed tryHarvest is one of the interleaved runs |
| InferenceRunner.CompletionIsARun | cpp_impl/src/linkjiru/OnnxRunner.hpp:201-226 | An undisturbed onComplete is one of the interleaved runs, so the object inherits the hand-off invariant |
| Analysis.AnalysisThread.ResampleHostInput | cpp_impl/src/linkjiru/AnalysisThread.h:214-232 | While the audio thread publishes blocks between reads: everything published is consumed, the samples fed are the host log from the start minus exactly the recorded losses, the model ring's log is the cascade of them, and nothing is lost unless more than a ring of samples was unread |
| Analysis.AnalysisThread.FedAndResampled | cpp_impl/src/linkjiru/AnalysisThread.h:214-232 | At any time between calls the samples fed are the host log from start to cursor without the recorded losses, and at or above half the model rate (or in bypass) the model ring's log is what the planned cascade makes of them |
| Analysis.AnalysisThread.DrainOnce | cpp_impl/src/linkjiru/AnalysisThread.h:216-231 | One pass: the chunk read, where the cursor goes, and that a range is recorded as lost exactly when the cursor had to jump over it |
| Analysis.AnalysisThread.Feed | cpp_impl/src/linkjiru/AnalysisThread.h:219-226 | Resampled samples are appended to the model ring, none missing at or above half the model rate |
| Analysis.AnalysisThread.constructor | cpp_impl/src/linkjiru/AnalysisThread.h:35-43 | Starts at the current write count; earlier audio is ignored |
| Analysis.KeptAndLost | cpp_impl/src/linkjiru/AnalysisThread.h:214-232 | Kept and lost samples together are all samples between start and cursor |
| Analysis.KeptByRead | cpp_impl/src/linkjiru/SharedRingBuffer.h:96-114 | One read extends the fed samples by exactly the stretch read, and the losses by exactly the stretch jumped over |
| Cadence.CadenceGate.Poll | cpp_impl/src/linkjiru/CadenceGate.h:37-63 | The decision depends only on past evaluations: evaluate when warm and a hop past the last one; skipped exactly when two hops past it |
| Cadence.EvaluationsArePaced | cpp_impl/src/linkjiru/CadenceGate.h:37-63 | Evaluations i and j are at least (j - i) hops apart |
| Cadence.EvaluationsAreBounded | cpp_impl/src/linkjiru/CadenceGate.h:37-63 | At most 1 + (W - window) div hop evaluations after W samples |
| Cadence.NothingSkippedWhenPolledEachHop | cpp_impl/src/linkjiru/CadenceGate.h:57-62 | Polls at most a hop apart never drop a window |
| Cadence.SkippedExactly | cpp_impl/src/linkjiru/CadenceGate.h:57-62 | A poll reports a dropped window exactly when there was room for one more evaluation between the last one and this: some write count at which a poll would have been evaluated without keeping this one from being |
| Cadence.EvaluationsKeepUp | cpp_impl/src/linkjiru/CadenceGate.h:37-63 | With polls at most s samples apart, the next evaluation comes within hop + s samples |
| Cadence.EvaluatedArePolls | cpp_impl/src/linkjiru/CadenceGate.h:39-43 | No evaluation before the window is full |
| AnalysisLoop.ManagerLoop.Tick | cpp_impl/src/linkjiru/AnalysisThread.h:89-191 | One tick moves the whole history (levels, harvests, due evaluations, kicked windows, send decisions, latched speaker, dropped windows) exactly as the tick specification says, from the drained ring |
| AnalysisRuns.ValueIsSpeaker | cpp_impl/src/linkjiru/AnalysisThread.h:166-184 | Over any run: the value decided on in a tick with a healthy detection is 1.0 if the filtered ru exceeds baji and 0.0 otherwise; a tick without one repeats the value of the tick before, 0.0 at first |
| AnalysisRuns.IdleUntilDetection | cpp_impl/src/linkjiru/AnalysisThread.h:174-183 | Until the first healthy detection every tick decides on 0.0 and no speaker is latched |
| AnalysisRuns.SentIsCurrent | cpp_impl/src/linkjiru/AnalysisThread.h:182-188 | With times from zero, after every tick the last value sent to the client is the one decided on in that tick |
| AnalysisRuns.SoundTickEvaluates | cpp_impl/src/linkjiru/AnalysisThread.h:131-164 | A tick on sound filters exactly what was harvested, and if a window is due hands the newest one to a ready, idle runner or counts it as dropped while the runner is busy |
| AnalysisRuns.SilentTickHolds | cpp_impl/src/linkjiru/AnalysisThread.h:130-132 | A tick in silence past the hold time harvests, kicks, evaluates and drops nothing |
| AnalysisRuns.DueWindowsAreAccounted | cpp_impl/src/linkjiru/AnalysisThread.h:149-163 | Over any run in which the runner stays healthy and does not finish between the two questions about it, every due window is kicked or counted as dropped |
| AnalysisLoop.ManagerLoop.KicksOfARun | cpp_impl/src/linkjiru/AnalysisThread.h:81-163 | Over any run every window kicked is exactly the newest 24000 model samples at that moment, never padding; windows i and j are at least 800(j - i) samples apart; and there are at most 1 + (W - 24000) div 800 of them |
| AnalysisLoop.ManagerLoop.Evaluate | cpp_impl/src/linkjiru/AnalysisThread.h:132-164 | Harvest and kick happen only on sound; a due window is kicked when the runner is free and counted as dropped when it is busy |
| AnalysisLoop.ManagerLoop.Pace | cpp_impl/src/linkjiru/AnalysisThread.h:152-163 | Keeps the kick history paced and exact |
| AnalysisLoop.ManagerLoop.Harvest | cpp_impl/src/linkjiru/AnalysisThread.h:139-147 | The filter and hysteresis state are those of the whole score history |
| AnalysisLoop.ManagerLoop.Latch | cpp_impl/src/linkjiru/AnalysisThread.h:166-184 | On a healthy detection the latched speaker becomes 1 if ru is filtered above baji and 0 otherwise; without one it stays; the value is 1.0 exactly for speaker 1 |
| AnalysisLoop.ManagerLoop.Send | cpp_impl/src/linkjiru/AnalysisThread.h:185-188 | The value is passed on exactly when the send gate says so |
| AnalysisLoop.ManagerLoop.Snapshot | cpp_impl/src/linkjiru/AnalysisThread.h:127-128 | The window buffer holds the newest window of the ring |
| LoopWithRunner.ScoresComeFromKicks | cpp_impl/src/linkjiru/AnalysisThread.h:132-164 | Over every run of the loop and the worker, in any interleaving: the windows kicked are the runs launched, one for one and in order, but for a last one the runner did not survive; every score pair filtered belongs to one whole result of one of them, in kick order, none twice |
| LoopWithRunner.HarvestReachesLoop | cpp_impl/src/linkjiru/AnalysisThread.h:139-147 | The loop gets scores in a tick exactly when a result is ready as it asks, and they are the five scores of the newest run in order |
| LoopWithRunner.KickLaunches | cpp_impl/src/linkjiru/OnnxRunner.hpp:112-139 | A kick of an idle runner, whatever the worker does meanwhile, launches exactly the given window; only if RunAsync throws or a run had failed since the runner was asked is nothing launched, and then the runner has failed |
| LoopWithRunner.KickIsNoOpExactly | cpp_impl/src/linkjiru/AnalysisThread.h:155-158 | After isReady() and then not inFlight(), kick() is a no-op exactly if the run in flight at the first question has failed by the second |
| LoopWithRunner.FailureBetweenChecks | cpp_impl/src/linkjiru/OnnxRunner.hpp:201-211 | It happens when a run ends in an error between the two questions |
| Gating.FlipsAreSevenApart | cpp_impl/src/linkjiru/GatingLogic.hpp:115-158 | For every score sequence in [0,1], two opposite flips of the detector are at least seven harvests apart, with confidence the larger of two filtered channels |
| Gating.FirstOnTakesEight | cpp_impl/src/linkjiru/GatingLogic.hpp:115-158 | The first ON needs at least eight harvests |
| Gating.BoundsAreTight | cpp_impl/src/linkjiru/GatingLogic.hpp:115-158 | Eight full-scale harvests then silence switch on at exactly the eighth and off at exactly the fifteenth, so neither bound can be improved |
| Gating.OneChannelSwitchesOn | cpp_impl/src/linkjiru/AnalysisThread.h:145-147 | Eight harvests with one channel at full scale turn the detector on at exactly the eighth, whichever channel it is and whatever the other does |
| Gating.FlipsExactly | cpp_impl/src/linkjiru/GatingLogic.hpp:147-158 | The detector turns on when either filtered channel is at 0.8 or more, off when both are at 0.2 or less, and otherwise holds |
| Gating.ChannelsSettle | cpp_impl/src/linkjiru/GatingLogic.hpp:115-122 | Under a steady score each channel is short of its own score by 0.8^k of it after k harvests |
| Gating.ChannelsAreSlow | cpp_impl/src/linkjiru/GatingLogic.hpp:115-122 | In m harvests a channel keeps at least 0.8^m of its value and of its distance to 1 |
| Gating.ScoreLowPass.Update | cpp_impl/src/linkjiru/GatingLogic.hpp:115-122 | Filters the first min(n, 8) channels and leaves the rest |
| Gating.Hysteresis.Update | cpp_impl/src/linkjiru/GatingLogic.hpp:147-158 | The Schmitt trigger |
| SilenceGate.GatingLogic.ShouldEvaluate | cpp_impl/src/linkjiru/GatingLogic.hpp:45-77 | Floor tracking, wake and sleep thresholds and hold, in this order |
| SilenceGate.GatingLogic.ShouldSend | cpp_impl/src/linkjiru/GatingLogic.hpp:81-90 | Sends on a change or after the keepalive time, and remembers what was sent |
| SilenceGate.RunsForTheHoldTime | cpp_impl/src/linkjiru/GatingLogic.hpp:45-77 | Over any run whose clock never goes back the model runs on a tick exactly when some tick less than 300 ms ago was awake, or before the first such tick while the clock is below 300 |
| SilenceGate.TurnsExactly | cpp_impl/src/linkjiru/GatingLogic.hpp:47-74 | A sleeping gate wakes exactly above 5991/1991 of its floor and above 0.00003; an awake one stays awake exactly from 1997/1247 of its floor and 0.000016 on |
| SilenceGate.SteadySoundSleeps | cpp_impl/src/linkjiru/GatingLogic.hpp:47-68 | Sound of one level is taken for silence after 654 ticks, whatever came before, and for as long as it lasts |
| SilenceGate.SteadySoundStaysAwake | cpp_impl/src/linkjiru/GatingLogic.hpp:47-74 | After digital silence, full-scale sound keeps the gate awake for 653 ticks, so 654 is exact |
| SilenceGate.LastSendIsCurrent | cpp_impl/src/linkjiru/GatingLogic.hpp:81-90 | With times from zero, after every call the last value sent is the current one and was sent less than 500 ms ago |
| SilenceGate.NextSendExactly | cpp_impl/src/linkjiru/GatingLogic.hpp:81-90 | After a send the next one is the first call with another value, or 500 ms later; no call in between sends |
| VtsProtocol.RunSettles | cpp_impl/src/linkjiru/VTubeStudioClient.cpp:246-603 | Over every run of public calls and every order and outcome of completions: connecting phases have exactly one pending operation, Ready has one read and a write exactly when writeInFlight, Disconnected has neither stream nor operations after pump() |
| VtsProtocol.ConnectionPolicy | cpp_impl/src/linkjiru/VTubeStudioClient.cpp:246-272 | Attempts are at least 5 s apart, each sends at most three auth requests, registering implies Ready, the buffer of a write in flight is never overwritten |
| VtsProtocol.InjectedValuesAreLatest | cpp_impl/src/linkjiru/VTubeStudioClient.cpp:514-546 | Over every run: each value injected is the latest one set before its injection, values are injected in the order they were set, and the waiting value is the last one set |
| VtsProtocol.PumpStartsWrite | cpp_impl/src/linkjiru/VTubeStudioClient.cpp:514-546 | A pump of an idle Ready client starts exactly one write: a registration that is due, else the waiting value, which is then no longer waiting; nothing else, and nothing while a write is in flight or before Ready. An idle Ready client is left with nothing to send |
| VtsProtocol.WaitingValueLeaves | cpp_impl/src/linkjiru/VTubeStudioClient.cpp:536-545 | After every run, the next pump of an idle Ready client with a value waiting and no registration due starts the write of the last value set |
| VtsProtocol.RegistrationRoundTrip | cpp_impl/src/linkjiru/VTubeStudioClient.cpp:483-534 | A registration asked for in Ready clears the last failure and is sent with the next pump; a creation reply makes the client registered, an error reply makes it failed, and in both cases it is under way no longer |
| VtsProtocol.AnswerSettlesRegistration | cpp_impl/src/linkjiru/VTubeStudioClient.cpp:483-512 | What each kind of message does to the registration in Ready, and that the next read is armed |
| VtsProtocol.StaleMessageIsLast | cpp_impl/src/linkjiru/VTubeStudioClient.cpp:483-512 | A message read after a drop arms no further read on the old connection |
| VtsProtocol.NewTokenReachesReady | cpp_impl/src/linkjiru/VTubeStudioClient.cpp:301-456 | A client without a stored token that asks for one and is granted it authenticates with it and reaches Ready |
| VtsProtocol.RejectedTokenReachesReady | cpp_impl/src/linkjiru/VTubeStudioClient.cpp:301-456 | A client whose stored token is rejected asks for a new one and reaches Ready with it |
| VtsProtocol.NewTokenRefused | cpp_impl/src/linkjiru/VTubeStudioClient.cpp:301-456 | A refused new token ends the attempt |
| VtsProtocol.AttemptStartsExactly | cpp_impl/src/linkjiru/VTubeStudioClient.cpp:246-288 | After every run from start-up, pumping a disconnected client starts exactly one attempt if connect() was called, Ready was not lost since, and the last drop since, if any, is at least 5 s ago; otherwise none |
| VtsProtocol.DropBeforeReadyIsRetried | cpp_impl/src/linkjiru/VTubeStudioClient.cpp:246-265 | A failure before Ready leaves the connection wanted, with the next attempt one back-off away |
| VtsProtocol.SettledDisconnected | cpp_impl/src/linkjiru/VTubeStudioClient.cpp:588-602 | Once the drain has completed every cancelled operation, a disconnected client has no stream and nothing pending, so no stale completion reaches a later connection |
| VtsProtocol.LateStraggler | cpp_impl/src/linkjiru/VTubeStudioClient.cpp:458-474 | A cancelled read or write that outlives its connection changes nothing if it fails while disconnected, and in any later phase ends the new attempt without a retry |
| VtsProtocol.MissedStraggler | cpp_impl/src/linkjiru/VTubeStudioClient.cpp:591-602 | A drain that stops one completion early is enough for that: the read of the old connection ends the attempt of the next connect() |
| VtsProtocol.LostStaysDown | cpp_impl/src/linkjiru/VTubeStudioClient.cpp:246-264 | After a loss of Ready no sequence of calls without connect() starts an attempt |
| VtsProtocol.LossIsNotRetried | cpp_impl/src/linkjiru/VTubeStudioClient.cpp:246-264 | A concrete run connects, comes up and loses the link at time 0; no pump at any later time, whatever the network does, starts another attempt |
| VtsProtocol.FailureLosesReady | cpp_impl/src/linkjiru/VTubeStudioClient.cpp:458-474 | The loss of Ready is recorded exactly when a read or write fails while Ready, which also ends the session |
| VtsProtocol.RegisteredMeansReadyExactly | cpp_impl/src/linkjiru/VTubeStudioClient.cpp:483-512 | A completion keeps "registered implies Ready" if and only if it is not a successful creation response read after a drop |
| VtsProtocol.RegisteredWhileDisconnected | cpp_impl/src/linkjiru/VTubeStudioClient.cpp:483-512 | A concrete run after which the client reports registered while disconnected |
| VtsProtocol.CompleteKeepsInv | cpp_impl/src/linkjiru/VTubeStudioClient.cpp:274-567 | Every handler, with any outcome, keeps the pending-operation invariant |
| VtsProtocol.PollKeepsInv | cpp_impl/src/linkjiru/VTubeStudioClient.cpp:586 | Any sequence of completions in one poll keeps it |
| VtsClient.VTubeStudioClient.Pump | cpp_impl/src/linkjiru/VTubeStudioClient.cpp:569-603 | pump() moves the client exactly as the protocol says |
| VtsClient.VTubeStudioClient.OnCompletion | cpp_impl/src/linkjiru/VTubeStudioClient.cpp:274-567 | Each completion runs its handler on the fields, with the protocol's result |
| VtsClient.VTubeStudioClient.StartWriteIfNeeded | cpp_impl/src/linkjiru/VTubeStudioClient.cpp:514-546 | One write at a time; a registration that is due goes first, then the waiting value, exactly that value, which is then no longer waiting |
| VtsClient.VTubeStudioClient.Poll | cpp_impl/src/linkjiru/VTubeStudioClient.cpp:586 | Completions in the given order |
| VtsClient.VTubeStudioClient.Recycle | cpp_impl/src/linkjiru/VTubeStudioClient.cpp:591-602 | Drains stragglers, then drops the stream |
| VtsClient.VTubeStudioClient.Connect | cpp_impl/src/linkjiru/VTubeStudioClient.cpp:644-650 | Due at once, state untouched |
| Viterbi.ViterbiLog | python/data_augment/src/data_augment/_native_pyin/_viterbi.py:37-58 | The returned path scores at least as much as every state path of the same length, and among equally good ones it is the one in the lower state at the last difference |
| Viterbi.ValueIsUpperBound | python/data_augment/src/data_augment/_native_pyin/_viterbi.py:47-52 | value[t][j] is at least the score of every path that ends in j at t |
| Viterbi.ValueIsMaximum | python/data_augment/src/data_augment/_native_pyin/_viterbi.py:44-52 | value[t][j] is the score of a state path that ends in j at t, and no such path scores more |
| Viterbi.BacktraceAttainsValue | python/data_augment/src/data_augment/_native_pyin/_viterbi.py:54-58 | The back-traced path attains the value at its last state |
| Viterbi.BacktraceIsPreferred | python/data_augment/src/data_augment/_native_pyin/_viterbi.py:54-58 | Back-tracing from the first best final state beats every other path and wins ties |
| Viterbi.FillTables | python/data_augment/src/data_augment/_native_pyin/_viterbi.py:44-52 | Every entry is the first best predecessor and its score |
| Viterbi.FillRow | python/data_augment/src/data_augment/_native_pyin/_viterbi.py:48-52 | In one row every entry is the first best predecessor and its score |
| Transition.WeightIsTriangle | python/data_augment/src/data_augment/_native_pyin/_viterbi.py:14-26 | For odd width every row is the triangle of the distance from i to j, centred on the diagonal: the masks remove exactly what the roll wrapped around |
| Transition.SymmetricExactly | python/data_augment/src/data_augment/_native_pyin/_viterbi.py:14-26 | The unnormalised matrix is symmetric if and only if the width is odd (or both sizes are 2) |
| Transition.RowsAreStochastic | python/data_augment/src/data_augment/_native_pyin/_viterbi.py:28-29 | Rows sum to one and are non-negative for every width; for odd width non-zero exactly for states at most width div 2 apart |
| Transition.TransitionLocalTriangle | python/data_augment/src/data_augment/_native_pyin/_viterbi.py:14-29 | Computes these probabilities for every width from 1 to n_states |
| Transition.PyinRowsAreStochastic | python/data_augment/src/data_augment/_native_pyin/__init__.py:118-121 | The Kronecker product with the voicing loop stays row-stochastic |
| Transition.KronSumsToOne | python/data_augment/src/data_augment/_native_pyin/_viterbi.py:32-34 | The product of the two-state loop with any stochastic row sums to one, for any stay probability |
| Transition.VoicingIsKept | python/data_augment/src/data_augment/_native_pyin/_viterbi.py:32-34 | In every row of the product a state keeps its voicing with total probability prob and changes it with 1 - prob |
| Transition.PitchMovesAlike | python/data_augment/src/data_augment/_native_pyin/__init__.py:118-121 | Keeping or changing voicing, a state moves in pitch by the same distribution |
| Yin.DifferenceIdentity | python/data_augment/src/data_augment/_native_pyin/_yin.py:22-31 | For every lag k up to the frame length, twice the autocorrelation drop less the energy of the first k samples is the sum of (y[n] - y[n+k])^2 with y zero past the frame |
| Yin.FastRow | python/data_augment/src/data_augment/_native_pyin/_yin.py:27-31 | The row computed at lag k >= 2 is that difference function; at lag 1 it is that plus y[0]^2, because row 0 is zeroed before it is read |
| Yin.DifferenceRows | python/data_augment/src/data_augment/_native_pyin/_yin.py:22-31 | The in-place rows 0 to max_period are exactly these |
| Yin.RowNonNegative | python/data_augment/src/data_augment/_native_pyin/_yin.py:29-31 | No computed row is negative |
| Yin.CumulativeMeanNormalizedDifference | python/data_augment/src/data_augment/_native_pyin/_yin.py:16-40 | Entry i is row min_period + i over the mean of rows 1 to min_period + i |
| Yin.NormalizedByTheMean | python/data_augment/src/data_augment/_native_pyin/_yin.py:33-40 | A normalised value times (the sum of rows 1 to k, plus k * tiny) is k times row k |
| Yin.EqualRowsNormaliseToOne | python/data_augment/src/data_augment/_native_pyin/_yin.py:33-40 | Equal rows r normalise to r / (r + tiny) |
| Yin.NormalizedInRange | python/data_augment/src/data_augment/_native_pyin/_yin.py:33-40 | A normalised value lies between 0 and its period |
| Yin.TroughShift | python/data_augment/src/data_augment/_native_pyin/_yin.py:43-56 | At a local minimum the parabolic shift is at most half a bin and leads to the lowest point of the parabola through the three values |
| Yin.TroughsAreRefined | python/data_augment/src/data_augment/_native_pyin/_yin.py:43-56 | At every interior local minimum of a row the shift is at most half a bin and leads to the lowest point of the parabola; edge bins are not shifted |
| Yin.ParabolaFits | python/data_augment/src/data_augment/_native_pyin/_yin.py:46-53 | The parabola used for refinement passes through the three values |
| Psola.PlacePeaks | python/data_augment/src/data_augment/psola.py:28-69 | Every output sample is the sum over grains of window weight times the signal sample under it |
| Psola.SlicesInBounds | python/data_augment/src/data_augment/psola.py:56-68 | For strictly increasing in-range new peaks both slices of every placed grain stay in bounds |
| Psola.WindowsAreConvex | python/data_augment/src/data_augment/psola.py:53-68 | At most two neighbouring grains reach any output sample, with non-negative weights of total at most one, clipped or not |
| Psola.WindowsSumToOne | python/data_augment/src/data_augment/psola.py:35-42 | Between two neighbouring peaks the weights total exactly one if and only if neither ramp there was shortened or dropped |
| Psola.WindowPeaksOneEarly | python/data_augment/src/data_augment/psola.py:61-63 | A grain's weight is one on the sample before its peak and only there |
| Psola.NeverLouder | python/data_augment/src/data_augment/psola.py:44-69 | The output never exceeds the largest magnitude in the signal |
| Psola.GrainsAreTiled | python/data_augment/src/data_augment/psola.py:49-59 | Grains of strictly increasing peaks never reach past a neighbouring peak |
| Psola.NearestIsFirst | python/data_augment/src/data_augment/psola.py:50 | The analysis source is the first of the nearest input peaks |
| PsolaShift.PsolaShift | python/data_augment/src/data_augment/psola.py:81-106 | The shifted signal is the overlap-add at the interpolated, rounded, clipped and de-duplicated peaks; a copy for a non-positive ratio or fewer than two marks |
| PsolaShift.ShiftIsSound | python/data_augment/src/data_augment/psola.py:93-101 | Those peaks are strictly increasing and in range for every ratio, and there is at least one, so the second copy branch is never taken |
| PsolaShift.ReferenceCount | python/data_augment/src/data_augment/psola.py:93 | There are len(marks) * ratio references, rounded down, but at least one |
| PsolaShift.PositionsAreEven | python/data_augment/src/data_augment/psola.py:93-99 | Marks at even gaps give peaks at even distances, the n - 1 gaps being cut into count - 1, for ratios above and below one |
| PsolaShift.ShiftKeepsTheEnds | python/data_augment/src/data_augment/psola.py:93-99 | The first peak is placed on the first mark and the last on the last |
| PsolaShift.ShiftPlaysTheNearest | python/data_augment/src/data_augment/psola.py:103-106 | At every new peak the grain comes from the first input mark nearest to the peak itself: duration is preserved |
| PsolaShift.EveryReferenceHasAPeak | python/data_augment/src/data_augment/psola.py:93-101 | Every reference has a new peak within half a sample of its interpolated position |
| PsolaShift.EveryPeakIsAReference | python/data_augment/src/data_augment/psola.py:93-101 | Every new peak is within half a sample of the position of a reference |
| PsolaShift.RoundIsNearest | python/data_augment/src/data_augment/psola.py:100 | Rounding is to a nearest integer, halves to even |
| PsolaShift.ShiftByOneIsIdentity | python/data_augment/src/data_augment/psola.py:81-106 | A ratio of one gives a gap between two marks back sample for sample if and only if the gap borders no dropped edge grain, unless the signal is silent at the gap's first mark |
| PsolaShift.ShiftByOneKeepsTheMiddle | python/data_augment/src/data_augment/psola.py:81-106 | So everything from the first to the last mark comes back but the gap after a first mark at 0 and the gap before a last mark on the last sample |
| PsolaShift.GapsOfShiftByOne | python/data_augment/src/data_augment/psola.py:53-59 | At ratio one the gap after a mark is covered by whole ramps unless it borders a first mark at 0 or a last mark on the last sample, exactly |
| PsolaShift.DedupeKeepsEachValueOnce | python/data_augment/src/data_augment/psola.py:72-78 | Of a sorted array every value is kept once, in order |
| PsolaShift.WalkIsSpaced | python/data_augment/src/data_augment/psola.py:127-133 | The stretch walk advances at least four samples a step, so it terminates with strictly increasing in-range peaks |
| PsolaShift.WalkReachesTheEnd | python/data_augment/src/data_augment/psola.py:127-133 | The stretch walk stops only within one period of the end |
| PsolaShift.WalkOutput | python/data_augment/src/data_augment/psola.py:124-133 | The loop computes that walk and the input time of each position |
| PsolaShift.NothingToRound | python/data_augment/src/data_augment/psola.py:135-140 | Rounding, clipping and de-duplication leave its result unchanged |
| PsolaShift.PsolaStretch | python/data_augment/src/data_augment/psola.py:109-144 | The stretched signal is the overlap-add over that walk; it fails with an index error exactly when the first mark lies at or past the end of the output |
| PsolaShift.StretchPlaysTheNearest | python/data_augment/src/data_augment/psola.py:124-133 | At every output peak q the grain comes from the first mark m with |m * factor - q| least, and the next peak lies one local gap of the input at that mark further on (at least four samples); the walk starts at the first mark and ends when the next peak is past the output |
| PsolaShift.StretchKeepsPitch | python/data_augment/src/data_augment/psola.py:109-133 | Marks a fixed gap apart give output peaks the same gap apart, whatever the factor |
| PsolaShift.StretchKeepsTime | python/data_augment/src/data_augment/psola.py:109-133 | Within the stretched marks the mark played at output position q, its time multiplied by the factor, is within half of a stretched gap of q |
| PsolaShift.StretchedLengthIsNearest | python/data_augment/src/data_augment/psola.py:120 | The output length is an integer nearest to n * factor, but at least one |
| PsolaShift.StretchCanFail | python/data_augment/src/data_augment/psola.py:124-142 | Ten samples with marks at 5 and 6, stretched to half, leave no output position |
| PitchMarks.PeakAlignedMarks | python/data_augment/src/data_augment/pitch_detect.py:153-184 | Each mark is the loudest sample of the window from max(1, int(0.9p)) to int(1.1p) after the one before, the first the loudest of the first period, and the last has no window left |
| PitchMarks.PeriodIsOfTheFrame | python/data_augment/src/data_augment/pitch_detect.py:139-145 | A sample's period comes from the frame it lies in, or the last one past the end: period * frequency is the sample rate for a voiced frame with a positive frequency, and the fallback otherwise |
| PitchMarks.GapOfWalk | python/data_augment/src/data_augment/pitch_detect.py:175-182 | Every gap is in [max(1, int(0.9p)), int(1.1p)) for the local period p |
| PitchMarks.WalkSuitsOverlapAdd | python/data_augment/src/data_augment/pitch_detect.py:175-184 | The marks are strictly increasing and in range, as overlap-add needs |
| PitchMarks.NextIsLoudest | python/data_augment/src/data_augment/pitch_detect.py:178-182 | Each mark lies more than 0.9 periods less one sample and at most 1.1 periods less one sample after the one before, and is the first loudest of all samples that do |
| PitchMarks.SeedIsLoudest | python/data_augment/src/data_augment/pitch_detect.py:166-171 | The first mark is the first loudest sample of the first 1.1 periods |
| PitchMarks.WindowIsEmptyWhen | python/data_augment/src/data_augment/pitch_detect.py:178-181 | The walk stops exactly at the end of the signal or where both factors truncate to the same number of samples, which needs a period below five |
| PitchMarks.WalkReachesTheEnd | python/data_augment/src/data_augment/pitch_detect.py:175-182 | With a period of at least five the walk stops only where the next window would begin past the signal |
| PitchMarks.ShortPeriodsStall | python/data_augment/src/data_augment/pitch_detect.py:178-181 | Where the period is 4.5 the walk stops, so a walk that begins there has one mark |
| PitchMarks.FallbackMarksInRange | python/data_augment/src/data_augment/pitch_detect.py:78-83 | The even marks are strictly increasing and in [0, n]; n itself is a mark exactly when the last multiple of the period below n is within half a sample of it, or half a sample away with n even |
| PitchMarks.EveryStepHasAMark | python/data_augment/src/data_augment/pitch_detect.py:78-83 | Every multiple of the fallback period below n has an even mark within half a sample |
| PitchMarks.EveryMarkIsAStep | python/data_augment/src/data_augment/pitch_detect.py:78-83 | Every even mark is within half a sample of such a multiple |
| PitchMarks.FallbackIsNearIdentity | python/data_augment/src/data_augment/pitch_detect.py:78-117 | Fallback marks begin at 0; a shift by one gives such a clip back from the second mark on, up to the last (or the last but one if that is the last sample) |
| PitchMarks.WholeStepsStayInRange | python/data_augment/src/data_augment/pitch_detect.py:78-83 | A whole fallback period keeps every even mark in range |
| PitchMarks.HalfStepsCanPassTheEnd | python/data_augment/src/data_augment/pitch_detect.py:78-83 | At 44150 samples a second, 442 samples get a mark at 442 |
| LabelSmoothing.Smooth | python/nn_model/scripts/makedata.py:46-82 | For every chunk size and kernel length the chunked result is the causal convolution of the whole column, cut to the input length |
| LabelSmoothing.ProcessChunk | python/nn_model/scripts/makedata.py:54-73 | A chunk is finished and every row before and after it keeps its value |
| LabelSmoothing.ConvChannelAt | python/nn_model/scripts/makedata.py:61-66 | The part kept of a fetched block's convolution is the whole convolution there |
| LabelSmoothing.BlockDecides | python/nn_model/scripts/makedata.py:55-66 | Fetching a kernel length before the chunk is enough |
| LabelSmoothing.ImpulseDrawsKernel | python/nn_model/scripts/makedata.py:61-66 | One label alone draws the kernel from its own time on, first coefficient first |
| LabelSmoothing.ChunksPartition | python/nn_model/scripts/makedata.py:75-76 | The chunks cover [0, n) without gap or overlap |
| LabelSmoothing.KernelIsWeighting | python/nn_model/scripts/makedata.py:13-24 | The kernel is non-negative with sum one |
| LabelSmoothing.FrontRises | python/nn_model/scripts/makedata.py:14 | Before normalisation the front part rises in equal steps of 1/front to one |
| LabelSmoothing.RearBegins | python/nn_model/scripts/makedata.py:15-20 | The rear part begins at 1/rear, or at zero if it is one sample long |
| LabelSmoothing.RearStep | python/nn_model/scripts/makedata.py:15-20 | Each step of the rear part is (rear - 2) / (rear * (rear - 1)), so the whole rear part is fixed |
| LabelSmoothing.ScoresInUnitRange | python/nn_model/scripts/makedata.py:54-73 | With such a kernel, labels in [0, 1] give scores in [0, 1] |
| LabelSmoothing.SteadyLabelIsKept | python/nn_model/scripts/makedata.py:54-73 | A label constant for a kernel length is kept exactly |
| LabelSmoothing.FallsAfterPeakExactly | python/nn_model/scripts/makedata.py:13-24 | After its peak the kernel falls if and only if rear_samples <= 2; a longer rear part drops to 1/rear and rises again |
| Checkpoints.CheckpointManager.Save | python/nn_model/src/nn_model/trainer.py:142-161 | Any save moves lists and files as specified; with a new epoch the store still retains exactly the newest and the best of the whole history |
| Checkpoints.SaveRetains | python/nn_model/src/nn_model/trainer.py:142-181 | One save with a new epoch keeps: newest min(n, keep_last) in order; the scores in best are the lowest min(n, keep_best) as a multiset; the files are exactly those listed, each with what was saved |
| Checkpoints.CheckpointManager.SaveNewest | python/nn_model/src/nn_model/trainer.py:154-160 | Insert in front, trim and delete |
| Checkpoints.CheckpointManager.SaveBest | python/nn_model/src/nn_model/trainer.py:169-181 | Push while there is room, otherwise replace a worst entry by a better one and delete its file |
| Checkpoints.NewestSurvivesExactly | python/nn_model/src/nn_model/trainer.py:154-160 | A checkpoint survives its own save if and only if its path is not among those trimmed: saving an epoch again can delete the file just written |
| Checkpoints.ResavedEpochLosesItsFile | python/nn_model/src/nn_model/trainer.py:142-160 | In every run of saves of epochs 1 to keep_last and then epoch 1 again, the checkpoint just saved is listed first and its file is gone |
| Checkpoints.RunExists | python/nn_model/src/nn_model/trainer.py:142-181 | Every sequence of saves has such a run from an empty store |
| Checkpoints.TrimKeepsTheFirst | python/nn_model/src/nn_model/trainer.py:157-160 | Trimming keeps the first keep_last entries and every file but those of the rest |
| Checkpoints.CheckpointManager.constructor | python/nn_model/src/nn_model/trainer.py:115-140 | Limits of at least one, nothing listed |
| Dataset.LocateIsInFile | python/nn_model/src/nn_model/dataset.py:136-137 | If no file has a negative number of steps, every index below the total is one step of one file |
| Dataset.LocateFindsStep | python/nn_model/src/nn_model/dataset.py:136-137 | Every step of every file is found at its own index, so the two directions are inverse |
| Dataset.BuildOffsets | python/nn_model/src/nn_model/dataset.py:45-77 | The offsets are the running sums of the step counts |
| Dataset.StepsCoverTheFile | python/nn_model/src/nn_model/dataset.py:54-71 | Steps are a hop apart, the last ends with the file, the first within a hop of the first whole window |
| Dataset.ItemIsInRange | python/nn_model/src/nn_model/dataset.py:98-142 | For every index below the total the segment ends at most at the end of its file, and inside it whenever hops are at most one longer than windows; its score row is before the end of the file for windows of two samples or more |
| Dataset.EndElementsInFile | python/nn_model/src/nn_model/dataset.py:98-101 | All end elements of a file are at most its size, and none is negative if and only if (win - size) mod hop is at most win |
| Dataset.LongHopsLeaveTheFile | python/nn_model/src/nn_model/dataset.py:98-101 | 5 samples, windows of 2 and hops of 9 give an end element of -4 |
| Dataset.ShortWindowsPassTheEnd | python/nn_model/src/nn_model/dataset.py:117-124 | The last step of a file asks for a score row past the end if and only if the window is shorter than two samples |
| Dataset.StepsArePositiveExactly | python/nn_model/src/nn_model/dataset.py:54-73 | A file has a step if and only if it is longer than a window less a hop; two hops short, its count is negative |
| Dataset.MakeAudio | python/nn_model/src/nn_model/dataset.py:103-115 | The segment is the audio up to its end element, right-aligned behind zeros and scaled |

## Left out

- Rounding, denormals and float widths: every sample, score and coefficient is a real, so `float16` and `int` conversions of signals are identities.
- Integer widths and counter wrap-around: all counters are unbounded, and the ring's bit mask is a remainder.
- C++ memory orders: the steps of both protocols are sequentially consistent; slot stores precede the publish, copies precede the re-read.
- Kaiser, Bessel and sinc values: the prototype filter is arbitrary, and so is whether AVX is used.
- Host rates below 0.5 Hz: `prepare` would round them to zero and divide by it.
- SharedRing.SharedRingBuffer.ReadLastN: models the single-threaded owner, where the first attempt succeeds; retries are in RingProtocol.
- RingProtocol.StepKeepsInv: states about one reader at a time and a transition function on values, not a shared object.
- InferenceHandoff.StepKeepsInv: interleaved steps are a transition function on values; the object's methods are its uninterrupted runs. ONNX session set-up, benchmarking and timing are not modelled.
- Analysis.AnalysisThread.ResampleHostInput: host reads are untorn (the torn case is RingProtocol.DrainSlackIsExact), and the audio thread publishes at most one block between two reads of finitely many.
- AnalysisLoop.ManagerLoop.Tick: the level of a window is an arbitrary function of it (the root mean square needs a square root); VTS calls, status bits, sleeping and shutdown are not modelled; the runner's answers are inputs here, and reads of the runner's state in LoopWithRunner.
- Cadence.CadenceGate.Poll: a negative window size, which the source would read as a huge one, is not modelled.
- Custom configurations of the gates: the defaults the manager uses are constants.
- disconnect() and teardown: the only caller shuts the program down, and `writeInFlight` is not reset there, so the client is not modelled past it.
- VtsProtocol.RunSettles: a reply is reduced to whether it parses, its type, token and verdict; a field of the wrong JSON type, whose exception would leave the handler, is not modelled.
- VtsProtocol.SettledDisconnected: operations cancelled by recycling all complete before the stream goes, whereas the source stops at the first poll that runs none; VtsProtocol.MissedStraggler shows what one left over would do.
- Sockets, JSON text, token storage, time-outs as such: any operation may fail at any time.
- Viterbi.ViterbiLog: empty inputs index an empty array in the source and are not modelled.
- The logarithms and epsilons around Viterbi, the observation matrix, and the trough probabilities of YIN (they need the Boltzmann distribution).
- Yin.CumulativeMeanNormalizedDifference: one frame at a time; the autocorrelation is its sum over time instead of an FFT; max_period below the frame length.
- PsolaShift.PsolaShift: an empty signal with two or more marks is not modelled.
- PitchMarks.PeakAlignedMarks: frame estimates are a non-empty parameter; running the pitch tracker is not part of it.
- LabelSmoothing.Smooth: threads, memory maps and progress output.
- Checkpoints.CheckpointManager.Save: which of several equally bad entries is replaced is left open (the source compares path strings), the heap is any list with a worst entry, and the directory starts empty; load and resume are not modelled.
- Dataset.MakeAudio: sample types are not modelled, only the multiplier they choose; a random offset is any end element.
- `LRScheduler`: its search loop has an empty range, so the interpolation it intends is not what runs.
- Augmentation chains, models, feature extraction, the plugin UI, page locking and build files.
