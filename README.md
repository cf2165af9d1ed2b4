# Resonance analysers, modelled in Dafny

Resonance is a JUCE desktop application that plays a file or listens to an
input and shows it several ways:
- an oscilloscope, a scrolling waveform and a stereo (goniometer) image, each drawn from a circular history buffer;
- a spectrum analyser;
- a level readout in dB RMS, short-term LUFS or true-peak dBTP, with bar meters.

This project models the sequential core under those views and proves what it
promises:

- **Loudness** (`lufs_meter.dfy`): the momentary and short-term windows of
  the LUFS meter.
  - Two zero-initialised rings of per-sample powers, sized `max(1, round(seconds * rate))`.
  - Each ring is updated by subtract-old / store / add-new on a running sum, and its index advances modulo the window.
  - The running sum always equals the total of the last window-length powers, and the reading divides it by the full window length.
- **Spectrum** (`spectrum_analyzer.dfy`): the spectrum analyser's frame
  scheduler and its post-FFT pipeline.
  - Scheduler: channel-averaged samples accumulate. A frame fires on the last `fftSize` of them once `fftSize + hopSize` have gathered, and the accumulator is then cut to `fftSize - hopSize`.
  - Pipeline: per-bin clamp into the dB range, a per-bin exponential moving average, and an optional triangular smoothing across neighbouring bins.
  - `PushSamples` is proved equal to a value-level account (`Feed`, `AnalyseAll`). Lemmas about that account state when frames fire, what they contain and that the display stays in range.
- **TruePeak** (`true_peak_detector.dfy`): the true-peak detector's channel up-mix, the running max-abs scan over the oversampled block, and `linearToDb`.
- **Scope, Wave, Stereo** (`oscilloscope.dfy`, `waveform.dfy`,
  `stereo_image.dfy`): the three circular histories.
  - Sizes: 2048 mono samples, 441000 mono samples, and 2048 left/right pairs.
  - Each class carries a ghost record of every value stored since construction or `clear`. The array is proved to be the ring that record produces (`Ring.RingOf`).
  - Also proved: the read orders the views use (oldest first from the cursor, or walking back from the write position).
- **App** (`main_component.dfy`): the helpers and state changes of the main component.
  - `formatTime`, `calculateRMS` and `rmsToDb`.
  - The attack/release true-peak smoother.
  - The readout target, its smoothing factor clamp and its snap to zero.
  - The transport state machine.
- **Meter** (`db_meter.dfy`): the bar meter's clamped level and its linear map onto [0, 1].
- **Shared modules** (`ring.dfy`, `audio.dfy`, `mod_arith.dfy`):
  - the ring theory shared by all four ring buffers;
  - the audio block and channel down-mix, and JUCE's `jlimit`;
  - C++'s truncating `/` and `%`.

**How the model represents the source:**
- Samples and levels are `real`.
- The library DSP enters as function parameters that the model never looks inside:
  - the K-weighting filters;
  - the window-plus-FFT-plus-magnitude chain;
  - the oversampler;
  - `log10` and `sqrt`.
- Every `pushSamples`, `clear` or callback step is one atomic method.

## Model

| member | source | states |
|---|---|---|
| Audio.MixDown | Source/Oscilloscope.cpp:73-84 | the per-sample channel average of a block, one value per sample, 0 when the block has no channels |
| Audio.SumChannels | Source/Oscilloscope.cpp:75-81 | the inner channel loop returns the sum of channels [0, count) at sample i |
| Audio.MixOfEqualChannels | Source/Oscilloscope.cpp:75-84 | a sample carried identically on every channel mixes down to itself under the channel average (the same average as Source/Waveform.cpp:31-36 and Source/SpectrumAnalyzer.h:41-43) |
| Audio.Limit | Source/dbMeter.cpp:25 | `jlimit`: the result lies in [lower, upper] when lower <= upper, equals v when v is already inside, and is always lower, upper or v |
| Audio.LimitInt | Source/SpectrumAnalyzer.h:161 | `jlimit` on a neighbour index: inside [0, N-1] for N >= 1, and the index itself when already inside |
| Audio.Blend | Source/SpectrumAnalyzer.h:147 | `a*x + (1-a)*y` lies between x and y for a in [0, 1]; it is x at a = 1, y at a = 0, and x when x = y |
| Audio.ConvexBetween | Source/SpectrumAnalyzer.h:147 | for a in [0, 1] the blend lies between the previous value and the new one |
| Audio.Fill | Source/Oscilloscope.cpp:98 | `std::fill`: every element of the buffer becomes v |
| Audio.Copy | Source/SpectrumAnalyzer.h:50 | `std::copy` of a sequence of the buffer's length: the buffer then holds exactly that sequence |
| Ring.RingOf | Source/Oscilloscope.cpp:86-87 | the contents of a zeroed ring of w slots after a history is written from cursor 0 with wrap-around: always w slots |
| Ring.Recent | Source/Oscilloscope.cpp:35-38 | the last w values written, oldest first, zero-padded in front: always w values |
| Ring.OldestFirst | Source/Oscilloscope.cpp:38 | the read order `ring[(cursor + i) % size]`, one value per slot |
| Ring.RingAt | Source/Oscilloscope.cpp:86-87 | slot j of the ring holds the value written (j - count) mod w places before the end of the zero-padded history |
| Ring.OldestFirstAt | Source/Oscilloscope.cpp:38 | reading slot `(cursor + i) % w` gives the i-th oldest of the last w values |
| Ring.OldestFirstIsRecent | Source/Oscilloscope.cpp:35-38 | reading a ring oldest first from its cursor yields exactly the last w values written, oldest first |
| Ring.OldestFirstVisitsEachSlotOnce | Source/StereoImage.cpp:85-87 | the read loop `(index + i) % size` never visits a slot twice, so it visits each slot exactly once |
| Ring.RingUntouched | Source/Oscilloscope.cpp:73-88 | writing t after history h leaves every slot whose distance from the cursor is at least the length of t unchanged |
| Ring.UntouchedFromCursor | Source/StereoImage.cpp:30-37 | the same, with the distance measured from the reduced cursor the class keeps |
| Ring.RingWrite | Source/Oscilloscope.cpp:86 | one more write changes exactly the cursor slot, to the new value |
| Ring.CursorHoldsOldest | Source/Waveform.cpp:38-42 | the slot at the cursor holds the oldest of the last w values, the next to be overwritten |
| Ring.RecentOfLong | Source/Oscilloscope.cpp:35-38 | once at least w values were written, the i-th value oldest first is the value written w - i writes ago |
| Ring.StepBack | Source/Waveform.cpp:85 | stepping `back` slots back from the cursor lands on the value `(w - back) mod w` places into the last w, oldest first |
| Ring.RecentShift | Source/Oscilloscope.cpp:86-87 | one more write evicts the oldest of the last w values, shifts the rest left by one and ends with the new value |
| Ring.WriteAt | Source/Oscilloscope.cpp:86-87 | `buf[cursor] = x; cursor = (cursor + 1) % size`: the buffer stays the ring of the history extended by x, and the cursor advances by one modulo the size |
| Ring.ReadOldestFirst | Source/Oscilloscope.cpp:35-38 | the read loop returns the buffer in oldest-first order from the cursor |
| Ring.SumAppend | Source/LufsMeter.h:81-83 | the total of a concatenation is the sum of the totals |
| Ring.SumUpdate | Source/LufsMeter.h:81-83 | overwriting one slot changes the total by exactly (new - old): subtract-old / store / add-new is exact |
| Ring.SumZeros | Source/LufsMeter.h:31-34 | a zero-filled ring totals 0 |
| Ring.SumNonNegative | Source/LufsMeter.h:78 | a ring of non-negative powers has a non-negative total |
| Ring.SumAllZero | Source/LufsMeter.h:115 | a window of all-zero powers totals 0 |
| Ring.RingSum | Source/LufsMeter.h:81-90 | the ring's total equals the total of the last w values written |
| Ring.OverwrittenIsOldest | Source/LufsMeter.h:81-82 | the slot about to be overwritten holds the value written w writes ago, or 0 |
| Ring.RecentSumStep | Source/LufsMeter.h:81-83 | one more write takes the evicted oldest value out of the window total and adds the new one |
| Loudness.Round | Source/LufsMeter.h:28-29 | `std::round` then `(int)`: the nearest integer, ties away from zero |
| Loudness.WindowSamples | Source/LufsMeter.h:28-29 | a window is at least one sample long, and is round(seconds * rate) whenever that is at least 1.5 |
| Loudness.Power | Source/LufsMeter.h:78 | `0.5*(L*L + R*R)` is non-negative, and zero exactly when both channels are zero |
| Loudness.Powers | Source/LufsMeter.h:68-78 | one power per sample of the weighted pair, in order |
| Loudness.AvgPower | Source/LufsMeter.h:120 | `avgPower`: 0 for a non-positive length; otherwise the mean times the length is the sum, and a non-negative sum gives a non-negative mean |
| Loudness.PowerToLufs | Source/LufsMeter.h:113-117 | exactly -100 for a mean power <= 0; otherwise 10*log10(power) - 0.691 |
| Loudness.WorkChannels | Source/LufsMeter.h:57-66 | a stereo block is weighted as channels 0 and 1 and a mono block as channel 0 twice, each of the block's length |
| Loudness.BlockPowers | Source/LufsMeter.h:68-78 | a block contributes one non-negative power per sample |
| Loudness.WindowMean | Source/LufsMeter.h:94-95 | with the running sum equal to the ring total, the mean read is the total of the last window-length powers over the full window length |
| Loudness.SilentWindowReadsFloor | Source/LufsMeter.h:113-115 | once the last window-length powers are all zero (or none was pushed), the window reads -100 |
| Loudness.RecentMeanNonNegative | Source/LufsMeter.h:94-95 | a window of non-negative powers never has a negative mean |
| Loudness.PushPower | Source/LufsMeter.h:81-84 | one window step changes only slot idx, to p; the ring stays the ring of the powers; the sum becomes old sum - old slot + p and equals the ring total; the index advances by one modulo the window |
| Loudness.LufsMeter.constructor | Source/LufsMeter.h:98-108 | the member initialisers: 48 kHz, one-sample windows, empty rings, indices and sums 0 |
| Loudness.LufsMeter.Prepare | Source/LufsMeter.h:8-37 | both windows sized from the rate, at least one sample each; both rings zero, indices 0, sums 0 |
| Loudness.LufsMeter.Clear | Source/LufsMeter.h:39-46 | both rings zeroed in place without resizing; indices and sums 0; a prepared meter stays well formed |
| Loudness.LufsMeter.ProcessBlock | Source/LufsMeter.h:49-92 | an empty block changes nothing; otherwise the weighted powers of every sample are pushed in order, and both rings, indices and sums keep their invariant |
| Loudness.LufsMeter.PushWeighted | Source/LufsMeter.h:68-91 | the per-sample loop pushes the power of each (L, R) pair, in order |
| Loudness.LufsMeter.PushSample | Source/LufsMeter.h:80-90 | one power goes into both windows and the invariant is kept |
| Loudness.LufsMeter.MomentaryLufs | Source/LufsMeter.h:94 | the momentary reading is the loudness of the last 400 ms of powers, summed and divided by the full window |
| Loudness.LufsMeter.ShortTermLufs | Source/LufsMeter.h:95 | the short-term reading is the same over the last 3 s |
| Spectrum.Pow2 | Source/SpectrumAnalyzer.h:11-12 | `1 << order` is positive and divisible by 4 from order 2 on, so `hopSize = fftSize / 4` is exact |
| Spectrum.ClampDb | Source/SpectrumAnalyzer.h:137-140 | a bin value lands in [minDb, maxDb], and in [minDb, maxDb - 0.8] when that range is non-empty; a value already there is unchanged |
| Spectrum.ClampMonotone | Source/SpectrumAnalyzer.h:139-140 | clamping keeps the order of bin values |
| Spectrum.ClampAll | Source/SpectrumAnalyzer.h:129-143 | one clamped value per raw bin |
| Spectrum.EmaStep | Source/SpectrumAnalyzer.h:146-147 | one EMA step per bin; for alpha in [0, 1] each bin lies between its previous value and the new one; alpha 1 gives the new frame and alpha 0 the previous one |
| Spectrum.EmaIterGap | Source/SpectrumAnalyzer.h:146-147 | fed a steady value, a bin's distance to it shrinks by the factor (1 - alpha) per frame |
| Spectrum.WeightTotalIsSquare | Source/SpectrumAnalyzer.h:159-164 | the triangular weights `r + 1 - abs(k)` for k in [-r, r] add up to (r + 1)^2 |
| Spectrum.WeightedBounds | Source/SpectrumAnalyzer.h:159-166 | with neighbour values in [lo, hi], the weighted sum lies between lo and hi times the weight sum |
| Spectrum.SmoothBinWithin | Source/SpectrumAnalyzer.h:158-167 | each smoothed bin lies within the range of the EMA values around it |
| Spectrum.FreqSmooth | Source/SpectrumAnalyzer.h:152-168 | the smoothed trace has one value per EMA bin |
| Spectrum.FreqSmoothWithin | Source/SpectrumAnalyzer.h:150-168 | the whole smoothed trace stays within the range of the EMA trace |
| Spectrum.SmoothBinAt | Source/SpectrumAnalyzer.h:158-167 | the inner loop over offsets -r..r, with neighbour indices clamped into [0, N-1], computes the smoothed bin |
| Spectrum.Period | Source/SpectrumAnalyzer.h:47-53 | frames fire every 2 * hopSize samples (1 when hopSize is 0) |
| Spectrum.FrameEnd | Source/SpectrumAnalyzer.h:47-53 | no frame fires before fftSize + hopSize samples |
| Spectrum.FrameEndClosedForm | Source/SpectrumAnalyzer.h:47-53 | frame k fires after fftSize + hopSize + k * 2 * hopSize samples |
| Spectrum.FrameEndMonotone | Source/SpectrumAnalyzer.h:47-53 | later frames fire later |
| Spectrum.EmptySchedule | Source/SpectrumAnalyzer.h:63 | with nothing queued and nothing analysed, the schedule holds |
| Spectrum.FramesAreDue | Source/SpectrumAnalyzer.h:47-53 | frame k has fired exactly when the stream has reached frame k's firing point |
| Spectrum.FramesOverlap | Source/SpectrumAnalyzer.h:46-53 | consecutive frames share all but 2 * hopSize samples: half a frame for hopSize = fftSize/4 |
| Spectrum.FeedOne | Source/SpectrumAnalyzer.h:45-54 | one pass fires at most one frame of fftSize samples; after a frame the accumulator holds fftSize - hopSize samples, and it stays below fftSize + hopSize |
| Spectrum.Feed | Source/SpectrumAnalyzer.h:39-55 | every frame fired over a run of samples has fftSize samples |
| Spectrum.FeedSnoc | Source/SpectrumAnalyzer.h:39-55 | feeding the first i + 1 samples is feeding the first i, then one pass more |
| Spectrum.AccumulatorBounded | Source/SpectrumAnalyzer.h:47-53 | once a push returns, the accumulator holds fewer than fftSize + hopSize samples |
| Spectrum.FeedAppend | Source/SpectrumAnalyzer.h:34-56 | block boundaries do not matter: pushing xs and then ys is pushing xs + ys, with the same frames in the same order |
| Spectrum.FeedOneKeepsSchedule | Source/SpectrumAnalyzer.h:45-53 | one pass keeps the schedule: the accumulator is the unconsumed tail of the stream, and every frame is the stream's window ending at its firing point |
| Spectrum.FeedKeepsSchedule | Source/SpectrumAnalyzer.h:39-55 | a whole push keeps the schedule |
| Spectrum.FramesFromEmpty | Source/SpectrumAnalyzer.h:39-55 | from an empty accumulator, frame k is the fftSize samples ending at sample fftSize + hopSize + 2k*hopSize, and it has fired exactly when the stream reaches that point |
| Spectrum.AnalyseFrame | Source/SpectrumAnalyzer.h:129-173 | one analysis keeps one value per bin in dB and EMA; the smoothed trace has one value per bin when the radius is positive and is empty otherwise |
| Spectrum.AnalyseAll | Source/SpectrumAnalyzer.h:51 | after several frames the dB bins show the clamped last frame, and no frame leaves the display as it was |
| Spectrum.AnalyseAllAppend | Source/SpectrumAnalyzer.h:51 | analysing fs and then gs is analysing fs + gs |
| Spectrum.AnalyseOne | Source/SpectrumAnalyzer.h:51 | analysing a single frame is one post-FFT step |
| Spectrum.FeedStep | Source/SpectrumAnalyzer.h:39-55 | the value-level account of sample i extends that of the first i samples by one pass: accumulator, display and frame buffer |
| Spectrum.FitsAppend | Source/SpectrumAnalyzer.h:129 | two runs of frames that each produce one value per bin still do when concatenated |
| Spectrum.LatestAppend | Source/SpectrumAnalyzer.h:50 | after two runs the frame buffer holds the last frame of the second run, else of the first, else its earlier contents |
| Spectrum.DisplayInRange | Source/SpectrumAnalyzer.h:137-168 | with minDb <= maxDb - 0.8 and alpha in [0, 1], a display that starts in range stays there: dB bins, EMA and smoothed trace, whatever the frames |
| Spectrum.Latest | Source/SpectrumAnalyzer.h:50 | the frame buffer holds the last frame fired, or its earlier contents if none fired |
| Spectrum.MixSample | Source/SpectrumAnalyzer.h:41-43 | the sum over channels times `1/numCh` is the channel average of the sample |
| Spectrum.SpectrumAnalyzer.constructor | Source/SpectrumAnalyzer.h:9-17 | fftSize = 2^order, hopSize = fftSize/4, a zero frame buffer of fftSize, both magnitude arrays fftSize/2 at -120 dB, no smoothed trace, the default range and smoothing |
| Spectrum.SpectrumAnalyzer.SetDbRange | Source/SpectrumAnalyzer.h:23 | the bounds are stored as given |
| Spectrum.SpectrumAnalyzer.SetFreqRange | Source/SpectrumAnalyzer.h:24 | the frequency range is stored as given |
| Spectrum.SpectrumAnalyzer.SetSampleRate | Source/SpectrumAnalyzer.h:25 | a positive rate is stored; a non-positive one becomes 44100 |
| Spectrum.SpectrumAnalyzer.SetSmoothing | Source/SpectrumAnalyzer.h:27-31 | alpha is clamped into [0, 1] and the radius floored at 0 |
| Spectrum.SpectrumAnalyzer.Clear | Source/SpectrumAnalyzer.h:58-65 | both magnitude arrays at minDb, no smoothed trace, no queued audio, the frame buffer kept; the result does not depend on the state before, so clearing twice is clearing once |
| Spectrum.SpectrumAnalyzer.PushSamples | Source/SpectrumAnalyzer.h:34-56 | the accumulator, the display and the frame buffer after a push are exactly what Feed and AnalyseAll give for the block's down-mix |
| Spectrum.SpectrumAnalyzer.PushStep | Source/SpectrumAnalyzer.h:39-55 | one iteration of the sample loop extends the value-level account by one sample |
| Spectrum.SpectrumAnalyzer.PushOne | Source/SpectrumAnalyzer.h:45-54 | append one sample and, once the accumulator reaches fftSize + hopSize, analyse its last fftSize samples and keep only the last fftSize - hopSize, exactly as FeedOne says |
| Spectrum.SpectrumAnalyzer.ComputeSpectrum | Source/SpectrumAnalyzer.h:112-176 | the display becomes one post-FFT step on the spectrum of the frame buffer |
| Spectrum.SpectrumAnalyzer.ClampBins | Source/SpectrumAnalyzer.h:129-143 | the magnitude loop leaves every bin clamped |
| Spectrum.SpectrumAnalyzer.SmoothInTime | Source/SpectrumAnalyzer.h:146-147 | the EMA loop leaves one EMA step per bin |
| Spectrum.SpectrumAnalyzer.SmoothAcrossBins | Source/SpectrumAnalyzer.h:150-173 | radius > 0: the smoothed trace is the triangular smoothing of the EMA; radius 0: it is empty |
| Spectrum.SpectrumAnalyzer.DisplayedTrace | Source/SpectrumAnalyzer.h:76 | the drawn trace is the smoothed one when present, else the EMA, with fftSize/2 values either way |
| TruePeak.AbsReal | Source/TruePeakDetector.h:64 | `std::abs`: non-negative, and x or -x |
| Audio.MaxOf | Source/TruePeakDetector.h:64 | `std::max` (also the `jmax` of Source/SpectrumAnalyzer.h:167 and Source/MainComponent.cpp:476, 482): at least both arguments, and one of them |
| TruePeak.MaxAbs | Source/TruePeakDetector.h:62-64 | the scan result is non-negative, bounds every sample's magnitude, and is one of them or 0 |
| TruePeak.MaxAbsIsLeastBound | Source/TruePeakDetector.h:62-64 | it is the least such bound |
| TruePeak.MaxAbsOfNegated | Source/TruePeakDetector.h:64 | a signal and its negation have the same peak |
| TruePeak.ScanPeak | Source/TruePeakDetector.h:60-65 | the loop `m = max(m, abs(d[i]))` from 0 computes MaxAbs |
| TruePeak.SourceOf | Source/TruePeakDetector.h:36-48 | the input channel a work channel copies is a real input channel or none |
| TruePeak.WorkBuffer | Source/TruePeakDetector.h:32-49 | the work buffer has numChannels channels of the block's length |
| TruePeak.MonoDuplicated | Source/TruePeakDetector.h:36-40 | a mono input with two or more work channels fills channels 0 and 1 with it and leaves the rest silent |
| TruePeak.ChannelsMapped | Source/TruePeakDetector.h:41-48 | otherwise work channel ch copies input channel `min(ch, inputs - 1)` |
| TruePeak.Peaks | Source/TruePeakDetector.h:58-66 | one peak per upsampled channel, each its MaxAbs |
| TruePeak.PeaksBound | Source/TruePeakDetector.h:58-66 | every peak is >= 0, bounds every sample of its channel, and equals one of their magnitudes or 0 |
| TruePeak.LinearToDb | Source/TruePeakDetector.h:70 | -100 for x <= 0 |
| TruePeak.LinearToDbMonotone | Source/TruePeakDetector.h:70 | where log10 increases, a larger positive peak never reads lower |
| TruePeak.TruePeakDetector.constructor | Source/TruePeakDetector.h:7-12 | stores the channel count and oversampling order; no work buffer yet |
| TruePeak.TruePeakDetector.Prepare | Source/TruePeakDetector.h:14-22 | the work buffer becomes numChannels channels of maxBlockSize samples |
| TruePeak.TruePeakDetector.ProcessBlock | Source/TruePeakDetector.h:24-67 | always numChannels peaks; an empty block gives all zeros and touches nothing; otherwise the work buffer is the up-mix of the input and the peaks are those of its oversampled form |
| TruePeak.TruePeakDetector.UpMix | Source/TruePeakDetector.h:32-49 | sizing, clearing and copying leave the work buffer equal to WorkBuffer |
| Scope.AverageAt | Source/Oscilloscope.cpp:75-84 | the stored value is the channel average, 0 for a block without channels |
| Scope.Oscilloscope.constructor | Source/Oscilloscope.cpp:3-6 | 2048 zeros, pointer at 0 |
| Scope.Oscilloscope.PushSamples | Source/Oscilloscope.cpp:64-93 | the history records the block's channel averages, in order; the array stays the ring of the history; the pointer advances by the block length mod 2048 |
| Scope.Oscilloscope.Store | Source/Oscilloscope.cpp:86-87 | exactly the pointer slot changes, to the new value, and the pointer advances by one mod 2048 |
| Scope.Oscilloscope.Clear | Source/Oscilloscope.cpp:95-99 | every slot 0 and the pointer 0, whatever the state before, so clearing twice is clearing once |
| Scope.Oscilloscope.Trace | Source/Oscilloscope.cpp:35-38 | the drawn samples, left to right, are the last 2048 stored, oldest first, zeros standing in for those never stored |
| Scope.Oscilloscope.PointerAtOldest | Source/Oscilloscope.cpp:38-39 | the pointer slot holds the oldest sample on screen: the one drawn at the left edge and overwritten next |
| Scope.Oscilloscope.PushLeavesOtherSlots | Source/Oscilloscope.cpp:73-88 | a push of k samples changes only the k slots from the pointer on (mod 2048) |
| Wave.WalkBack | Source/Waveform.cpp:85 | `(readHead - samplesBack + N) % N` with C++'s `%` lies in [0, N) whenever the dividend is non-negative |
| Wave.WalkBackSlot | Source/Waveform.cpp:66-85 | walking back `back` slots (0 <= back <= N) from the write position reads the value `(N - back) mod N` places into the last N, oldest first |
| Wave.RightEdgeReadsOldest | Source/Waveform.cpp:83-85 | as written, samplesBack = 0 reads the oldest sample in a full history, while the corrected index reads the newest |
| Wave.WalkBackFromNewest | Source/Waveform.cpp:65-66 | the corrected index, starting one slot before the write position, lies in [0, N) |
| Wave.WalkBackFromNewestSlot | Source/Waveform.cpp:83-85 | the corrected walk reads the value stored back + 1 writes ago: the newest at samplesBack = 0 |
| Wave.Waveform.constructor | Source/Waveform.cpp:3-6 | 441000 zeros, write index at 0 |
| Wave.Waveform.PushSamples | Source/Waveform.cpp:20-46 | the history records the block's channel averages, in order; the array stays the ring of the history; the index advances by the block length mod 441000 |
| Wave.Waveform.Store | Source/Waveform.cpp:39-42 | exactly the write slot changes, to the new value, and the index advances by one mod 441000 |
| Wave.Waveform.Clear | Source/Waveform.cpp:12-18 | every slot 0 and the index 0, whatever the state before |
| Wave.Waveform.ReadBack | Source/Waveform.cpp:66-87 | for 0 < samplesBack <= N the walk-back reads the value stored samplesBack writes ago, or 0 if fewer were stored |
| Wave.Waveform.PushLeavesOtherSlots | Source/Waveform.cpp:28-43 | a push of k samples changes only the k slots from the write index on |
| Stereo.Pairs | Source/StereoImage.cpp:27-35 | a block with fewer than 2 channels contributes nothing; otherwise one (channel 0, channel 1) pair per sample |
| Stereo.PairsIgnoreExtraChannels | Source/StereoImage.cpp:32-33 | channels beyond the first two never reach the history |
| Stereo.StereoImage.constructor | Source/StereoImage.cpp:3-8 | 2048 (0, 0) pairs, index at 0 |
| Stereo.StereoImage.PushSamples | Source/StereoImage.cpp:20-40 | fewer than 2 channels: history and index unchanged; otherwise every pair is stored in order and the index advances by the block length mod 2048 |
| Stereo.StereoImage.Store | Source/StereoImage.cpp:35-36 | exactly the index slot changes, to the new pair, and the index advances by one mod 2048 |
| Stereo.StereoImage.Clear | Source/StereoImage.cpp:12-18 | every slot (0, 0) and the index 0, whatever the state before |
| Stereo.StereoImage.Trace | Source/StereoImage.cpp:80-87 | the pairs drawn are the last 2048 stored, oldest first, (0, 0) standing in for those never stored |
| Stereo.StereoImage.PushLeavesOtherSlots | Source/StereoImage.cpp:30-37 | a push of k pairs changes only the k slots from the index on |
| ModArith.CRem | Source/MainComponent.cpp:675-676 | C++'s `%` for n > 0: `a == (a / n) * n + r` with truncating `/`; for a >= 0 it is Euclidean `%` in [0, n), for a < 0 it lies in (-n, 0] |
| App.TruncToInt | Source/MainComponent.cpp:674 | `(int)seconds` truncates toward zero |
| App.Digits | Source/MainComponent.cpp:677 | a decimal rendering without leading zeros: one digit below 10, two below 100 |
| App.ParseDigitsOfDigits | Source/MainComponent.cpp:677 | reading back the digits of n gives n |
| App.Pad2 | Source/MainComponent.cpp:677 | `%02d` gives at least two characters, exactly two for 0..99, and reads back as n for n >= 0; a negative value starts with '-' |
| App.FormatTime | Source/MainComponent.cpp:672-678 | a non-negative time renders as `<digits>:<two digits>`, five characters below 6000 s |
| App.FormatTimeRoundTrip | Source/MainComponent.cpp:672-678 | minutes * 60 + seconds read back from the label is the truncated time, and the seconds field is in [0, 59] |
| App.NegativeTimeLabel | Source/MainComponent.cpp:674-677 | a negative time gets a sign in each field: -65.5 s renders as "-1:-5" |
| App.SumSquaresNonNegative | Source/MainComponent.cpp:636 | the accumulated sum of squares is non-negative |
| App.MeanSquare | Source/MainComponent.cpp:638 | the divisor is `max(1, numSamples)`: the mean square is non-negative, and 0 for an empty window |
| App.MeanSquareOfConstant | Source/MainComponent.cpp:636-638 | a constant level c over the whole window has mean square c * c |
| App.CalculateRms | Source/MainComponent.cpp:629-639 | the square root of the mean square of `numSamples` samples from `startSample`; an out-of-range channel or a non-positive count gives exactly 0 (given the library fact sqrt(0) = 0), which `RmsToDb` then reads as -100 dB |
| App.RmsToDb | Source/MainComponent.cpp:641-644 | -100 for rms <= 0, and the same conversion as the true-peak detector's |
| App.TpStep | Source/MainComponent.cpp:394-398 | a smoother step lands between the old value and the reading, moving up on a rise and down on a fall |
| App.AttackFasterThanRelease | Source/MainComponent.cpp:394-398 | a rise of d moves the smoothed value three times as far as a fall of d |
| App.TpStepCloses | Source/MainComponent.cpp:395-396 | a rise leaves 40% of the gap, a fall or hold leaves 80% |
| App.TpReadingsAsWritten | Source/MainComponent.cpp:391-392 | as written: the left reading is linearToDb of peak 0 (or of 0), the right one linearToDb of peak 1 when there are two peaks |
| App.MonoFallbackReadsSilence | Source/MainComponent.cpp:392 | as written, a single peak p in (0, 1] reads 20 log10(p) on the left but -100 dB on the right |
| App.TpReadings | Source/MainComponent.cpp:391-392 | the corrected readings: the same as written whenever there are two peaks; with fewer, the right reading equals the left |
| App.MonoFallbackMirrorsLeft | Source/MainComponent.cpp:391-392 | corrected, a single positive peak reads 20 log10(p) on both sides |
| App.ReadoutTarget | Source/MainComponent.cpp:472-484 | DB: the louder of the dB pair; LUFS: the short-term loudness; TP: the louder of the TP pair; the previous smoothed value when the selected mode was not measured |
| App.ReadoutAlpha | Source/MainComponent.cpp:487 | the smoothing factor is clamped into [0.01, 0.99] and unchanged when already inside |
| App.ReadoutApproachesTarget | Source/MainComponent.cpp:487-488 | each readout step leaves between 1% and 99% of the gap to the target: it neither sticks nor overshoots |
| App.SnapToZero | Source/MainComponent.cpp:491-492 | the displayed value is 0 exactly when abs(v) < 0.05, and v itself otherwise |
| App.SnapIdempotent | Source/MainComponent.cpp:491-492 | snapping twice is snapping once |
| App.MainComponent.constructor | Source/MainComponent.cpp:46-47 | stopped; play enabled and stop disabled (Source/MainComponent.cpp:97, 103); both TP smoothers at -60 (Source/MainComponent.h:92-93); the readout at -60 with smoothing factor 0.2 (Source/MainComponent.h:150-151); dB mode (Source/MainComponent.h:51); an empty waveform |
| App.MainComponent.TransportStateChange | Source/MainComponent.cpp:646-670 | the same state changes nothing; Stopped enables play, rewinds to 0 and clears the waveform; Stopping enables play and stops; Starting enables stop and starts; exactly one button is enabled throughout |
| App.MainComponent.SmoothTruePeak | Source/MainComponent.cpp:388-401 | each smoother takes one attack/release step toward its (corrected) reading |
| App.MainComponent.UpdateReadout | Source/MainComponent.cpp:469-496 | nothing measured: nothing changes and nothing is posted; otherwise the smoothed value blends the target in by the clamped factor, lands between old value and target, and its snapped value is posted |
| Meter.MapToUnit | Source/dbMeter.cpp:14 | `jmap(v, min, max, 0, 1)` sends min to 0 and max to 1, and a level inside an increasing range into [0, 1] |
| Meter.MapRoundTrip | Source/dbMeter.cpp:14 | mapping a level to [0, 1] and back gives the level |
| Meter.UnmapRoundTrip | Source/dbMeter.cpp:14 | mapping a fraction to a level and back gives the fraction |
| Meter.MapMonotone | Source/dbMeter.cpp:14 | over an increasing range a louder level never maps lower |
| Meter.DbMeter.constructor | Source/dbMeter.h:20-22 | level -60 on a [-60, 0] scale |
| Meter.DbMeter.SetLevel | Source/dbMeter.cpp:17-28 | a level equal to the stored one changes nothing; any other is stored clamped into [minDb, maxDb], hence inside it when minDb <= maxDb |
| Meter.DbMeter.SetMinDb | Source/dbMeter.h:15 | only the lower bound changes; the stored level is not re-clamped |
| Meter.DbMeter.SetMaxDb | Source/dbMeter.h:16 | only the upper bound changes; the stored level is not re-clamped |
| Meter.DbMeter.MapDb | Source/dbMeter.cpp:11-15 | the fraction lies in [0, 1] for a level on an increasing scale, and maps back to the level |
| Meter.DbMeter.StoredLevelOnScale | Source/dbMeter.cpp:17-28 | a stored level on an increasing scale always draws a bar fraction in [0, 1] |

`getLevel` (Source/dbMeter.h:14) is the field `levelDb` itself.

## Left out

- Library DSP:
  - the K-weighting filters (Source/LufsMeter.h:13-26, 74-75);
  - the Hann window, the FFT and the magnitude and log step (Source/SpectrumAnalyzer.h:114-135);
  - the oversampler (Source/TruePeakDetector.h:9-22, 55);
  - `log10` and `sqrt`.

  These are function parameters, so nothing is proved about their values. Filters and the oversampler are taken as stateless across blocks.
- Floating point: samples and levels are `real`. Rounding, drift of the running sums, NaN and the float/double conversions are not modelled.
- Concurrency: the read/write locks, the atomic cursors, `callAsync` and `repaint` are left out. Each push, clear and callback step is one atomic step.
- Rendering: every `paint` body is left out except the index formulas modelled above. That covers the path building, `xForFreq`/`yForDb`, the grid, the stereo 45-degree rotation, the waveform's per-pixel RMS and the meter gradient.
- UI and device glue in Source/MainComponent.cpp is left out:
  - the widget set-up in the constructor, `setMeterMode`, `setVisualizerMode`, `showSettings` and the file chooser;
  - `clearVisuals`, `resetMetersAndAnalyzers` and `audioDeviceAboutToStart`;
  - the dB pair computation at Source/MainComponent.cpp:381-384 (two `CalculateRms`/`RmsToDb` calls);
  - the position slider.

  Source/Settings.cpp and Source/Settings.h are not part of this model.
- Integer width: the `(int)` casts in `formatTime` and `WindowSamples` do not overflow here, since integers are unbounded.
- Spectrum.SpectrumAnalyzer.constructor: requires fftOrder <= 30, because `1 << order` on a 32-bit int is only meaningful there.
- Loudness.LufsMeter.ProcessBlock: requires a prepared meter and, for a non-empty block, at least one channel. The source would index an empty ring or a missing channel otherwise.
- Spectrum.SpectrumAnalyzer.PushSamples: requires at least one channel for a non-empty block, because `getSample(0, i)` on a channel-less buffer is out of range. It also requires the FFT stand-in to yield fftSize/2 bins per frame.
- Wave.Waveform.PushSamples: requires at least one channel for a non-empty block, because the average at Source/Waveform.cpp:36 divides by the channel count.
- TruePeak.TruePeakDetector.ProcessBlock: requires at least one input channel for a non-empty block, because `jmin(ch, srcChans - 1)` would select channel -1. It also requires the oversampler to return one channel per work channel.
- TruePeak.TruePeakDetector.Prepare: the work buffer is zero-filled, where JUCE leaves the new samples unspecified. `ProcessBlock` resizes and clears it before use, so no result depends on this.
- App.MainComponent.SmoothTruePeak: uses the corrected readings (`App.TpReadings`, see Findings). These agree with the source whenever the detector reports two peaks, which the application's two-channel detector always does.
- App.MainComponent.TransportStateChange: the transport source is two fields, its position and whether it runs. Reading the file is left out.
- Waveform capacity: fixed at 10 s of 44.1 kHz regardless of the device rate, as in Source/Waveform.h:21-23.

Two notes on the source:
- The spectrum comment at Source/SpectrumAnalyzer.h:46 speaks of a new frame every hopSize samples (4x overlap). The trim at line 53 keeps fftSize - hopSize samples, so after the first frame they fire every 2 * hopSize samples and overlap by half (`Spectrum.FramesOverlap`). The model follows the code.
- The meter averages the two channel powers (factor 0.5 at Source/LufsMeter.h:78), where Annex 1 of ITU-R BS.1770 sums them with weight 1.0. The model follows the code.

## Findings

| source | as written | input that shows it | evidently intended | confidence | as-written member | corrected member |
|---|---|---|---|---|---|---|
| Source/Waveform.cpp:83-85 | the walk-back starts at `readHead`, the write position, so samplesBack = 0 reads the slot about to be overwritten | any history of at least 441000 samples: the rightmost column's first read is the oldest sample, ten seconds back, not the newest | walk back from the newest sample, one slot before the write position (as the comments at lines 65 and 78-82 describe) | not executed; one sample per drawn column, so the visible effect is small | Wave.RightEdgeReadsOldest | Wave.WalkBackFromNewestSlot |
| Source/MainComponent.cpp:392 | with fewer than two peaks, tpR is `linearToDb(tpL)`, converting the already-converted left reading a second time | peaks = [p] with 0 < p <= 1: tpL = 20 log10 p <= 0, so tpR = -100 dB whatever p is (line 434 repeats the code) | fall back to the left reading itself, tpR = tpL | not executed; unreachable in the application, whose detector has two channels (Source/MainComponent.h:90) and so always reports two peaks | App.MonoFallbackReadsSilence | App.MonoFallbackMirrorsLeft |
