# Real-time beat detector: a Dafny model

This project models the beat-detection loop of `run_FFT_analyzer.py`, a
real-time audio beat detector. Each processed frame goes through these steps:

- **Energy extractor** (`calc_energy`): reduces a binned spectrum to the mean
  magnitude of the bins whose frequency is strictly below a cutoff. This
  mean is the "bass energy".
- **Rolling history**: a `deque` with `maxlen = NUMBER_OF_FRAMES` (20), fed by
  `appendleft`. The newest sample is at the front. When the deque is full, a
  push drops the oldest sample at the back.
- **Frame scheduler and beat classifier** (the body of the `while True`
  loop): a frame is processed only when strictly more than `1/fps` seconds
  (fps = 60) have passed since the last processed frame. A processed frame
  records the new time and computes the energy of the binned spectrum (cutoff
  300 Hz). It pushes the energy into the history. Once the history is full,
  it prints `BEAT` if the energy exceeds `BEAT_COEFF` (1.5) times the mean of
  the history, and `NO` otherwise. The energy is pushed before the mean is
  taken, so the mean includes the current sample.

Modules, one file each:

- `RealSeq` (`real_seq.dfy`): sums and means over exact reals, with bound
  lemmas.
- `Energy` (`energy.dfy`): the mask `fftx < cutoff`, the count of its `True`
  entries, the boolean selection `fft[mask]`, and `CalcEnergy`, with their
  properties.
- `RollingHistory` (`history.dfy`): the pure push `Pushed` and its iteration
  `PushedAll`. It also holds the class `History`, whose `AppendLeft` updates
  its `items` sequence in place as `deque.appendleft` does.
- `BeatDetector` (`beat_detector.dfy`): the constants, the pure one-iteration
  function `Transition` and its iteration `Run`, and the class `Analyzer`. The
  class owns `lastUpdate` and a `History` object. Its `Step` method is one loop
  iteration, proved equal to `Transition`. Its `Poll` method runs a bounded
  number of iterations, proved equal to `Run`.

Inputs that the program reads from the outside world are parameters here. The
clock reading is `now`, and the binned spectrum from the feature provider is a
`Spectrum`. The printed line is the returned `Outcome`: `Waiting` (frame not
due), `WarmingUp` (frame processed, history not yet full, nothing printed), or
`Printed(Beat)` / `Printed(No)`.

Three details of the loop decide what it prints:

- The frame gate is a strict `>` (line 64): a clock reading exactly one frame
  period after the last processed frame does not process a frame.
- Nothing is printed while the history holds fewer than `NUMBER_OF_FRAMES`
  samples (line 69): the first nineteen processed frames print nothing.
- The energy is pushed (line 68) before the mean is taken (lines 70-71), so
  the mean compared against includes the current energy.

## Model

| member | source | states |
|---|---|---|
| `RealSeq.SumConcat` | run_FFT_analyzer.py:12 | the left-to-right sum of a concatenation is the sum of the parts |
| `RealSeq.SumBounds` | run_FFT_analyzer.py:12 | a sum of n samples each in [lo, hi] lies in [n*lo, n*hi] |
| `RealSeq.Mean` | run_FFT_analyzer.py:70-71 | the mean of a non-empty window times its length is its sum |
| `RealSeq.MeanBounds` | run_FFT_analyzer.py:70-71 | the mean of a non-empty window lies between any lower and upper bound of its samples |
| `RealSeq.MeanBetweenElements` | run_FFT_analyzer.py:70-71 | some sample is at most the mean and some sample is at least it |
| `Energy.Mask` | run_FFT_analyzer.py:11 | `fftx < cutoff` has one entry per bin, and the indices it marks `True` are exactly the bins whose frequency is strictly below the cutoff |
| `Energy.CountTrue` | run_FFT_analyzer.py:12 | `sum(mask)` is at most the mask's length, and zero iff no entry is `True` |
| `Energy.CountTrueIsCardinality` | run_FFT_analyzer.py:12 | `sum(mask)` is the number of indices the mask selects |
| `Energy.Select` | run_FFT_analyzer.py:12 | `fft[mask]` has exactly as many entries as the mask has `True` entries |
| `Energy.SelectMembers` | run_FFT_analyzer.py:12 | a value is in `fft[mask]` iff it is the magnitude of some bin whose mask entry is `True` (both directions) |
| `Energy.SelectLocal` | run_FFT_analyzer.py:12 | magnitudes of unselected bins do not affect `fft[mask]` |
| `Energy.SumSelectIsMaskedSum` | run_FFT_analyzer.py:12 | `sum(fft[mask])` equals the sum of all magnitudes with the unselected ones replaced by zero |
| `Energy.BassCountPositive` | run_FFT_analyzer.py:11-12 | with at least one bin below the cutoff, the divisor `sum(bass_freqs)` is non-zero |
| `Energy.SumOfBassSelection` | run_FFT_analyzer.py:11-12 | with a bin below the cutoff, the divisor is positive and the dividend `sum(fft[bass_freqs])` is the total magnitude of the bins strictly below the cutoff |
| `Energy.CalcEnergy` | run_FFT_analyzer.py:10-12 | the divisor `sum(bass_freqs)` is positive, and the energy is the total magnitude of the bins strictly below the cutoff (every other bin counted as zero) divided by that divisor |
| `Energy.CalcEnergyIsMeanOfBassBins` | run_FFT_analyzer.py:10-12 | there is at least one bin strictly below the cutoff, and the energy is the total magnitude of those bins divided by their number |
| `Energy.CalcEnergyBounds` | run_FFT_analyzer.py:10-12 | energy lies within any bounds of the sub-cutoff magnitudes, so it is non-negative when they are |
| `Energy.CalcEnergyWithinBassBins` | run_FFT_analyzer.py:10-12 | some sub-cutoff bin has magnitude at most the energy and some has magnitude at least it |
| `Energy.CalcEnergyIgnoresUpperBins` | run_FFT_analyzer.py:11-12 | changing magnitudes of bins at or above the cutoff (including a bin exactly at the cutoff) leaves the energy unchanged |
| `Energy.CalcEnergyExample` | run_FFT_analyzer.py:10-12 | frequencies [100,200,300,400], magnitudes [2,4,6,8] and cutoff 300 give 3 |
| `RollingHistory.Pushed` | run_FFT_analyzer.py:68 | after `appendleft(x)` the length is min(old length + 1, maxlen); `x` is in front, followed by the old contents in order, minus the oldest only when the deque was full |
| `RollingHistory.PushedAll` | run_FFT_analyzer.py:68 | after pushing a sequence of samples the length is min(old length + number pushed, maxlen) |
| `RollingHistory.Reversed` | run_FFT_analyzer.py:68 | newest-first order keeps the length |
| `RollingHistory.ReversedAt` | run_FFT_analyzer.py:68 | the i-th newest sample is the i-th from the end of the pushed order |
| `RollingHistory.PushedAllIsNewestFirst` | run_FFT_analyzer.py:68 | starting empty, the history holds the last maxlen samples pushed, newest first |
| `RollingHistory.PushedAllExample` | run_FFT_analyzer.py:68 | capacity 3 with pushes 1,2,3,4 gives [4,3,2] |
| `RollingHistory.History.constructor` | run_FFT_analyzer.py:62 | a new history is empty with the given maxlen |
| `RollingHistory.History.AppendLeft` | run_FFT_analyzer.py:68 | the new contents are `Pushed(old contents, x, maxlen)` and stay within maxlen |
| `BeatDetector.Due` | run_FFT_analyzer.py:64 | a due frame comes strictly after the last one, and a reading exactly one frame period later is not due |
| `BeatDetector.IsBeat` | run_FFT_analyzer.py:72 | energy exactly at 1.5 times the mean is no beat; against a zero mean exactly the positive energies are beats; a non-negative energy at most the mean is no beat |
| `BeatDetector.IsBeatExamples` | run_FFT_analyzer.py:72 | the threshold is strict: (10,5) is a beat, (7,5) and (7.5,5) are not; against mean 0 exactly the positive energies are beats |
| `BeatDetector.Transition` | run_FFT_analyzer.py:63-77 | an iteration processes a frame iff `now - lastUpdate > 1/fps`; otherwise the state is unchanged; a processed frame sets `lastUpdate` to `now` and puts its energy in front of the history, keeping the older samples in order; a verdict is printed iff the frame was processed and the history is full; the verdict is BEAT iff the energy exceeds 1.5 times the mean of the history that already holds it |
| `BeatDetector.Run` | run_FFT_analyzer.py:63-79 | a run yields one outcome per iteration and keeps the history within `NUMBER_OF_FRAMES` |
| `BeatDetector.RunStep` | run_FFT_analyzer.py:63-77 | the last iteration of a run appends one outcome; if it waits the state is unchanged, if it processes a frame the history grows by one up to maxlen, and it prints iff it processed a frame and the history is full |
| `BeatDetector.RunLastVerdict` | run_FFT_analyzer.py:69-77 | a run's last processed frame prints iff the final history is full, and prints BEAT iff the newest sample exceeds 1.5 times that history's mean |
| `BeatDetector.CountProcessedPrefix` | run_FFT_analyzer.py:63-64 | a prefix of a run has processed no more frames than the whole run |
| `BeatDetector.CountProcessedAtMost` | run_FFT_analyzer.py:63-64 | n iterations process at most n frames |
| `BeatDetector.RunHistoryLength` | run_FFT_analyzer.py:62-68 | the history length is min(initial length + processed frames, `NUMBER_OF_FRAMES`) |
| `BeatDetector.PrintsIffWarmedUp` | run_FFT_analyzer.py:69-77 | from the empty history, an iteration prints iff it processes a frame and at least `NUMBER_OF_FRAMES` frames have been processed, this one included |
| `BeatDetector.SilentDuringWarmUp` | run_FFT_analyzer.py:69-77 | fewer than `NUMBER_OF_FRAMES` processed frames from the empty history print nothing |
| `BeatDetector.PacedRunState` | run_FFT_analyzer.py:63-68 | when every clock reading is more than one frame period after the previous one, the run ends with `lastUpdate` at the last reading and the history equal to pushing every frame's energy in order |
| `BeatDetector.PacedRunProcessesAll` | run_FFT_analyzer.py:63-64 | when every clock reading is more than one frame period after the previous one, no iteration waits |
| `BeatDetector.PacedRunPushesEveryEnergy` | run_FFT_analyzer.py:63-68 | both of the above: a paced run processes every frame and its history is `PushedAll` of the frames' energies |
| `BeatDetector.FlatThenJumpWindows` | run_FFT_analyzer.py:68-72 | twenty pushed energies of 1 give a full window whose newest sample is no beat; pushing 10 next gives a window (mean 29/20) whose newest sample is a beat |
| `BeatDetector.FlatThenJumpWarmUp` | run_FFT_analyzer.py:63-69 | in a paced run from the empty history the first nineteen iterations process a frame and print nothing |
| `BeatDetector.FlatThenJumpTwentieth` | run_FFT_analyzer.py:63-77 | in a paced run of twenty frames of energy 1 then one of 10, the twentieth iteration prints NO |
| `BeatDetector.FlatThenJumpLast` | run_FFT_analyzer.py:63-77 | in the same run, the twenty-first iteration prints BEAT, with the 10 already in the mean |
| `BeatDetector.FlatThenJump` | run_FFT_analyzer.py:63-77 | any paced run from the empty history whose frames have energy 1 twenty times and then 10 prints nothing for nineteen iterations, then NO, then BEAT |
| `BeatDetector.OneBinEnergy` | run_FFT_analyzer.py:10-12 | a spectrum with one bin at 100 Hz is usable and its energy is that bin's magnitude |
| `BeatDetector.FlatThenJumpEnergies` | run_FFT_analyzer.py:67 | the scenario's twenty-one spectra are usable and their energies are twenty 1s then 10 |
| `BeatDetector.FlatThenJumpPaced` | run_FFT_analyzer.py:64 | the scenario's clock readings, one second apart, make every iteration due |
| `BeatDetector.FlatThenJumpExample` | run_FFT_analyzer.py:63-77 | the loop fed those twenty-one readings prints nothing nineteen times, then NO, then BEAT |
| `BeatDetector.Analyzer.constructor` | run_FFT_analyzer.py:59-62 | the loop starts with `lastUpdate` at the start time and an empty history of maxlen `NUMBER_OF_FRAMES` |
| `BeatDetector.Analyzer.Step` | run_FFT_analyzer.py:63-79 | one loop iteration changes `lastUpdate` and the history exactly as `Transition` does and returns its outcome |
| `BeatDetector.Analyzer.Poll` | run_FFT_analyzer.py:63-79 | a bounded stretch of the loop ends in the state, and yields the outcomes, of `Run` |

## Left out

- The feature provider (`Stream_Analyzer`, `ear.get_audio_features()`): audio capture, FFT and binning happen outside this core. The binned spectrum is an input of each iteration, and the raw spectrum is not used by the loop.
- `time.time()`: the clock is the parameter `now`. The source reads the clock twice, once for the gate (line 64) and once for `last_update` (line 65). The model uses one reading for both.
- The `--sleep_between_frames` branch (lines 78-79): it sleeps for `((1/fps) - elapsed) * 0.99`, with no effect on the loop state, so a not-due iteration is modelled as `Waiting` with no change. Line 79 reads the clock again after the gate at line 64. If more than one frame period has passed in between, the argument is negative, `time.sleep` raises `ValueError` and the loop ends. This exception path is not modelled: the model treats every not-due iteration as waiting.
- `print`: modelled as the returned `Outcome`.
- The default `bass_max_hz=400` of `calc_energy` (line 10): the loop always passes 300 (line 67), so the model fixes the cutoff at 300 Hz for the loop and takes it as a parameter in `Energy`.
- `parse_args`, `convert_window_ratio` (argument parsing; its ratio feeds only the visualizer, and input without `/` raises `ValueError`) and the stub `detect_beat_in_interval`, which only raises `NotImplementedError`.
- Floating point: magnitudes, frequencies, times and means are exact reals. NumPy rounding and NaN are not modelled.
- Energy.CalcEnergy: requires at least one bin strictly below the cutoff and aligned lengths. Without a bin below the cutoff, the source divides zero by zero: it pushes NaN into the history, or raises `ZeroDivisionError` on an empty spectrum. Mismatched lengths raise `IndexError` in NumPy. These failure paths are not modelled.
- BeatDetector.Transition: requires a usable spectrum only on an iteration that processes a frame. An unusable spectrum there is the failure of `calc_energy` above.
- BeatDetector.Run: requires every tick's spectrum to be usable, including ticks on which no frame is processed.
- The unbounded `while True` loop: `Poll` runs a finite sequence of iterations.
