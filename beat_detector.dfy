/** The frame scheduler and beat classifier of `run_FFT_analyzer`: a frame is
    processed only when more than one frame period has passed since the last
    one; a processed frame computes the bass energy of the binned spectrum,
    pushes it into the rolling history and, once the history is full, prints
    "BEAT" when the energy exceeds `BEAT_COEFF` times the history's mean and
    "NO" otherwise. The mean is taken after the push, so it includes the
    current energy. */
module BeatDetector {
  import opened RealSeq
  import opened Energy
  import opened RollingHistory

  /** `fps`: processed frames per second at most. */
  const Fps: real := 60.0
  /** `1./fps`: the time that must strictly elapse between processed frames. */
  const FramePeriod: real := 1.0 / Fps
  /** `NUMBER_OF_FRAMES`: the history's `maxlen`. */
  const NumberOfFrames: nat := 20
  /** `BEAT_COEFF` */
  const BeatCoeff: real := 1.5
  /** `bass_max_hz` as passed by the loop. */
  const BassMaxHz: real := 300.0

  /** A binned spectrum from the feature provider: frequencies and magnitudes. */
  datatype Spectrum = Spectrum(freqs: seq<real>, mags: seq<real>)

  /** What `calc_energy` needs of the binned spectrum: aligned sequences and
      at least one bin below the cutoff. */
  predicate Usable(s: Spectrum)
  {
    |s.freqs| == |s.mags| && HasBassBin(s.freqs, BassMaxHz)
  }

  function FrameEnergy(s: Spectrum): real
    requires Usable(s)
  {
    CalcEnergy(s.freqs, s.mags, BassMaxHz)
  }

  datatype Verdict = Beat | No

  /** What one iteration of the polling loop does: nothing (the frame is not
      due), processes a frame without output (history not yet full), or
      processes a frame and prints a verdict. */
  datatype Outcome = Waiting | WarmingUp | Printed(verdict: Verdict)

  /** `(time.time() - last_update) > (1./fps)`: a frame is due only strictly
      more than one frame period after the last one, never exactly at it. */
  predicate Due(lastUpdate: real, now: real)
    ensures Due(lastUpdate, now) ==> now > lastUpdate
    ensures now - lastUpdate == FramePeriod ==> !Due(lastUpdate, now)
  {
    now - lastUpdate > FramePeriod
  }

  /** `is_beat = energy > BEAT_COEFF*mean_energy`: energy exactly at the
      threshold is no beat, and against a zero mean exactly the positive
      energies are beats. */
  predicate IsBeat(energy: real, meanEnergy: real)
    ensures energy == BeatCoeff * meanEnergy ==> !IsBeat(energy, meanEnergy)
    ensures meanEnergy == 0.0 ==> (IsBeat(energy, meanEnergy) <==> energy > 0.0)
    ensures 0.0 <= energy <= meanEnergy ==> !IsBeat(energy, meanEnergy)
  {
    energy > BeatCoeff * meanEnergy
  }

  /** The loop state that outlives one iteration. */
  datatype State = State(lastUpdate: real, history: seq<real>)

  /** One iteration of the `while True` loop, with the clock reading `now`
      and the spectrum the feature provider would deliver. */
  function Transition(st: State, now: real, spectrum: Spectrum): (r: (State, Outcome))
    requires |st.history| <= NumberOfFrames
    requires Due(st.lastUpdate, now) ==> Usable(spectrum)
    ensures |r.0.history| <= NumberOfFrames
    ensures r.1 == Waiting <==> !Due(st.lastUpdate, now)
    ensures r.1 == Waiting ==> r.0 == st
    ensures r.1 != Waiting ==>
      && r.0.lastUpdate == now
      && |r.0.history| == Min(|st.history| + 1, NumberOfFrames)
      && r.0.history[0] == FrameEnergy(spectrum)
      && r.0.history[1..] == st.history[..|r.0.history| - 1]
    ensures r.1.Printed? <==> r.1 != Waiting && |r.0.history| == NumberOfFrames
    ensures r.1.Printed? ==> (r.1.verdict == Beat <==> r.0.history[0] > BeatCoeff * Mean(r.0.history))
  {
    if Due(st.lastUpdate, now) then
      var energy := FrameEnergy(spectrum);
      var history := Pushed(st.history, energy, NumberOfFrames);
      var out :=
        if |history| == NumberOfFrames then
          Printed(if IsBeat(energy, Mean(history)) then Beat else No)
        else
          WarmingUp;
      (State(now, history), out)
    else
      (st, Waiting)
  }

  /** One loop iteration per tick: the clock reading and the spectrum on offer. */
  datatype Tick = Tick(now: real, spectrum: Spectrum)

  /** A bounded run of the polling loop: the final state and each iteration's outcome. */
  function Run(st: State, ticks: seq<Tick>): (r: (State, seq<Outcome>))
    requires |st.history| <= NumberOfFrames
    requires forall k :: 0 <= k < |ticks| ==> Usable(ticks[k].spectrum)
    ensures |r.0.history| <= NumberOfFrames
    ensures |r.1| == |ticks|
    decreases |ticks|
  {
    if ticks == [] then
      (st, [])
    else
      var n := |ticks| - 1;
      var prev := Run(st, ticks[..n]);
      var next := Transition(prev.0, ticks[n].now, ticks[n].spectrum);
      (next.0, prev.1 + [next.1])
  }

  /** The number of iterations that processed a frame. */
  function CountProcessed(outs: seq<Outcome>): nat
  {
    if outs == [] then 0
    else CountProcessed(outs[..|outs| - 1]) + (if outs[|outs| - 1] == Waiting then 0 else 1)
  }

  /** The last outcome counts once if it processed a frame. */
  lemma CountProcessedLast(outs: seq<Outcome>)
    requires outs != []
    ensures CountProcessed(outs)
         == CountProcessed(outs[..|outs| - 1]) + (if outs[|outs| - 1] == Waiting then 0 else 1)
  {
  }

  /** A prefix of a run has processed no more frames than the whole run. */
  lemma {:induction false} CountProcessedPrefix(outs: seq<Outcome>, j: nat)
    requires j <= |outs|
    ensures CountProcessed(outs[..j]) <= CountProcessed(outs)
    decreases |outs|
  {
    if j < |outs| {
      var n := |outs| - 1;
      assert outs[..n][..j] == outs[..j];
      CountProcessedPrefix(outs[..n], j);
    } else {
      assert outs[..j] == outs;
    }
  }

  /** The last iteration of a run follows the run of the earlier ticks. */
  lemma RunLast(st: State, ticks: seq<Tick>)
    requires |st.history| <= NumberOfFrames
    requires forall k :: 0 <= k < |ticks| ==> Usable(ticks[k].spectrum)
    requires ticks != []
    ensures var n := |ticks| - 1;
            var prev := Run(st, ticks[..n]);
            var next := Transition(prev.0, ticks[n].now, ticks[n].spectrum);
            Run(st, ticks) == (next.0, prev.1 + [next.1])
  {
  }

  /** A due iteration processes a frame, pushing its energy and recording `now`. */
  lemma DueTransitionPushes(st: State, now: real, spectrum: Spectrum)
    requires |st.history| <= NumberOfFrames
    requires Due(st.lastUpdate, now) && Usable(spectrum)
    ensures Transition(st, now, spectrum).0 == State(now, Pushed(st.history, FrameEnergy(spectrum), NumberOfFrames))
    ensures Transition(st, now, spectrum).1 != Waiting
  {
  }

  /** The last outcome of a run that processed its last frame is decided by
      the final history: a verdict is printed iff the history is full, and it
      is BEAT iff the newest sample is a beat against the history's mean. */
  lemma RunLastVerdict(st: State, ticks: seq<Tick>)
    requires |st.history| <= NumberOfFrames
    requires forall k :: 0 <= k < |ticks| ==> Usable(ticks[k].spectrum)
    requires ticks != []
    ensures var r := Run(st, ticks);
            var out := r.1[|ticks| - 1];
            out != Waiting ==>
              && (out.Printed? <==> |r.0.history| == NumberOfFrames)
              && (out.Printed? ==> (out.verdict == Beat <==> IsBeat(r.0.history[0], Mean(r.0.history))))
  {
    RunLast(st, ticks);
  }

  /** What the last iteration of a run adds: one more outcome after those
      of the earlier ticks; a waiting iteration changes no state; a processed
      frame grows the history by one up to `NUMBER_OF_FRAMES`; and a verdict
      is printed iff a frame was processed and the history is full. */
  lemma RunStep(st: State, ticks: seq<Tick>)
    requires |st.history| <= NumberOfFrames
    requires forall k :: 0 <= k < |ticks| ==> Usable(ticks[k].spectrum)
    requires ticks != []
    ensures var n := |ticks| - 1;
            var prev := Run(st, ticks[..n]);
            var r := Run(st, ticks);
            && r.1[..n] == prev.1
            && (r.1[n] == Waiting ==> r.0 == prev.0)
            && (r.1[n] != Waiting ==> |r.0.history| == Min(|prev.0.history| + 1, NumberOfFrames))
            && (r.1[n].Printed? <==> r.1[n] != Waiting && |r.0.history| == NumberOfFrames)
  {
    RunLast(st, ticks);
  }

  /** The history grows by one per processed frame until it holds
      `NUMBER_OF_FRAMES` samples, and then stays at that length. */
  lemma {:induction false} RunHistoryLength(st: State, ticks: seq<Tick>)
    requires |st.history| <= NumberOfFrames
    requires forall k :: 0 <= k < |ticks| ==> Usable(ticks[k].spectrum)
    ensures |Run(st, ticks).0.history| == Min(|st.history| + CountProcessed(Run(st, ticks).1), NumberOfFrames)
    decreases |ticks|
  {
    if ticks != [] {
      RunHistoryLength(st, ticks[..|ticks| - 1]);
      RunHistoryLengthStep(st, ticks);
    }
  }

  /** The induction step of `RunHistoryLength`. */
  lemma RunHistoryLengthStep(st: State, ticks: seq<Tick>)
    requires |st.history| <= NumberOfFrames
    requires forall k :: 0 <= k < |ticks| ==> Usable(ticks[k].spectrum)
    requires ticks != []
    requires var prev := Run(st, ticks[..|ticks| - 1]);
             |prev.0.history| == Min(|st.history| + CountProcessed(prev.1), NumberOfFrames)
    ensures |Run(st, ticks).0.history| == Min(|st.history| + CountProcessed(Run(st, ticks).1), NumberOfFrames)
  {
    var n := |ticks| - 1;
    var prev := Run(st, ticks[..n]);
    var r := Run(st, ticks);
    RunStep(st, ticks);
    CountProcessedLast(r.1);
    assert CountProcessed(r.1[..n]) == CountProcessed(prev.1);
    if r.1[n] == Waiting {
      assert r.0 == prev.0;
    } else {
      assert |r.0.history| == Min(|prev.0.history| + 1, NumberOfFrames);
    }
  }

  /** Starting from the empty history, an iteration prints a verdict exactly
      when it processes a frame and at least `NUMBER_OF_FRAMES` frames have
      been processed so far, this one included. */
  lemma {:induction false} PrintsIffWarmedUp(t0: real, ticks: seq<Tick>, j: nat)
    requires forall k :: 0 <= k < |ticks| ==> Usable(ticks[k].spectrum)
    requires j < |ticks|
    ensures Run(State(t0, []), ticks).1[j].Printed?
        <==> Run(State(t0, []), ticks).1[j] != Waiting
             && CountProcessed(Run(State(t0, []), ticks).1[..j + 1]) >= NumberOfFrames
    decreases |ticks|
  {
    var st := State(t0, []);
    var n := |ticks| - 1;
    var outs := Run(st, ticks).1;
    var prev := Run(st, ticks[..n]);
    RunStep(st, ticks);
    if j < n {
      assert prev.1[j].Printed? <==> prev.1[j] != Waiting && CountProcessed(prev.1[..j + 1]) >= NumberOfFrames by {
        PrintsIffWarmedUp(t0, ticks[..n], j);
      }
      assert outs[j] == prev.1[j];
      assert outs[..j + 1] == prev.1[..j + 1];
    } else {
      assert |Run(st, ticks).0.history| == Min(CountProcessed(outs), NumberOfFrames) by {
        RunHistoryLength(st, ticks);
      }
      assert outs[..j + 1] == outs;
    }
  }

  /** Fewer than `NUMBER_OF_FRAMES` processed frames from the empty history
      print nothing. */
  lemma {:induction false} SilentDuringWarmUp(t0: real, ticks: seq<Tick>)
    requires forall k :: 0 <= k < |ticks| ==> Usable(ticks[k].spectrum)
    requires CountProcessed(Run(State(t0, []), ticks).1) < NumberOfFrames
    ensures forall j :: 0 <= j < |ticks| ==> !Run(State(t0, []), ticks).1[j].Printed?
  {
    var outs := Run(State(t0, []), ticks).1;
    forall j | 0 <= j < |ticks|
      ensures !outs[j].Printed?
    {
      PrintsIffWarmedUp(t0, ticks, j);
      CountProcessedPrefix(outs, j + 1);
    }
  }

  /** Twenty samples of 1 give a full window whose newest sample is not a
      beat (1 is not above 1.5 times 1); pushing 10 next gives a window whose
      newest sample is a beat (the mean, 29/20, already includes the 10). */
  lemma FlatThenJumpWindows()
    ensures var flat := PushedAll([], seq(20, _ => 1.0), NumberOfFrames);
            && |flat| == NumberOfFrames
            && !IsBeat(flat[0], Mean(flat))
            && var jumped := Pushed(flat, 10.0, NumberOfFrames);
               jumped[0] == 10.0 && IsBeat(10.0, Mean(jumped))
  {
    var ones := seq(20, _ => 1.0);
    var flat := PushedAll([], ones, NumberOfFrames);
    PushedAllIsNewestFirst(ones, NumberOfFrames);
    forall i | 0 <= i < |flat|
      ensures flat[i] == 1.0
    {
      ReversedAt(ones, i);
    }
    MeanBounds(flat, 1.0, 1.0);
    var jumped := Pushed(flat, 10.0, NumberOfFrames);
    assert jumped == [10.0] + flat[..19];
    SumConcat([10.0], flat[..19]);
    assert Sum([10.0]) == 10.0 by {
      assert [10.0][..0] == [];
    }
    SumBounds(flat[..19], 1.0, 1.0);
    assert Mean(jumped) == 29.0 / 20.0;
  }

  /** The energies of the ticks' spectra, oldest first. */
  function Energies(ticks: seq<Tick>): (es: seq<real>)
    requires forall k :: 0 <= k < |ticks| ==> Usable(ticks[k].spectrum)
    ensures |es| == |ticks|
  {
    seq(|ticks|, k requires 0 <= k < |ticks| && Usable(ticks[k].spectrum) => FrameEnergy(ticks[k].spectrum))
  }

  /** Every tick comes more than one frame period after the previous one
      (the first, after `t0`). */
  predicate Paced(t0: real, ticks: seq<Tick>)
    decreases |ticks|
  {
    ticks == [] ||
      var n := |ticks| - 1;
      && Paced(t0, ticks[..n])
      && Due(if n == 0 then t0 else ticks[n - 1].now, ticks[n].now)
  }

  /** When every tick is due, every iteration processes a frame: the history
      becomes the result of pushing the ticks' energies in order, and
      `lastUpdate` becomes the last tick's time. */
  lemma PacedRunPushesEveryEnergy(t0: real, h: seq<real>, ticks: seq<Tick>)
    requires |h| <= NumberOfFrames
    requires forall k :: 0 <= k < |ticks| ==> Usable(ticks[k].spectrum)
    requires Paced(t0, ticks)
    ensures Run(State(t0, h), ticks).0
         == State(if ticks == [] then t0 else ticks[|ticks| - 1].now, PushedAll(h, Energies(ticks), NumberOfFrames))
    ensures forall j :: 0 <= j < |ticks| ==> Run(State(t0, h), ticks).1[j] != Waiting
  {
    PacedRunState(t0, h, ticks);
    PacedRunProcessesAll(t0, h, ticks);
  }

  /** The state after a paced run: the last tick's time, and every energy pushed. */
  lemma {:induction false} PacedRunState(t0: real, h: seq<real>, ticks: seq<Tick>)
    requires |h| <= NumberOfFrames
    requires forall k :: 0 <= k < |ticks| ==> Usable(ticks[k].spectrum)
    requires Paced(t0, ticks)
    ensures Run(State(t0, h), ticks).0 == State(LastTime(t0, ticks), PushedAll(h, Energies(ticks), NumberOfFrames))
    decreases |ticks|
  {
    if ticks != [] {
      PacedRunState(t0, h, ticks[..|ticks| - 1]);
      PacedRunStateStep(t0, h, ticks);
    }
  }

  /** The time of the last tick, or `t0` when there is none. */
  function LastTime(t0: real, ticks: seq<Tick>): real
  {
    if ticks == [] then t0 else ticks[|ticks| - 1].now
  }

  /** The induction step of `PacedRunState`. */
  lemma PacedRunStateStep(t0: real, h: seq<real>, ticks: seq<Tick>)
    requires |h| <= NumberOfFrames
    requires forall k :: 0 <= k < |ticks| ==> Usable(ticks[k].spectrum)
    requires Paced(t0, ticks)
    requires ticks != []
    requires var prefix := ticks[..|ticks| - 1];
             Run(State(t0, h), prefix).0 == State(LastTime(t0, prefix), PushedAll(h, Energies(prefix), NumberOfFrames))
    ensures Run(State(t0, h), ticks).0 == State(LastTime(t0, ticks), PushedAll(h, Energies(ticks), NumberOfFrames))
  {
    var n := |ticks| - 1;
    var prefix := ticks[..n];
    assert LastTime(t0, prefix) == if n == 0 then t0 else ticks[n - 1].now;
    EnergiesLast(ticks);
    RunDueStep(State(t0, h), ticks, LastTime(t0, prefix), PushedAll(h, Energies(prefix), NumberOfFrames));
    PushedAllLast(h, Energies(ticks), NumberOfFrames);
  }

  /** The energies of all ticks extend those of the earlier ticks by the last one's. */
  lemma EnergiesLast(ticks: seq<Tick>)
    requires forall k :: 0 <= k < |ticks| ==> Usable(ticks[k].spectrum)
    requires ticks != []
    ensures Energies(ticks)[..|ticks| - 1] == Energies(ticks[..|ticks| - 1])
    ensures Energies(ticks)[|ticks| - 1] == FrameEnergy(ticks[|ticks| - 1].spectrum)
  {
  }

  /** A due last iteration pushes its energy onto the history the earlier
      ticks left and records its time. */
  lemma RunDueStep(st: State, ticks: seq<Tick>, last: real, before: seq<real>)
    requires |st.history| <= NumberOfFrames
    requires forall k :: 0 <= k < |ticks| ==> Usable(ticks[k].spectrum)
    requires ticks != []
    requires Run(st, ticks[..|ticks| - 1]).0 == State(last, before)
    requires Due(last, ticks[|ticks| - 1].now)
    ensures var n := |ticks| - 1;
            Run(st, ticks).0 == State(ticks[n].now, Pushed(before, FrameEnergy(ticks[n].spectrum), NumberOfFrames))
  {
    var n := |ticks| - 1;
    DueTransitionPushes(State(last, before), ticks[n].now, ticks[n].spectrum);
    RunLast(st, ticks);
  }

  /** In a paced run no iteration waits. */
  lemma {:induction false} PacedRunProcessesAll(t0: real, h: seq<real>, ticks: seq<Tick>)
    requires |h| <= NumberOfFrames
    requires forall k :: 0 <= k < |ticks| ==> Usable(ticks[k].spectrum)
    requires Paced(t0, ticks)
    ensures forall j :: 0 <= j < |ticks| ==> Run(State(t0, h), ticks).1[j] != Waiting
    decreases |ticks|
  {
    if ticks != [] {
      var n := |ticks| - 1;
      var prefix := ticks[..n];
      var st := State(t0, h);
      var prev := Run(st, prefix);
      var last := if n == 0 then t0 else ticks[n - 1].now;
      assert prev.0.lastUpdate == last && forall j :: 0 <= j < n ==> prev.1[j] != Waiting by {
        PacedRunState(t0, h, prefix);
        PacedRunProcessesAll(t0, h, prefix);
        if n > 0 {
          assert prefix[n - 1] == ticks[n - 1];
        }
      }
      var next := Transition(prev.0, ticks[n].now, ticks[n].spectrum);
      assert next.1 != Waiting;
      assert Run(st, ticks).1 == prev.1 + [next.1] by {
        RunLast(st, ticks);
      }
    }
  }

  /** Twenty-one ticks one second apart, with a single 100 Hz bin of
      magnitude 1 for twenty ticks and then 10. */
  function FlatThenJumpTicks(): (ticks: seq<Tick>)
    ensures |ticks| == 21
  {
    seq(21, k requires 0 <= k < 21 => Tick((k + 1) as real, Spectrum([100.0], [if k < 20 then 1.0 else 10.0])))
  }

  /** The energy of a one-bin bass spectrum is that bin's magnitude. */
  lemma OneBinEnergy(c: real)
    ensures Usable(Spectrum([100.0], [c]))
    ensures FrameEnergy(Spectrum([100.0], [c])) == c
  {
    assert [100.0][0] < BassMaxHz;
    CalcEnergyBounds([100.0], [c], BassMaxHz, c, c);
  }

  /** Every spectrum of the scenario is usable; the first twenty have
      energy 1 and the last has energy 10. */
  lemma FlatThenJumpEnergies()
    ensures forall k :: 0 <= k < 21 ==> Usable(FlatThenJumpTicks()[k].spectrum)
    ensures Energies(FlatThenJumpTicks()) == seq(20, _ => 1.0) + [10.0]
  {
    var ticks := FlatThenJumpTicks();
    var es := seq(20, _ => 1.0) + [10.0];
    forall k | 0 <= k < 21
      ensures Usable(ticks[k].spectrum) && FrameEnergy(ticks[k].spectrum) == es[k]
    {
      var c := if k < 20 then 1.0 else 10.0;
      assert ticks[k].spectrum == Spectrum([100.0], [c]);
      OneBinEnergy(c);
      assert es[k] == c;
    }
    assert Energies(ticks) == es;
  }

  /** Each prefix of the scenario's ticks is paced: they are one second apart. */
  lemma {:induction false} FlatThenJumpPaced(n: nat)
    requires n <= 21
    ensures Paced(0.0, FlatThenJumpTicks()[..n])
  {
    if n > 0 {
      var ticks := FlatThenJumpTicks();
      FlatThenJumpPaced(n - 1);
      assert ticks[..n][..n - 1] == ticks[..n - 1];
    }
  }

  /** Any paced run from the empty history whose first twenty frames have
      energy 1 and whose twenty-first has energy 10: the first nineteen
      iterations print nothing, the twentieth prints "NO" (1 is not above 1.5
      times 1) and the twenty-first prints "BEAT" (the mean, 29/20, already
      includes the 10). */
  lemma {:induction false} FlatThenJump(t0: real, ticks: seq<Tick>)
    requires |ticks| == 21
    requires forall k :: 0 <= k < |ticks| ==> Usable(ticks[k].spectrum)
    requires Paced(t0, ticks)
    requires Energies(ticks) == seq(20, _ => 1.0) + [10.0]
    ensures forall j :: 0 <= j < 19 ==> Run(State(t0, []), ticks).1[j] == WarmingUp
    ensures Run(State(t0, []), ticks).1[19] == Printed(No)
    ensures Run(State(t0, []), ticks).1[20] == Printed(Beat)
  {
    FlatThenJumpWarmUp(t0, ticks);
    FlatThenJumpTwentieth(t0, ticks);
    FlatThenJumpLast(t0, ticks);
  }

  /** In a paced run from the empty history, the first nineteen iterations
      process a frame and print nothing. */
  lemma {:induction false} FlatThenJumpWarmUp(t0: real, ticks: seq<Tick>)
    requires |ticks| >= 19
    requires forall k :: 0 <= k < |ticks| ==> Usable(ticks[k].spectrum)
    requires Paced(t0, ticks)
    ensures forall j :: 0 <= j < 19 ==> Run(State(t0, []), ticks).1[j] == WarmingUp
  {
    var outs := Run(State(t0, []), ticks).1;
    assert forall j :: 0 <= j < |ticks| ==> outs[j] != Waiting by {
      PacedRunProcessesAll(t0, [], ticks);
    }
    forall j | 0 <= j < 19
      ensures outs[j] == WarmingUp
    {
      PrintsIffWarmedUp(t0, ticks, j);
      CountProcessedAtMost(outs[..j + 1]);
    }
  }

  /** The twentieth iteration of the scenario sees a full history of ones. */
  lemma {:induction false} FlatThenJumpTwentieth(t0: real, ticks: seq<Tick>)
    requires |ticks| == 21
    requires forall k :: 0 <= k < |ticks| ==> Usable(ticks[k].spectrum)
    requires Paced(t0, ticks)
    requires Energies(ticks) == seq(20, _ => 1.0) + [10.0]
    ensures Run(State(t0, []), ticks).1[19] == Printed(No)
  {
    var st := State(t0, []);
    var prefix := ticks[..20];
    var r := Run(st, prefix);
    assert r.0.history == PushedAll([], seq(20, _ => 1.0), NumberOfFrames) && r.1[19] != Waiting by {
      assert Energies(prefix) == Energies(ticks)[..20];
      assert (seq(20, _ => 1.0) + [10.0])[..20] == seq(20, _ => 1.0);
      PacedRunPushesEveryEnergy(t0, [], prefix);
    }
    assert r.1[19] == Printed(No) by {
      RunLastVerdict(st, prefix);
      FlatThenJumpWindows();
    }
    assert Run(st, ticks).1[19] == r.1[19] by {
      RunLast(st, ticks);
    }
  }

  /** The twenty-first iteration of the scenario pushes 10 onto twenty ones. */
  lemma {:induction false} FlatThenJumpLast(t0: real, ticks: seq<Tick>)
    requires |ticks| == 21
    requires forall k :: 0 <= k < |ticks| ==> Usable(ticks[k].spectrum)
    requires Paced(t0, ticks)
    requires Energies(ticks) == seq(20, _ => 1.0) + [10.0]
    ensures Run(State(t0, []), ticks).1[20] == Printed(Beat)
  {
    var st := State(t0, []);
    var r := Run(st, ticks);
    var ones := seq(20, _ => 1.0);
    var es := ones + [10.0];
    assert r.0.history == Pushed(PushedAll([], ones, NumberOfFrames), 10.0, NumberOfFrames) && r.1[20] != Waiting by {
      PacedRunPushesEveryEnergy(t0, [], ticks);
      assert es[..20] == ones;
    }
    assert r.1[20] == Printed(Beat) by {
      RunLastVerdict(st, ticks);
      FlatThenJumpWindows();
    }
  }

  /** The scenario happens: twenty-one ticks one second apart whose spectra
      have a single 100 Hz bin of magnitude 1, then 10, print nothing for
      nineteen iterations, then "NO", then "BEAT". */
  lemma FlatThenJumpExample()
    ensures forall k :: 0 <= k < 21 ==> Usable(FlatThenJumpTicks()[k].spectrum)
    ensures forall j :: 0 <= j < 19 ==> Run(State(0.0, []), FlatThenJumpTicks()).1[j] == WarmingUp
    ensures Run(State(0.0, []), FlatThenJumpTicks()).1[19] == Printed(No)
    ensures Run(State(0.0, []), FlatThenJumpTicks()).1[20] == Printed(Beat)
  {
    var ticks := FlatThenJumpTicks();
    FlatThenJumpEnergies();
    FlatThenJumpPaced(21);
    assert ticks[..21] == ticks;
    FlatThenJump(0.0, ticks);
  }

  /** A run of n iterations processes at most n frames. */
  lemma {:induction false} CountProcessedAtMost(outs: seq<Outcome>)
    ensures CountProcessed(outs) <= |outs|
    decreases |outs|
  {
    if outs != [] {
      CountProcessedAtMost(outs[..|outs| - 1]);
    }
  }

  /** The threshold is strict: with coefficient 1.5 and mean 5, energy 10 is a
      beat, 7 is not, and 7.5 (exactly the threshold) is not; against a zero
      mean every positive energy is a beat and zero is not. */
  lemma IsBeatExamples(e: real)
    ensures IsBeat(10.0, 5.0) && !IsBeat(7.0, 5.0) && !IsBeat(7.5, 5.0)
    ensures IsBeat(e, 0.0) <==> e > 0.0
  {
  }

  /** The loop's state: the time of the last processed frame and the history. */
  class Analyzer {
    var lastUpdate: real
    const history: History

    ghost predicate Valid()
      reads this, history
    {
      history.capacity == NumberOfFrames && history.Valid()
    }

    function Snapshot(): State
      reads this, history
    {
      State(lastUpdate, history.items)
    }

    /** `last_update = time.time()` and `history = deque([], maxlen=NUMBER_OF_FRAMES)` */
    constructor (now: real)
      ensures Valid() && fresh(history)
      ensures Snapshot() == State(now, [])
    {
      lastUpdate := now;
      history := new History(NumberOfFrames);
    }

    /** One iteration of the `while True` loop body. */
    method Step(now: real, spectrum: Spectrum) returns (out: Outcome)
      requires Valid()
      requires Due(lastUpdate, now) ==> Usable(spectrum)
      modifies this, history
      ensures Valid()
      ensures (Snapshot(), out) == Transition(old(Snapshot()), now, spectrum)
    {
      if now - lastUpdate > FramePeriod {
        lastUpdate := now;
        var energy := CalcEnergy(spectrum.freqs, spectrum.mags, BassMaxHz);
        history.AppendLeft(energy);
        if |history.items| == NumberOfFrames {
          var meanEnergy := Mean(history.items);
          var isBeat := energy > BeatCoeff * meanEnergy;
          if isBeat {
            out := Printed(Beat);
          } else {
            out := Printed(No);
          }
        } else {
          out := WarmingUp;
        }
      } else {
        out := Waiting;
      }
    }

    /** A bounded stretch of the polling loop, one iteration per tick. */
    method Poll(ticks: seq<Tick>) returns (outs: seq<Outcome>)
      requires Valid()
      requires forall k :: 0 <= k < |ticks| ==> Usable(ticks[k].spectrum)
      modifies this, history
      ensures Valid()
      ensures (Snapshot(), outs) == Run(old(Snapshot()), ticks)
    {
      outs := [];
      var i := 0;
      while i < |ticks|
        invariant 0 <= i <= |ticks|
        invariant Valid()
        invariant (Snapshot(), outs) == Run(old(Snapshot()), ticks[..i])
      {
        assert ticks[..i + 1][..i] == ticks[..i];
        var out := Step(ticks[i].now, ticks[i].spectrum);
        outs := outs + [out];
        i := i + 1;
      }
      assert ticks[..i] == ticks;
    }
  }
}
