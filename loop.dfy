/**
 * The `while len(new_freq) > 0` loop of `design_freq_range`: evaluate the
 * forward model at the proposed frequencies, merge them into the sample set,
 * ask the refinement rule for the next frequency and rebuild the spectrum at
 * the required frequencies. The source loop has no bound; here it runs for at
 * most `fuel` steps.
 */
module AdaptiveLoop {
  import opened Numerics
  import opened Fields
  import opened Unique
  import opened SampleSet
  import opened ErrorEstimator
  import opened Refiner
  import opened Reconstruction
  import opened Seed

  /** The ways the source stops with an exception instead of returning. */
  datatype Failure =
    | NoPeakSelected   // `lfreq[0]` on an empty peak selection
    | EmptySeed        // the loop never runs and `tEM` is unbound
    | SingleSample     // the ramp needs the spacing of the last two samples

  datatype Outcome =
    | Converged(samples: Samples, spectrum: seq<Complex>, steps: nat)
    | OutOfFuel(samples: Samples, pending: seq<real>, steps: nat)
    | Failed(reason: Failure)

  /** Some seed frequency has a non-zero field, so the normaliser is positive. */
  ghost predicate SeedHasSignal(seed: Option<seq<real>>, forward: real -> Complex) {
    seed.Some? && |seed.value| > 0 ==>
      exists j :: 0 <= j < |seed.value| && forward(seed.value[j]) != Zero
  }

  /** A sample set that contains a signalling seed frequency has a positive normaliser. */
  lemma SignalPersists(seed: seq<real>, samples: Samples, forward: real -> Complex, modulus: Complex -> real)
    requires IsModulus(modulus) && ComputedBy(samples, forward) && |samples.lfreq| > 0
    requires forall x :: x in seed ==> x in samples.lfreq
    requires exists j :: 0 <= j < |seed| && forward(seed[j]) != Zero
    ensures MaxModulus(samples.field, modulus) > 0.0
  {
    var k :| 0 <= k < |seed| && forward(seed[k]) != Zero;
    assert seed[k] in seed;
    var j :| 0 <= j < |samples.lfreq| && samples.lfreq[j] == seed[k];
    assert samples.field[j] != Zero;
    MaxModulusPositive(samples.field, modulus);
  }

  /** The first merge: the distinct seed frequencies, sorted, each with its forward field. */
  lemma FirstMerge(seed: seq<real>, forward: real -> Complex)
    ensures var s := Merge(NoSamples, Evaluate(seed, forward));
      && ComputedBy(s, forward)
      && StrictlyIncreasing(s.lfreq)
      && (forall x :: x in seed ==> x in s.lfreq)
      && |s.lfreq| == |UniqueValues(seed)|
  {
    var added := Evaluate(seed, forward);
    MergeUnion(NoSamples, added);
    MergeComputedBy(NoSamples, added, forward);
    assert NoSamples.lfreq + added.lfreq == seed;
  }

  /** A later merge: a proposed frequency is always new, so exactly one sample is added. */
  lemma NextMerge(prev: Samples, newL: seq<real>, rtol: real,
                  forward: real -> Complex, interp: Interpolator, modulus: Complex -> real)
    requires ComputedBy(prev, forward) && StrictlyIncreasing(prev.lfreq) && |prev.lfreq| > 0
    requires MaxModulus(prev.field, modulus) > 0.0
    requires newL == NewLogFreq(prev.lfreq, ErrorVector(prev.lfreq, prev.field, interp, modulus), rtol)
    requires |newL| > 0
    ensures var s := Merge(prev, Evaluate(newL, forward));
      && ComputedBy(s, forward)
      && StrictlyIncreasing(s.lfreq)
      && (forall x :: x in prev.lfreq ==> x in s.lfreq)
      && |s.lfreq| == |prev.lfreq| + 1
  {
    var added := Evaluate(newL, forward);
    var error := ErrorVector(prev.lfreq, prev.field, interp, modulus);
    MergeUnion(prev, added);
    MergeComputedBy(prev, added, forward);
    NewFrequencyIsFresh(prev.lfreq, error, rtol);
    MergeFresh(prev, added);
  }

  /** The state between two passes: the samples so far and the frequencies proposed next. */
  datatype Pass = Pass(samples: Samples, proposal: seq<real>)

  /**
   * One pass of the loop body: evaluate and merge the proposal, then ask the
   * refinement rule for the next proposal. None where the model stops: a
   * single sample (the ramp raises) or a zero normaliser.
   */
  function Advance(p: Pass, rtol: real, forward: real -> Complex, interp: Interpolator,
                   modulus: Complex -> real): (r: Option<Pass>)
    requires Aligned(p.samples)
    ensures r.Some? ==> Aligned(r.value.samples) && |r.value.samples.lfreq| >= 2
  {
    var s := Merge(p.samples, Evaluate(p.proposal, forward));
    if |s.lfreq| < 2 || MaxModulus(s.field, modulus) <= 0.0 then None
    else Some(Pass(s, NewLogFreq(s.lfreq, ErrorVector(s.lfreq, s.field, interp, modulus), rtol)))
  }

  /** The state after k passes from the seed: the path lines 754-765 follow. */
  function Trace(seed: seq<real>, k: nat, rtol: real, forward: real -> Complex, interp: Interpolator,
                 modulus: Complex -> real): (r: Option<Pass>)
    ensures r.Some? ==> Aligned(r.value.samples)
    decreases k
  {
    if k == 0 then Some(Pass(NoSamples, seed))
    else
      match Trace(seed, k - 1, rtol, forward, interp, modulus)
      case None => None
      case Some(p) => Advance(p, rtol, forward, interp, modulus)
  }

  /**
   * Along the trace, every state after the first pass has ascending samples,
   * and its proposal is the refinement rule's: at most one frequency, never
   * one already sampled.
   */
  lemma TraceInvariant(seed: seq<real>, k: nat, rtol: real, forward: real -> Complex,
                       interp: Interpolator, modulus: Complex -> real)
    requires k > 0 && Trace(seed, k, rtol, forward, interp, modulus).Some?
    ensures var p := Trace(seed, k, rtol, forward, interp, modulus).value;
      && StrictlyIncreasing(p.samples.lfreq)
      && |p.proposal| <= 1
      && (|p.proposal| == 1 ==> p.proposal[0] !in p.samples.lfreq)
  {
    var prev := Trace(seed, k - 1, rtol, forward, interp, modulus);
    assert prev.Some? && Trace(seed, k, rtol, forward, interp, modulus) ==
      Advance(prev.value, rtol, forward, interp, modulus);
    AdvanceInvariant(prev.value, rtol, forward, interp, modulus);
  }

  /** One pass keeps the invariant of `TraceInvariant`. */
  lemma AdvanceInvariant(p: Pass, rtol: real, forward: real -> Complex, interp: Interpolator,
                         modulus: Complex -> real)
    requires Aligned(p.samples) && Advance(p, rtol, forward, interp, modulus).Some?
    ensures var q := Advance(p, rtol, forward, interp, modulus).value;
      && StrictlyIncreasing(q.samples.lfreq)
      && |q.proposal| <= 1
      && (|q.proposal| == 1 ==> q.proposal[0] !in q.samples.lfreq)
  {
    var added := Evaluate(p.proposal, forward);
    var s := Merge(p.samples, added);
    MergeUnion(p.samples, added);
    var error := ErrorVector(s.lfreq, s.field, interp, modulus);
    var next := NewLogFreq(s.lfreq, error, rtol);
    AdvanceSome(p, rtol, forward, interp, modulus);
    if |next| == 1 {
      NewFrequencyIsFresh(s.lfreq, error, rtol);
    }
  }

  /** A pass that leaves two samples and a positive normaliser yields the rule's proposal. */
  lemma AdvanceSome(p: Pass, rtol: real, forward: real -> Complex, interp: Interpolator,
                    modulus: Complex -> real)
    requires Aligned(p.samples)
    requires |Merge(p.samples, Evaluate(p.proposal, forward)).lfreq| >= 2
    requires MaxModulus(Merge(p.samples, Evaluate(p.proposal, forward)).field, modulus) > 0.0
    ensures var s := Merge(p.samples, Evaluate(p.proposal, forward));
      Advance(p, rtol, forward, interp, modulus) ==
      Some(Pass(s, NewLogFreq(s.lfreq, ErrorVector(s.lfreq, s.field, interp, modulus), rtol)))
  {
  }

  /** Unfolding one more pass of the trace. */
  lemma TraceNext(seed: seq<real>, k: nat, p: Pass, rtol: real, forward: real -> Complex,
                  interp: Interpolator, modulus: Complex -> real)
    requires Trace(seed, k, rtol, forward, interp, modulus) == Some(p)
    ensures Aligned(p.samples)
    ensures Trace(seed, k + 1, rtol, forward, interp, modulus) == Advance(p, rtol, forward, interp, modulus)
  {
  }

  /** The loop's pass from state k: the trace reaches the merged samples and the rule's proposal. */
  lemma TraceStep(seed: seq<real>, k: nat, next: nat, before: Pass, merged: Samples, proposal: seq<real>,
                  rtol: real, forward: real -> Complex, interp: Interpolator, modulus: Complex -> real)
    requires next == k + 1
    requires Trace(seed, k, rtol, forward, interp, modulus) == Some(before)
    requires merged == Merge(before.samples, Evaluate(before.proposal, forward))
    requires |merged.lfreq| >= 2 && MaxModulus(merged.field, modulus) > 0.0
    requires proposal == NewLogFreq(merged.lfreq, ErrorVector(merged.lfreq, merged.field, interp, modulus), rtol)
    ensures Trace(seed, next, rtol, forward, interp, modulus) == Some(Pass(merged, proposal))
  {
    TraceNext(seed, k, before, rtol, forward, interp, modulus);
    AdvanceSome(before, rtol, forward, interp, modulus);
  }

  /** The sample set after a refinement step, and what it keeps. */
  ghost predicate Refined(seed: seq<real>, samples: Samples, steps: nat, distinct: nat,
                          newL: seq<real>, spectrum: seq<Complex>, reqL: seq<real>, rtol: real,
                          interp: Interpolator, modulus: Complex -> real)
  {
    && (forall x :: x in seed ==> x in samples.lfreq)
    && 2 <= distinct <= |samples.lfreq| == distinct + steps - 1
    && |samples.field| == |samples.lfreq|
    && MaxModulus(samples.field, modulus) > 0.0
    && newL == NewLogFreq(samples.lfreq, ErrorVector(samples.lfreq, samples.field, interp, modulus), rtol)
    && spectrum == Reconstruct(samples.lfreq, samples.field, reqL, interp)
  }

  /**
   * What the loop guarantees from a non-empty seed: it fails only when the
   * seed has a single distinct frequency; otherwise the samples are ascending,
   * computed by the forward model, contain the seed and grow by exactly one per
   * refinement; running out of fuel leaves a proposal pending; convergence
   * means every leave-one-out error is within rtol, and the spectrum is the
   * reconstruction from the final samples.
   */
  ghost predicate LoopOutcome(seed: seq<real>, out: Outcome, reqL: seq<real>, rtol: real, fuel: nat,
                              forward: real -> Complex, interp: Interpolator, modulus: Complex -> real)
  {
    && (out.Failed? ==> out.reason == SingleSample)
    && (out.Failed? <==> fuel > 0 && |UniqueValues(seed)| == 1)
    && ((out.Converged? || out.OutOfFuel?) ==>
          && out.steps <= fuel
          && ComputedBy(out.samples, forward)
          && StrictlyIncreasing(out.samples.lfreq)
          && (out.steps > 0 ==>
                && (forall x :: x in seed ==> x in out.samples.lfreq)
                && |out.samples.lfreq| == |UniqueValues(seed)| + out.steps - 1))
    && (out.Failed? ==> Trace(seed, 1, rtol, forward, interp, modulus).None?)
    && (out.Converged? ==> Trace(seed, out.steps, rtol, forward, interp, modulus) == Some(Pass(out.samples, [])))
    && (out.OutOfFuel? ==>
          && out.steps == fuel && |out.pending| > 0
          && Trace(seed, out.steps, rtol, forward, interp, modulus) == Some(Pass(out.samples, out.pending))
          && (out.steps == 0 ==> out.samples == NoSamples && out.pending == seed)
          && (out.steps > 0 ==>
                && 2 <= |out.samples.lfreq| == |out.samples.field|
                && MaxModulus(out.samples.field, modulus) > 0.0
                && out.pending ==
                   NewLogFreq(out.samples.lfreq, ErrorVector(out.samples.lfreq, out.samples.field, interp, modulus), rtol)))
    && (out.Converged? ==>
          && out.steps > 0
          && 2 <= |out.samples.lfreq| == |out.samples.field|
          && MaxModulus(out.samples.field, modulus) > 0.0
          && (forall i :: 0 <= i < |out.samples.lfreq| ==>
                ErrorVector(out.samples.lfreq, out.samples.field, interp, modulus)[i] <= rtol)
          && out.spectrum == Reconstruct(out.samples.lfreq, out.samples.field, reqL, interp))
  }

  /** A loop that stops with no proposal has converged. */
  lemma ConvergedOutcome(seed: seq<real>, samples: Samples, steps: nat, distinct: nat, spectrum: seq<Complex>,
                         reqL: seq<real>, rtol: real, fuel: nat,
                         forward: real -> Complex, interp: Interpolator, modulus: Complex -> real)
    requires distinct == |UniqueValues(seed)| && 0 < steps <= fuel
    requires ComputedBy(samples, forward) && StrictlyIncreasing(samples.lfreq)
    requires Refined(seed, samples, steps, distinct, [], spectrum, reqL, rtol, interp, modulus)
    requires Trace(seed, steps, rtol, forward, interp, modulus) == Some(Pass(samples, []))
    ensures LoopOutcome(seed, Converged(samples, spectrum, steps), reqL, rtol, fuel, forward, interp, modulus)
  {
    NewLogFreqHalts(samples.lfreq, ErrorVector(samples.lfreq, samples.field, interp, modulus), rtol);
  }

  /** A loop that stops with a proposal pending has run out of fuel. */
  lemma FuelOutcome(seed: seq<real>, samples: Samples, steps: nat, distinct: nat, newL: seq<real>,
                    spectrum: seq<Complex>, reqL: seq<real>, rtol: real, fuel: nat,
                    forward: real -> Complex, interp: Interpolator, modulus: Complex -> real)
    requires distinct == |UniqueValues(seed)| >= 1 && steps == fuel && |newL| > 0
    requires ComputedBy(samples, forward) && StrictlyIncreasing(samples.lfreq)
    requires steps == 0 ==> samples == NoSamples
    requires steps > 0 ==> Refined(seed, samples, steps, distinct, newL, spectrum, reqL, rtol, interp, modulus)
    requires Trace(seed, steps, rtol, forward, interp, modulus) == Some(Pass(samples, newL))
    ensures LoopOutcome(seed, OutOfFuel(samples, newL, steps), reqL, rtol, fuel, forward, interp, modulus)
  {
    if steps > 0 {
      assert distinct >= 2;
    }
  }

  /** The first merge leaves a single sample exactly when the seed has one distinct value. */
  lemma SingleOutcome(seed: seq<real>, reqL: seq<real>, rtol: real, fuel: nat,
                      forward: real -> Complex, interp: Interpolator, modulus: Complex -> real)
    requires |UniqueValues(seed)| == 1 && fuel > 0
    ensures LoopOutcome(seed, Failed(SingleSample), reqL, rtol, fuel, forward, interp, modulus)
  {
    FirstMerge(seed, forward);
    TraceNext(seed, 0, Pass(NoSamples, seed), rtol, forward, interp, modulus);
  }

  /** The loop's state after `steps` passes from the seed. */
  ghost predicate Running(seed: seq<real>, samples: Samples, newL: seq<real>, spectrum: seq<Complex>, steps: nat,
                          reqL: seq<real>, rtol: real, forward: real -> Complex, interp: Interpolator,
                          modulus: Complex -> real)
  {
    && ComputedBy(samples, forward) && StrictlyIncreasing(samples.lfreq)
    && (steps == 0 ==> samples == NoSamples && newL == seed)
    && (steps > 0 ==> Refined(seed, samples, steps, |UniqueValues(seed)|, newL, spectrum, reqL, rtol, interp, modulus))
    && Trace(seed, steps, rtol, forward, interp, modulus) == Some(Pass(samples, newL))
  }

  /** Leaving the loop: no proposal means convergence, a pending one means the fuel ran out. */
  lemma LoopExit(seed: seq<real>, samples: Samples, newL: seq<real>, spectrum: seq<Complex>, steps: nat,
                 reqL: seq<real>, rtol: real, fuel: nat,
                 forward: real -> Complex, interp: Interpolator, modulus: Complex -> real)
    requires |UniqueValues(seed)| >= 1 && steps <= fuel && !(|newL| > 0 && steps < fuel)
    requires Running(seed, samples, newL, spectrum, steps, reqL, rtol, forward, interp, modulus)
    ensures LoopOutcome(seed, if |newL| == 0 then Converged(samples, spectrum, steps) else OutOfFuel(samples, newL, steps),
                        reqL, rtol, fuel, forward, interp, modulus)
  {
    var distinct := |UniqueValues(seed)|;
    if |newL| == 0 {
      ConvergedOutcome(seed, samples, steps, distinct, spectrum, reqL, rtol, fuel, forward, interp, modulus);
    } else {
      FuelOutcome(seed, samples, steps, distinct, newL, spectrum, reqL, rtol, fuel, forward, interp, modulus);
    }
  }

  /**
   * One pass of the loop body from the state after `steps` passes: evaluate
   * and merge the proposal; unless a single sample is left, ask the rule for
   * the next proposal and rebuild the spectrum.
   */
  method RefinePass(seed: seq<real>, samples: Samples, newL: seq<real>, steps: nat, ghost spectrum: seq<Complex>,
                    reqL: seq<real>, rtol: real, forward: real -> Complex, interp: Interpolator,
                    modulus: Complex -> real)
    returns (merged: Samples, proposal: seq<real>, rebuilt: seq<Complex>, next: nat)
    requires IsModulus(modulus) && exists j :: 0 <= j < |seed| && forward(seed[j]) != Zero
    requires |newL| > 0
    requires Running(seed, samples, newL, spectrum, steps, reqL, rtol, forward, interp, modulus)
    ensures merged == Merge(samples, Evaluate(newL, forward))
    ensures |merged.lfreq| < 2 ==> steps == 0 && |UniqueValues(seed)| == 1
    ensures next == steps + 1
    ensures |merged.lfreq| >= 2 ==> Running(seed, merged, proposal, rebuilt, next, reqL, rtol, forward, interp, modulus)
  {
    next := steps + 1;
    if steps == 0 {
      FirstMerge(seed, forward);
    } else {
      NextMerge(samples, newL, rtol, forward, interp, modulus);
    }
    merged := Merge(samples, Evaluate(newL, forward));
    if |merged.lfreq| < 2 {
      return merged, [], [], next;
    }
    SignalPersists(seed, merged, forward, modulus);
    var ev := GetNewFreq(merged.lfreq, merged.field, rtol, Some(reqL), interp, modulus);
    TraceStep(seed, steps, next, Pass(samples, newL), merged, ev.newLfreq, rtol, forward, interp, modulus);
    proposal := ev.newLfreq;
    rebuilt := Reconstruct(merged.lfreq, merged.field, reqL, interp);
  }

  /**
   * The `while` loop from the seed, for at most fuel steps; `single` reports
   * the ramp's failure on a single merged sample.
   */
  method Iterate(seed: seq<real>, reqL: seq<real>, rtol: real, fuel: nat,
                 forward: real -> Complex, interp: Interpolator, modulus: Complex -> real)
    returns (samples: Samples, newL: seq<real>, spectrum: seq<Complex>, steps: nat, single: bool)
    requires IsModulus(modulus)
    requires exists j :: 0 <= j < |seed| && forward(seed[j]) != Zero
    ensures single ==> fuel > 0 && |UniqueValues(seed)| == 1
    ensures !single ==> steps <= fuel && !(|newL| > 0 && steps < fuel)
    ensures !single ==> Running(seed, samples, newL, spectrum, steps, reqL, rtol, forward, interp, modulus)
  {
    samples, newL, spectrum, steps, single := NoSamples, seed, [], 0, false;
    while |newL| > 0 && steps < fuel
      invariant steps <= fuel
      invariant Running(seed, samples, newL, spectrum, steps, reqL, rtol, forward, interp, modulus)
    {
      var merged, proposal, rebuilt, next := RefinePass(seed, samples, newL, steps, spectrum, reqL, rtol, forward, interp, modulus);
      if |merged.lfreq| < 2 {
        return samples, newL, spectrum, steps, true;
      }
      samples, newL, spectrum, steps := merged, proposal, rebuilt, next;
    }
  }

  /** The loop followed by the classification of how it ended. */
  method RunLoop(seed: seq<real>, reqL: seq<real>, rtol: real, fuel: nat,
                 forward: real -> Complex, interp: Interpolator, modulus: Complex -> real)
    returns (out: Outcome)
    requires |seed| > 0 && IsModulus(modulus)
    requires exists j :: 0 <= j < |seed| && forward(seed[j]) != Zero
    ensures LoopOutcome(seed, out, reqL, rtol, fuel, forward, interp, modulus)
  {
    var samples, newL, spectrum, steps, single := Iterate(seed, reqL, rtol, fuel, forward, interp, modulus);
    if single {
      SingleOutcome(seed, reqL, rtol, fuel, forward, interp, modulus);
      return Failed(SingleSample);
    }
    UniqueSpec(seed);
    assert seed[0] in UniqueValues(seed);
    out := if |newL| == 0 then Converged(samples, spectrum, steps) else OutOfFuel(samples, newL, steps);
    LoopExit(seed, samples, newL, spectrum, steps, reqL, rtol, fuel, forward, interp, modulus);
  }

  /** `design_freq_range` without plots and without the time-domain transform. */
  method DesignFreqRange(range: FreqRange, reqL: seq<real>, peaks: seq<nat>, rtol: real, fuel: nat,
                         forward: real -> Complex, interp: Interpolator, modulus: Complex -> real)
    returns (out: Outcome)
    requires forall j :: 0 <= j < |peaks| ==> peaks[j] < |reqL|
    requires IsModulus(modulus)
    requires SeedHasSignal(InitialLogFreqs(range, reqL, peaks), forward)
    ensures out == Failed(NoPeakSelected) <==> InitialLogFreqs(range, reqL, peaks).None?
    ensures out == Failed(EmptySeed) <==> InitialLogFreqs(range, reqL, peaks) == Some([])
    ensures InitialLogFreqs(range, reqL, peaks).Some? && |InitialLogFreqs(range, reqL, peaks).value| > 0 ==>
      LoopOutcome(InitialLogFreqs(range, reqL, peaks).value, out, reqL, rtol, fuel, forward, interp, modulus)
  {
    var seed := InitialLogFreqs(range, reqL, peaks);
    if seed.None? {
      return Failed(NoPeakSelected);
    }
    if |seed.value| == 0 {
      return Failed(EmptySeed);
    }
    out := RunLoop(seed.value, reqL, rtol, fuel, forward, interp, modulus);
  }
}
