# Adaptive frequency selection, modelled in Dafny

This project models the adaptive frequency-selection routines of `freqselect.py`.
They choose the frequencies at which an electromagnetic forward model must be
evaluated, so that a frequency-domain response can be interpolated accurately
before a Fourier transform to the time domain. Everything is stated over
log10-frequencies as Dafny `real`s.

- **Stability test (`get_new_freq`).** Each sample is left out in turn. The
  imaginary field at that sample is interpolated through the other samples and
  through zero-field anchors at 1e-100 Hz, 1e100 Hz and, while every frequency
  is below 1e4 Hz, at 1e4 Hz. In log10 these anchors are -100, 100 and 4. The
  deviation is divided by the largest field magnitude. Every index whose result
  exceeds `rtol` fails.
- **Refinement rule.** When the first sample fails, the new frequency is half a
  decade below it. Otherwise, when only the last sample fails, it is half a
  decade above it. Otherwise it is the log-midpoint between the first failing
  sample and its right neighbour. When nothing fails, no frequency is proposed.
- **Driver loop (`design_freq_range`).**
  - The seed comes from a logspace range, an explicit array, or a number of
    peaks. The loop evaluates the proposed frequencies and merges them into the
    sorted sample set with `np.unique`, which keeps the existing sample when a
    frequency is already there.
  - It then refines and rebuilds the spectrum at the required frequencies. The
    rebuild adds a three-point ramp beyond the last sample. The imaginary part
    is anchored at both ends; the real part only above.

Three things are parameters of the model:

- the interpolator (`Interpolator`, PCHIP in the source);
- the forward solver (`forward: real -> Complex`);
- the complex magnitude `modulus`. `IsModulus` bounds it between
  max(|re|, |im|) and |re| + |im|, as the Euclidean magnitude is. It is
  positive exactly at non-zero values.

Module layout, one file each: `Numerics` (max, diff, removal, linspace),
`Fields` (complex values and the normaliser), `Unique` (`np.unique` with
first-occurrence indices), `SampleSet` (merge), `ErrorEstimator` (control sets,
leave-one-out loop, error vector, failing indices), `Refiner` (rule and
`get_new_freq`), `Reconstruction` (ramp and spectrum), `Seed` (initial
frequencies) and `AdaptiveLoop` (the pass function `Advance`, its iterate `Trace`, and the `while` loop as the methods `RefinePass`, `Iterate` and `RunLoop`).

The seed code carries the comment "Add midpoints". The code it comments adds
`lfreq[:-1] + np.diff(lfreq)`, which is `lfreq[1:]`: the next peaks, which are
already in the seed. The seed is therefore the selected peaks plus one point a
peak spacing below the first. The model follows the code
(`Seed.AddedPointsAreNextPeaks`, `Seed.PeakSeedShape`).

## Model

| member | source | states |
|---|---|---|
| Numerics.Max | freqselect.py:576 | `max` of a non-empty array is one of its entries and is at least every entry |
| Numerics.Diff | freqselect.py:606 | `np.diff` has one entry fewer, and each sample plus its difference is the next sample |
| Numerics.RemoveAt | freqselect.py:577 | `freq[np.arange(freq.size) != i]` has length n-1, keeps entries before i and shifts those after it down by one |
| Numerics.RemoveAtIncreasing | freqselect.py:577 | leaving one sample out of an ascending array keeps it ascending |
| Numerics.Linspace | freqselect.py:663 | the logspace exponent grid has num points, starting at start and, for num >= 2, ending at stop |
| Numerics.LinspaceIncreasing | freqselect.py:663 | for start < stop the grid is strictly ascending |
| Numerics.LinspaceStep | freqselect.py:663 | consecutive grid points are (stop-start)/(num-1) apart |
| Fields.MaxModulus | freqselect.py:597 | `max(np.abs(field))` is the magnitude of some field value and bounds all of them |
| Fields.ModulusZero | freqselect.py:597 | a magnitude is non-negative and is positive exactly for a non-zero value |
| Fields.MaxModulusPositive | freqselect.py:597 | the normaliser is positive exactly when some field value is non-zero |
| Fields.ImagWithinMaxModulus | freqselect.py:597 | every imaginary part is bounded in absolute value by the normaliser |
| Unique.UniqueIndices | freqselect.py:760 | every `ui` index is in bounds of the input |
| Unique.UniqueValues | freqselect.py:760 | the unique values are the inputs at the kept indices, in order; what they contain is `Unique.UniqueSpec` |
| Unique.UniqueSpec | freqselect.py:760 | `np.unique(xs, return_index=True)`: values strictly ascending, exactly the elements of xs, each with the index of its first occurrence |
| Unique.UniqueUpToIncreasing | freqselect.py:760 | on an ascending duplicate-free prefix every index is kept, in order |
| Unique.UniqueUpToGrowth | freqselect.py:760 | k more inputs add between 0 and k distinct values |
| SampleSet.Evaluate | freqselect.py:757 | the new samples are the forward model at each proposed frequency |
| SampleSet.Merge | freqselect.py:760-761 | `np.unique` over old ++ new with `fEM[ui]` keeps frequencies and fields aligned; its contents are `SampleSet.MergeUnion` and `SampleSet.MergeFirstOccurrence` |
| SampleSet.MergeUnion | freqselect.py:760-761 | the merged frequencies are strictly ascending and are the union of old and new |
| SampleSet.MergeFirstOccurrence | freqselect.py:760-761 | each merged field value is the one at the first occurrence of its frequency in old ++ new |
| SampleSet.MergeKeepsExisting | freqselect.py:760-761 | on a duplicate frequency the existing sample's field is kept, not the new one |
| SampleSet.MergeComputedBy | freqselect.py:757-761 | merging two sets computed by the forward model gives a set computed by it |
| SampleSet.MergeSize | freqselect.py:760-761 | the merge never shrinks a duplicate-free set and grows it by at most the number of new frequencies |
| SampleSet.MergeFresh | freqselect.py:760-761 | one frequency not yet sampled grows the set by exactly one |
| ErrorEstimator.MidAnchorCondition | freqselect.py:576 | `NeedsMidAnchor`: the 1e4 Hz anchor is used exactly when every sample is below it |
| ErrorEstimator.LooFreqs | freqselect.py:577-580 | the leave-one-out control frequencies number n+2 with the 1e4 Hz anchor and n+1 without; their order and contents are `ErrorEstimator.LooFreqsShape` |
| ErrorEstimator.LooValues | freqselect.py:578-581 | the aligned control values have as many entries as `LooFreqs`; their contents are `ErrorEstimator.LooValuesShape` |
| ErrorEstimator.LooField | freqselect.py:584 | `i_field` has one entry per sample and each is purely imaginary (`1j*pchip(...)`); each entry's value is `ErrorEstimator.LeaveOneOut` |
| ErrorEstimator.Errors | freqselect.py:597 | one error per estimate, each non-negative; its meaning is `ErrorEstimator.ErrorMeaning` |
| ErrorEstimator.FullFreqs | freqselect.py:587-590 | the control frequencies with every sample number n+3 with the 1e4 Hz anchor and n+2 without |
| ErrorEstimator.FullValues | freqselect.py:589-593 | the aligned values have as many entries as `FullFreqs` |
| ErrorEstimator.AnchoredIncreasing | freqselect.py:576-581 | the anchored control frequencies ascend when the samples ascend between the outer anchors (and below the middle one when it is used) |
| ErrorEstimator.LooFreqsShape | freqselect.py:576-580 | the leave-one-out control frequencies are the low anchor, the other samples in order, the 1e4 Hz anchor when used, then the high anchor; n+2 or n+1 entries |
| ErrorEstimator.LooValuesShape | freqselect.py:578-581 | the aligned values are zero at every anchor and the imaginary field of each other sample elsewhere |
| ErrorEstimator.LooIncreasing | freqselect.py:576-580 | for ascending samples strictly inside (1e-100, 1e100) Hz each leave-one-out control set is strictly ascending |
| ErrorEstimator.LeaveOneOut | freqselect.py:569-584 | the loop fills `i_field` so that entry i is `1j` times the interpolation at sample i through the control set without i |
| ErrorEstimator.ErrorMeaning | freqselect.py:597 | an error entry is non-negative, exceeds rtol exactly when the deviation exceeds rtol times the normaliser, and is zero exactly when the estimate is exact |
| ErrorEstimator.ErrorVector | freqselect.py:597 | one error per real sample; the anchors are never scored |
| ErrorEstimator.ZeroEstimateError | freqselect.py:597 | an estimate of zero scores at most 1, because the complex magnitude bounds the imaginary part |
| ErrorEstimator.FailingFromSpec | freqselect.py:600 | the failing list from index i holds exactly the failing indices at or after i, ascending |
| ErrorEstimator.Failing | freqselect.py:600 | `ierr` lists exactly the indices whose error exceeds rtol, each once, in ascending order |
| ErrorEstimator.PassingPrefix | freqselect.py:600 | indices that pass contribute nothing to `ierr` |
| ErrorEstimator.FirstFailing | freqselect.py:600 | `ierr[0]` fails and every earlier index passes |
| ErrorEstimator.ExactEstimatesPass | freqselect.py:584-600 | if every left-out sample is recovered exactly, nothing fails for rtol >= 0 |
| ErrorEstimator.FullField | freqselect.py:587-594 | `i_field2` has one value per required frequency |
| ErrorEstimator.FullFieldAtSample | freqselect.py:587-594 | at a required frequency that is a sample, an interpolating `i_field2` is `1j` times that sample's imaginary field |
| Refiner.FirstFailingInterior | freqselect.py:615-617 | in the bisection branch the first failing index k has 0 < k < n-1, so `diff[k]` exists |
| Refiner.NewLogFreq | freqselect.py:600-620 | the rule proposes at most one frequency |
| Refiner.NewLogFreqHalts | freqselect.py:600-602 | nothing is proposed exactly when no error exceeds rtol; otherwise exactly one frequency |
| Refiner.LowEndPriority | freqselect.py:609-611 | a failing first sample gives `lfreq[0] - 0.5`, whatever else fails |
| Refiner.SoleLastExtension | freqselect.py:612-614 | when only the last sample fails, the proposal is `lfreq[n-1] + 0.5` |
| Refiner.InteriorBisection | freqselect.py:615-617 | with the first sample passing and a first failure k before the last, k > 0 and the proposal is `lfreq[k] + (lfreq[k+1]-lfreq[k])/2` |
| Refiner.NewFrequencyIsFresh | freqselect.py:605-617 | for ascending samples the proposal is never an existing sample: below the first, above the last, or strictly between two neighbours |
| Refiner.GetNewFreq | freqselect.py:568-629 | returns the leave-one-out field, the error vector, the failing indices, the proposal and, when required frequencies are given, `i_field2`, each as its defining function |
| Reconstruction.RampSpacing | freqselect.py:774-776 | the three ramp frequencies continue the spacing of the last two samples and lie above them, so samples plus ramp ascend |
| Reconstruction.RampFieldLinear | freqselect.py:777 | the ramp field falls from the last value to zero in equal steps of a quarter of it |
| Reconstruction.RampLfreqs | freqselect.py:775-776 | three ramp frequencies; their spacing is `Reconstruction.RampSpacing` |
| Reconstruction.RampField | freqselect.py:777 | three ramp values; their values are `Reconstruction.RampFieldLinear` |
| Reconstruction.ImagControlFreqs | freqselect.py:780 | the imaginary control frequencies number n+5; contents in `Reconstruction.ControlSetsShape` |
| Reconstruction.ImagControlValues | freqselect.py:781 | the imaginary control values number n+5, aligned with `ImagControlFreqs` |
| Reconstruction.RealControlFreqs | freqselect.py:785 | the real control frequencies number n+4; contents in `Reconstruction.ControlSetsShape` |
| Reconstruction.RealControlValues | freqselect.py:786 | the real control values number n+4, aligned with `RealControlFreqs` |
| Reconstruction.ControlSetsShape | freqselect.py:779-787 | imaginary control set n+5 points from the low anchor with zero; real control set n+4 points from the first sample; both end at the high anchor with zero and carry the samples' parts |
| Reconstruction.ControlSetsIncreasing | freqselect.py:779-787 | with samples above the low anchor and the ramp below the high anchor both control sets strictly ascend |
| Reconstruction.Reconstruct | freqselect.py:779-790 | `sfEM` has one value per required frequency |
| Reconstruction.ReconstructAtSample | freqselect.py:779-790 | at a required frequency that was sampled, an interpolating reconstruction returns exactly the computed field |
| Seed.SliceEnd | freqselect.py:669 | the end of Python's `p[:count]` lies within the array; a non-negative count keeps `count` entries, or all of them when there are fewer; a negative count drops `-count` entries, or all of them when there are fewer |
| Seed.SliceEndUnique | freqselect.py:669 | those slice properties determine the end uniquely, so `SliceEnd` is Python's slice and nothing else |
| Seed.PeakCandidates | freqselect.py:672-673 | the candidates before `np.unique` start with the selected peaks; 2n values for n >= 2 peaks, one for a single peak |
| Seed.InitialLogFreqs | freqselect.py:662-673 | only the peak-count form can fail, and a peak seed, when it exists, is non-empty |
| Seed.LogRangeSeed | freqselect.py:662-663 | an increasing logspace seed has num points from start to stop, evenly spaced and strictly ascending |
| Seed.AddedPointsAreNextPeaks | freqselect.py:672 | `lfreq[:-1] + np.diff(lfreq)` equals `lfreq[1:]` |
| Seed.PeakSelectionIncreasing | freqselect.py:667-669 | peaks picked in ascending index order from ascending required frequencies ascend |
| Seed.PeakSeedShape | freqselect.py:670-673 | from ascending peaks the seed is the peaks plus one point a spacing below the first; a single peak stays alone |
| Seed.PeakSeedEmpty | freqselect.py:669-673 | the peak seed fails (IndexError) exactly when the slice selects no peak |
| AdaptiveLoop.SignalPersists | freqselect.py:754-764 | once a seed frequency with non-zero field is sampled, the normaliser stays positive |
| AdaptiveLoop.FirstMerge | freqselect.py:750-761 | the first merge yields the distinct seed frequencies, ascending, computed by the forward model |
| AdaptiveLoop.NextMerge | freqselect.py:754-765 | every later merge keeps all samples and adds exactly one new one |
| AdaptiveLoop.Advance | freqselect.py:754-764 | one pass keeps the merged samples aligned with at least two of them; what it computes is `AdaptiveLoop.AdvanceSome` and `AdaptiveLoop.AdvanceInvariant` |
| AdaptiveLoop.AdvanceSome | freqselect.py:754-764 | a pass whose merge gives two or more samples with a positive normaliser yields that merge and the refinement rule's proposal on it |
| AdaptiveLoop.AdvanceInvariant | freqselect.py:754-764 | a pass from ascending samples yields ascending samples and at most one proposal, never an existing sample |
| AdaptiveLoop.Trace | freqselect.py:750-765 | the state after k passes from the seed keeps samples and fields aligned |
| AdaptiveLoop.TraceInvariant | freqselect.py:754-765 | after every pass the samples ascend and the proposal is at most one fresh frequency |
| AdaptiveLoop.TraceStep | freqselect.py:754-764 | from the state after k passes, the merge and the rule's next proposal are the state after k+1 passes |
| AdaptiveLoop.ConvergedOutcome | freqselect.py:754-765 | a loop ending with no proposal has every leave-one-out error within rtol |
| AdaptiveLoop.FuelOutcome | freqselect.py:754-765 | a loop cut off by fuel has a proposal pending; samples and proposal are the trace after `fuel` passes, and after at least one pass the proposal is the refinement rule on the final samples |
| AdaptiveLoop.LoopExit | freqselect.py:754-765 | leaving the loop with no proposal is convergence; leaving it with a proposal pending, once all fuel is spent, is `OutOfFuel` |
| AdaptiveLoop.RefinePass | freqselect.py:754-790 | one loop body: the merge of the evaluated proposal; with one sample only on the first pass of a single-valued seed; otherwise the new samples, proposal and spectrum are the trace one pass further |
| AdaptiveLoop.Iterate | freqselect.py:750-790 | the `while` loop stops on a single sample, on no proposal or on spent fuel, with the state equal to the trace after `steps` passes |
| AdaptiveLoop.SingleOutcome | freqselect.py:774-777 | a seed with one distinct frequency fails at the ramp |
| AdaptiveLoop.RunLoop | freqselect.py:750-790 | the loop keeps the sample set ascending and computed by the forward model, contains the seed, adds one sample per refinement, and on convergence leaves no failing index and returns the reconstruction from the final samples; the final samples and any pending proposal are the trace after `steps` passes |
| AdaptiveLoop.DesignFreqRange | freqselect.py:662-790 | no selected peak, an empty seed, and a single distinct seed frequency are the three failures; otherwise the loop outcome holds for the seed |

## Left out

- The `InteractiveFrequency` widget class, all figure and axes code, plotting and pauses: user interface only.
- The time-domain transform (`empymod.model.tem`) and the reference fields: `design_freq_range` returns the frequency-domain spectrum; the transform is a foreign call.
- `empymod.dipole`, `check_time`, `check_model`, `check_frequency`: the forward model is the parameter `forward`, applied pointwise; the required log-frequencies are an input.
- `find_peaks`: the peak indices are an input (`peaks`), assumed to index the required frequencies.
- `si.pchip_interpolate`: an opaque `Interpolator` over log10-frequencies, standing for PCHIP applied to the frequencies in Hz (`10**`), as the source calls it; only `Interpolates` (it passes through its control points) is assumed where a lemma needs it. PCHIP's rejection of non-ascending control points is not modelled.
- The exact complex magnitude: `modulus` is any function within the magnitude bounds of `IsModulus`. A square root over `real` is not available.
- `10**`, `np.log10` and IEEE rounding: everything is in log10 over exact reals.
- The re-permutation `req_freq = req_freq[ri]`, `sfEM = sfEM[ri]` (lines 793-795). The model keeps the required frequencies fixed, as if `ri` were `None`. The source applies it at the end of every pass, so from the second pass on `get_new_freq` and both interpolations see the re-permuted `req_freq`. After k passes the array is `x[ri]` applied k times, which need not be a permutation of `x` when values repeat (`ri` built for `[1, 1, 2]` maps it to `[1, 1, 1]`). The model's spectrum therefore agrees with the source's `sfEM` only on the first pass, or when `ri` is `None`.
- `AdaptiveLoop.Advance` and `AdaptiveLoop.Trace` return `None` where the model stops: a single merged sample (the source raises at the ramp) or a zero normaliser (the source divides by zero).
- The unbounded `while`: `fuel` bounds the iterations, and running out is the `OutOfFuel` outcome.
- A zero normaliser: `Refiner.GetNewFreq` requires `max(np.abs(field)) > 0`, and `AdaptiveLoop.DesignFreqRange` requires a seed frequency with non-zero field. In the source, numpy divides by zero and gets `nan` errors instead of raising.
- The single-sample failure is modelled at the merge. The source still runs `get_new_freq` on one sample before the ramp raises; the outcome, an exception, is the same.
- The two-element tuple form of `freq_range` (logspace's default of 50 points): `LogRange` carries the count explicitly.
- `full_output=False`: `Refiner.GetNewFreq` always returns the full tuple, and `new_freq` is its first field.
- ErrorEstimator.FullField: states only its length. Its agreement with the samples is `ErrorEstimator.FullFieldAtSample`, which needs an interpolating `Interpolator`.
- Reconstruction.Reconstruct: states only its length. Its agreement with the samples is `Reconstruction.ReconstructAtSample`, under the same assumption.
