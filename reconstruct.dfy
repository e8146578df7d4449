/**
 * The frequency-domain reconstruction at the required frequencies that
 * `design_freq_range` builds after every step: a three-point ramp beyond the
 * last sample, then separate interpolations of the imaginary part (anchored at
 * both ends) and the real part (anchored only at the high end).
 */
module Reconstruction {
  import opened Numerics
  import opened Fields
  import opened ErrorEstimator

  /** `freq_ramp`: three more log-frequencies, continuing the last spacing. */
  function RampLfreqs(lfreq: seq<real>): (r: seq<real>)
    requires |lfreq| >= 2
    ensures |r| == 3
  {
    var last := lfreq[|lfreq| - 1];
    var step := last - lfreq[|lfreq| - 2];
    [last + 1.0 * step, last + 2.0 * step, last + 3.0 * step]
  }

  /** `fEM_ramp`: the last field value scaled by 0.75, 0.5 and 0.25. */
  function RampField(field: seq<Complex>): (r: seq<Complex>)
    requires |field| >= 1
    ensures |r| == 3
  {
    var last := field[|field| - 1];
    [ScaleBy(0.75, last), ScaleBy(0.5, last), ScaleBy(0.25, last)]
  }

  /** The ramp is equally spaced with the last sample spacing, and lies above the samples. */
  lemma RampSpacing(lfreq: seq<real>)
    requires |lfreq| >= 2 && StrictlyIncreasing(lfreq)
    ensures var n := |lfreq|; var step := lfreq[n - 1] - lfreq[n - 2];
      && RampLfreqs(lfreq)[0] - lfreq[n - 1] == step
      && RampLfreqs(lfreq)[1] - RampLfreqs(lfreq)[0] == step
      && RampLfreqs(lfreq)[2] - RampLfreqs(lfreq)[1] == step
    ensures StrictlyIncreasing(lfreq + RampLfreqs(lfreq))
  {
    var n := |lfreq|;
    var s := lfreq + RampLfreqs(lfreq);
    forall a, b | 0 <= a < b < |s| ensures s[a] < s[b] {
      if b >= n && a < n {
        assert s[a] <= lfreq[n - 1];
      }
    }
  }

  /**
   * The ramp field falls linearly to zero: equal decrements of a quarter of the
   * last value, the fourth step landing on zero.
   */
  lemma RampFieldLinear(field: seq<Complex>)
    requires |field| >= 1
    ensures var last := field[|field| - 1]; var r := RampField(field);
      var quarter := ScaleBy(0.25, last);
      && last.re - r[0].re == r[0].re - r[1].re == r[1].re - r[2].re == r[2].re == quarter.re
      && last.im - r[0].im == r[0].im - r[1].im == r[1].im - r[2].im == r[2].im == quarter.im
  {
  }

  /** `itmp_f`: low anchor, samples, ramp, high anchor. */
  function ImagControlFreqs(lfreq: seq<real>): (r: seq<real>)
    requires |lfreq| >= 2
    ensures |r| == |lfreq| + 5
  {
    [LowAnchor] + lfreq + RampLfreqs(lfreq) + [HighAnchor]
  }

  /** `itmp_s`: zero, imaginary field, imaginary ramp, zero. */
  function ImagControlValues(field: seq<Complex>): (r: seq<real>)
    requires |field| >= 1
    ensures |r| == |field| + 5
  {
    [0.0] + Imag(field) + Imag(RampField(field)) + [0.0]
  }

  /** `rtmp_f`: samples, ramp, high anchor; no low anchor. */
  function RealControlFreqs(lfreq: seq<real>): (r: seq<real>)
    requires |lfreq| >= 2
    ensures |r| == |lfreq| + 4
  {
    lfreq + RampLfreqs(lfreq) + [HighAnchor]
  }

  /** `rtmp_s`: real field, real ramp, zero. */
  function RealControlValues(field: seq<Complex>): (r: seq<real>)
    requires |field| >= 1
    ensures |r| == |field| + 4
  {
    Real(field) + Real(RampField(field)) + [0.0]
  }

  /**
   * Both control sets are aligned with their values; the imaginary one starts
   * at the low anchor with zero, the real one at the first sample with its real
   * part, and both end at the high anchor with zero.
   */
  lemma ControlSetsShape(lfreq: seq<real>, field: seq<Complex>)
    requires 2 <= |lfreq| == |field|
    ensures |ImagControlFreqs(lfreq)| == |ImagControlValues(field)| == |lfreq| + 5
    ensures |RealControlFreqs(lfreq)| == |RealControlValues(field)| == |lfreq| + 4
    ensures ImagControlFreqs(lfreq)[0] == LowAnchor && ImagControlValues(field)[0] == 0.0
    ensures RealControlFreqs(lfreq)[0] == lfreq[0] && RealControlValues(field)[0] == field[0].re
    ensures forall j :: 0 <= j < |lfreq| ==>
      ImagControlFreqs(lfreq)[j + 1] == lfreq[j] && ImagControlValues(field)[j + 1] == field[j].im &&
      RealControlFreqs(lfreq)[j] == lfreq[j] && RealControlValues(field)[j] == field[j].re
    ensures ImagControlFreqs(lfreq)[|lfreq| + 4] == HighAnchor && ImagControlValues(field)[|lfreq| + 4] == 0.0
    ensures RealControlFreqs(lfreq)[|lfreq| + 3] == HighAnchor && RealControlValues(field)[|lfreq| + 3] == 0.0
  {
  }

  /** With samples and ramp inside the outer anchors, both control sets are strictly increasing. */
  lemma ControlSetsIncreasing(lfreq: seq<real>)
    requires |lfreq| >= 2 && StrictlyIncreasing(lfreq)
    requires LowAnchor < lfreq[0] && RampLfreqs(lfreq)[2] < HighAnchor
    ensures StrictlyIncreasing(ImagControlFreqs(lfreq))
    ensures StrictlyIncreasing(RealControlFreqs(lfreq))
  {
    RampSpacing(lfreq);
    var inner := lfreq + RampLfreqs(lfreq);
    assert forall j :: 0 <= j < |inner| ==> inner[0] <= inner[j] <= inner[|inner| - 1];
    assert ImagControlFreqs(lfreq) == [LowAnchor] + inner + [HighAnchor];
    assert RealControlFreqs(lfreq) == inner + [HighAnchor];
  }

  /** `sfEM = rsfEM + 1j*isfEM` at every required log-frequency. */
  function Reconstruct(lfreq: seq<real>, field: seq<Complex>, reqL: seq<real>, interp: Interpolator)
    : (r: seq<Complex>)
    requires 2 <= |lfreq| == |field|
    ensures |r| == |reqL|
  {
    seq(|reqL|, q requires 0 <= q < |reqL| =>
      Complex(interp(RealControlFreqs(lfreq), RealControlValues(field), reqL[q]),
              interp(ImagControlFreqs(lfreq), ImagControlValues(field), reqL[q])))
  }

  /** At a required frequency that was sampled, an interpolating reconstruction returns the sample. */
  lemma ReconstructAtSample(lfreq: seq<real>, field: seq<Complex>, reqL: seq<real>,
                            interp: Interpolator, q: nat, j: nat)
    requires 2 <= |lfreq| == |field| && StrictlyIncreasing(lfreq) && Interpolates(interp)
    requires LowAnchor < lfreq[0] && RampLfreqs(lfreq)[2] < HighAnchor
    requires q < |reqL| && j < |lfreq| && reqL[q] == lfreq[j]
    ensures Reconstruct(lfreq, field, reqL, interp)[q] == field[j]
  {
    ControlSetsIncreasing(lfreq);
    RealAtSample(lfreq, field, interp, j);
    ImagAtSample(lfreq, field, interp, j);
  }

  lemma RealAtSample(lfreq: seq<real>, field: seq<Complex>, interp: Interpolator, j: nat)
    requires 2 <= |lfreq| == |field| && j < |lfreq| && Interpolates(interp)
    requires StrictlyIncreasing(RealControlFreqs(lfreq))
    ensures interp(RealControlFreqs(lfreq), RealControlValues(field), lfreq[j]) == field[j].re
  {
    var xs := RealControlFreqs(lfreq);
    var ys := RealControlValues(field);
    RealControlAt(lfreq, field, j);
    InterpolatesAt(interp, xs, ys, j);
  }

  lemma ImagAtSample(lfreq: seq<real>, field: seq<Complex>, interp: Interpolator, j: nat)
    requires 2 <= |lfreq| == |field| && j < |lfreq| && Interpolates(interp)
    requires StrictlyIncreasing(ImagControlFreqs(lfreq))
    ensures interp(ImagControlFreqs(lfreq), ImagControlValues(field), lfreq[j]) == field[j].im
  {
    var xs := ImagControlFreqs(lfreq);
    var ys := ImagControlValues(field);
    ImagControlAt(lfreq, field, j);
    InterpolatesAt(interp, xs, ys, j + 1);
  }

  lemma RealControlAt(lfreq: seq<real>, field: seq<Complex>, j: nat)
    requires 2 <= |lfreq| == |field| && j < |lfreq|
    ensures |RealControlFreqs(lfreq)| == |RealControlValues(field)|
    ensures RealControlFreqs(lfreq)[j] == lfreq[j] && RealControlValues(field)[j] == field[j].re
  {
  }

  lemma ImagControlAt(lfreq: seq<real>, field: seq<Complex>, j: nat)
    requires 2 <= |lfreq| == |field| && j < |lfreq|
    ensures |ImagControlFreqs(lfreq)| == |ImagControlValues(field)|
    ensures ImagControlFreqs(lfreq)[j + 1] == lfreq[j] && ImagControlValues(field)[j + 1] == field[j].im
  {
  }
}
