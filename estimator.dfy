/**
 * The stability test of `get_new_freq`: each sample is left out in turn, the
 * imaginary field is interpolated at its frequency through the remaining
 * samples and zero-field anchors, and the deviation, normalised by the largest
 * field magnitude, is compared with `rtol`.
 */
module ErrorEstimator {
  import opened Numerics
  import opened Fields

  /**
   * The value at x of an interpolant through the control points (xs[j], ys[j]),
   * given log10-frequencies. The source calls `si.pchip_interpolate` on the
   * frequencies in Hz (`10**xs`, `10**x`); an `Interpolator` stands for that
   * composition, so it need not be PCHIP in the log10 variable.
   */
  type Interpolator = (seq<real>, seq<real>, real) -> real

  /** An interpolant passes through its control points, as PCHIP does. */
  ghost predicate Interpolates(interp: Interpolator) {
    forall xs: seq<real>, ys: seq<real>, j: int ::
      0 <= j < |xs| == |ys| && StrictlyIncreasing(xs) ==> interp(xs, ys, xs[j]) == ys[j]
  }

  lemma InterpolatesAt(interp: Interpolator, xs: seq<real>, ys: seq<real>, j: nat)
    requires Interpolates(interp) && j < |xs| == |ys| && StrictlyIncreasing(xs)
    ensures interp(xs, ys, xs[j]) == ys[j]
  {
  }

  /** The zero-field anchors at 1e-100 Hz, 1e4 Hz and 1e100 Hz, in log10. */
  const LowAnchor: real := -100.0
  const MidAnchor: real := 4.0
  const HighAnchor: real := 100.0

  /** `max(freq) < 1e4`: whether the anchor at 1e4 Hz is used. */
  function NeedsMidAnchor(lfreq: seq<real>): (r: bool)
    requires |lfreq| > 0
  {
    Max(lfreq) < MidAnchor
  }

  /** The anchor at 1e4 Hz is used exactly when every sample lies below it. */
  lemma MidAnchorCondition(lfreq: seq<real>)
    requires |lfreq| > 0
    ensures NeedsMidAnchor(lfreq) <==> forall j :: 0 <= j < |lfreq| ==> lfreq[j] < MidAnchor
  {
  }

  /** Control frequencies: the anchors around xs, with the middle one when asked for. */
  function Anchored(xs: seq<real>, mid: bool): (r: seq<real>)
    ensures |r| == |xs| + (if mid then 3 else 2)
  {
    [LowAnchor] + xs + (if mid then [MidAnchor] else []) + [HighAnchor]
  }

  /** Control values aligned with `Anchored`: zero at every anchor. */
  function ZeroPadded(vs: seq<real>, mid: bool): (r: seq<real>)
    ensures |r| == |vs| + (if mid then 3 else 2)
  {
    [0.0] + vs + (if mid then [0.0] else []) + [0.0]
  }

  /** Where the anchors and the inner entries sit in `Anchored`. */
  lemma AnchoredAt(xs: seq<real>, mid: bool)
    ensures Anchored(xs, mid)[0] == LowAnchor
    ensures forall j :: 0 <= j < |xs| ==> Anchored(xs, mid)[j + 1] == xs[j]
    ensures mid ==> Anchored(xs, mid)[|xs| + 1] == MidAnchor
    ensures Anchored(xs, mid)[|Anchored(xs, mid)| - 1] == HighAnchor
  {
  }

  /** Where the zeros and the inner entries sit in `ZeroPadded`. */
  lemma ZeroPaddedAt(vs: seq<real>, mid: bool)
    ensures ZeroPadded(vs, mid)[0] == 0.0
    ensures forall j :: 0 <= j < |vs| ==> ZeroPadded(vs, mid)[j + 1] == vs[j]
    ensures mid ==> ZeroPadded(vs, mid)[|vs| + 1] == 0.0
    ensures ZeroPadded(vs, mid)[|ZeroPadded(vs, mid)| - 1] == 0.0
  {
  }

  /** The anchored sequence is strictly increasing when xs is and lies between the anchors. */
  lemma AnchoredIncreasing(xs: seq<real>, mid: bool)
    requires StrictlyIncreasing(xs)
    requires forall j :: 0 <= j < |xs| ==> LowAnchor < xs[j] < HighAnchor
    requires mid ==> forall j :: 0 <= j < |xs| ==> xs[j] < MidAnchor
    ensures StrictlyIncreasing(Anchored(xs, mid))
  {
    var r := Anchored(xs, mid);
    var n := |xs|;
    forall a, b | 0 <= a < b < |r| ensures r[a] < r[b] {
      if a == 0 {
        if b <= n { assert r[b] == xs[b - 1]; }
      } else if a <= n {
        assert r[a] == xs[a - 1];
        if b <= n { assert r[b] == xs[b - 1]; }
      }
    }
  }

  /** `tmp_f`: the control frequencies with sample i left out. */
  function LooFreqs(lfreq: seq<real>, i: nat): (r: seq<real>)
    requires i < |lfreq|
    ensures |r| == |lfreq| + (if NeedsMidAnchor(lfreq) then 2 else 1)
  {
    Anchored(RemoveAt(lfreq, i), NeedsMidAnchor(lfreq))
  }

  /** `tmp_s.imag`: the imaginary field aligned with `LooFreqs`. */
  function LooValues(lfreq: seq<real>, field: seq<Complex>, i: nat): (r: seq<real>)
    requires i < |lfreq| == |field|
    ensures |r| == |lfreq| + (if NeedsMidAnchor(lfreq) then 2 else 1)
  {
    ZeroPadded(RemoveAt(Imag(field), i), NeedsMidAnchor(lfreq))
  }

  /**
   * The leave-one-out control frequencies: the low anchor, the other samples
   * in order, the middle anchor when every sample is below 1e4 Hz, then the
   * high anchor.
   */
  lemma LooFreqsShape(lfreq: seq<real>, i: nat)
    requires i < |lfreq|
    ensures |LooFreqs(lfreq, i)| == if NeedsMidAnchor(lfreq) then |lfreq| + 2 else |lfreq| + 1
    ensures LooFreqs(lfreq, i)[0] == LowAnchor
    ensures forall j :: 0 <= j < i ==> LooFreqs(lfreq, i)[j + 1] == lfreq[j]
    ensures forall j :: i < j < |lfreq| ==> LooFreqs(lfreq, i)[j] == lfreq[j]
    ensures NeedsMidAnchor(lfreq) ==> LooFreqs(lfreq, i)[|lfreq|] == MidAnchor
    ensures LooFreqs(lfreq, i)[|LooFreqs(lfreq, i)| - 1] == HighAnchor
  {
    var rest := RemoveAt(lfreq, i);
    AnchoredAt(rest, NeedsMidAnchor(lfreq));
    assert forall j :: i < j < |lfreq| ==> rest[j - 1] == lfreq[j];
  }

  /** The aligned values: zero at each anchor, the imaginary field of each other sample. */
  lemma LooValuesShape(lfreq: seq<real>, field: seq<Complex>, i: nat)
    requires i < |lfreq| == |field|
    ensures |LooValues(lfreq, field, i)| == |LooFreqs(lfreq, i)|
    ensures LooValues(lfreq, field, i)[0] == 0.0
    ensures forall j :: 0 <= j < i ==> LooValues(lfreq, field, i)[j + 1] == field[j].im
    ensures forall j :: i < j < |lfreq| ==> LooValues(lfreq, field, i)[j] == field[j].im
    ensures NeedsMidAnchor(lfreq) ==> LooValues(lfreq, field, i)[|lfreq|] == 0.0
    ensures LooValues(lfreq, field, i)[|LooValues(lfreq, field, i)| - 1] == 0.0
  {
    var im := Imag(field);
    var mid := NeedsMidAnchor(lfreq);
    ZeroPaddedAt(RemoveAt(im, i), mid);
    PaddedRemoveAt(im, i, mid);
  }

  /** Padding after removing entry i: earlier entries move up one place, later ones stay. */
  lemma PaddedRemoveAt(vs: seq<real>, i: nat, mid: bool)
    requires i < |vs|
    ensures forall j :: 0 <= j < i ==> ZeroPadded(RemoveAt(vs, i), mid)[j + 1] == vs[j]
    ensures forall j :: i < j < |vs| ==> ZeroPadded(RemoveAt(vs, i), mid)[j] == vs[j]
  {
    var rest := RemoveAt(vs, i);
    ZeroPaddedAt(rest, mid);
    assert forall j :: i < j < |vs| ==> rest[j - 1] == vs[j];
  }

  /** For strictly increasing samples between the outer anchors, every leave-one-out set is ascending. */
  lemma LooIncreasing(lfreq: seq<real>, i: nat)
    requires i < |lfreq| && StrictlyIncreasing(lfreq)
    requires forall j :: 0 <= j < |lfreq| ==> LowAnchor < lfreq[j] < HighAnchor
    ensures StrictlyIncreasing(LooFreqs(lfreq, i))
  {
    RemoveAtIncreasing(lfreq, i);
    var rest := RemoveAt(lfreq, i);
    assert forall j :: 0 <= j < |rest| ==> rest[j] in lfreq;
    AnchoredIncreasing(rest, NeedsMidAnchor(lfreq));
  }

  /** `i_field` after the loop: entry i is `1j` times the leave-one-out interpolation at sample i. */
  function LooField(lfreq: seq<real>, field: seq<Complex>, interp: Interpolator): (r: seq<Complex>)
    requires |lfreq| == |field|
    ensures |r| == |lfreq|
    ensures forall i :: 0 <= i < |r| ==> r[i].re == 0.0
  {
    seq(|lfreq|, i requires 0 <= i < |lfreq| =>
      Complex(0.0, interp(LooFreqs(lfreq, i), LooValues(lfreq, field, i), lfreq[i])))
  }

  /** The `for i in range(freq.size)` loop filling the preallocated `i_field`. */
  method LeaveOneOut(lfreq: seq<real>, field: seq<Complex>, interp: Interpolator)
    returns (iField: seq<Complex>)
    requires |lfreq| == |field|
    ensures iField == LooField(lfreq, field, interp)
  {
    var n := |lfreq|;
    var a := new Complex[n](_ => Zero);
    for i := 0 to n
      invariant forall j :: 0 <= j < i ==> a[j] == LooField(lfreq, field, interp)[j]
    {
      var tmpF := LooFreqs(lfreq, i);
      var tmpS := LooValues(lfreq, field, i);
      a[i] := Complex(0.0, interp(tmpF, tmpS, lfreq[i]));
    }
    iField := a[..];
  }

  /** `np.abs((estimate - imag) / scale)`, entry by entry. */
  function Errors(est: seq<real>, im: seq<real>, scale: real): (e: seq<real>)
    requires |est| == |im| && scale > 0.0
    ensures |e| == |est|
    ensures forall i :: 0 <= i < |e| ==> e[i] >= 0.0
  {
    seq(|est|, i requires 0 <= i < |est| => Abs((est[i] - im[i]) / scale))
  }

  lemma ProductOrder(a: real, b: real, s: real)
    requires s > 0.0
    ensures a > b <==> a * s > b * s
  {
  }

  /**
   * An error entry is non-negative, exceeds rtol exactly when the deviation
   * exceeds rtol times the scale, and vanishes exactly when the estimate is exact.
   */
  lemma ErrorMeaning(est: seq<real>, im: seq<real>, scale: real, rtol: real, i: nat)
    requires |est| == |im| && scale > 0.0 && i < |est|
    ensures Errors(est, im, scale)[i] >= 0.0
    ensures Errors(est, im, scale)[i] > rtol <==> Abs(est[i] - im[i]) > rtol * scale
    ensures Errors(est, im, scale)[i] == 0.0 <==> est[i] == im[i]
  {
    var d := est[i] - im[i];
    var q := d / scale;
    assert q * scale == d;
    var e := Abs(q);
    assert e * scale == Abs(d);
    ProductOrder(e, rtol, scale);
  }

  /** `error`: the normalised deviation of every real sample; anchors are never scored. */
  function ErrorVector(lfreq: seq<real>, field: seq<Complex>, interp: Interpolator,
                       modulus: Complex -> real): (e: seq<real>)
    requires 0 < |lfreq| == |field| && MaxModulus(field, modulus) > 0.0
    ensures |e| == |lfreq|
  {
    Errors(Imag(LooField(lfreq, field, interp)), Imag(field), MaxModulus(field, modulus))
  }

  /**
   * An estimate of zero scores at most 1: the normaliser bounds every
   * imaginary part, which is why the complex magnitude is used.
   */
  lemma ZeroEstimateError(lfreq: seq<real>, field: seq<Complex>, interp: Interpolator,
                          modulus: Complex -> real, i: nat)
    requires 0 < |lfreq| == |field| && IsModulus(modulus) && MaxModulus(field, modulus) > 0.0
    requires i < |lfreq| && LooField(lfreq, field, interp)[i].im == 0.0
    ensures ErrorVector(lfreq, field, interp, modulus)[i] <= 1.0
  {
    var scale := MaxModulus(field, modulus);
    ImagWithinMaxModulus(field, modulus, i);
    ErrorMeaning(Imag(LooField(lfreq, field, interp)), Imag(field), scale, 1.0, i);
  }

  /** The failing indices at or after i, in ascending order. */
  function FailingFrom(error: seq<real>, rtol: real, i: nat): seq<nat>
    requires i <= |error|
    decreases |error| - i
  {
    if i == |error| then []
    else if error[i] > rtol then [i] + FailingFrom(error, rtol, i + 1)
    else FailingFrom(error, rtol, i + 1)
  }

  /** The list holds exactly the failing indices from i on, each once and in ascending order. */
  lemma {:induction false} FailingFromSpec(error: seq<real>, rtol: real, i: nat)
    requires i <= |error|
    ensures forall k :: 0 <= k < |FailingFrom(error, rtol, i)| ==>
      i <= FailingFrom(error, rtol, i)[k] < |error| && error[FailingFrom(error, rtol, i)[k]] > rtol
    ensures forall j :: i <= j < |error| && error[j] > rtol ==> j in FailingFrom(error, rtol, i)
    ensures forall a, b :: 0 <= a < b < |FailingFrom(error, rtol, i)| ==>
      FailingFrom(error, rtol, i)[a] < FailingFrom(error, rtol, i)[b]
    decreases |error| - i
  {
    if i < |error| {
      FailingFromSpec(error, rtol, i + 1);
    }
  }

  /** Passing indices contribute nothing to the failing list. */
  lemma {:induction false} PassingPrefix(error: seq<real>, rtol: real, i: nat, m: nat)
    requires i <= m <= |error|
    requires forall j :: i <= j < m ==> error[j] <= rtol
    ensures FailingFrom(error, rtol, i) == FailingFrom(error, rtol, m)
    decreases m - i
  {
    if i < m {
      PassingPrefix(error, rtol, i + 1, m);
    }
  }

  /** `ierr = np.arange(freq.size)[error > rtol]`: exactly the failing indices, ascending. */
  function Failing(error: seq<real>, rtol: real): (r: seq<nat>)
    ensures forall k :: 0 <= k < |r| ==> r[k] < |error| && error[r[k]] > rtol
    ensures forall j :: 0 <= j < |error| && error[j] > rtol ==> j in r
    ensures forall a, b :: 0 <= a < b < |r| ==> r[a] < r[b]
  {
    FailingFromSpec(error, rtol, 0);
    FailingFrom(error, rtol, 0)
  }

  /** The first failing index is the smallest index whose error exceeds rtol. */
  lemma FirstFailing(error: seq<real>, rtol: real)
    requires |Failing(error, rtol)| > 0
    ensures error[Failing(error, rtol)[0]] > rtol
    ensures forall j :: 0 <= j < Failing(error, rtol)[0] ==> error[j] <= rtol
  {
    var r := Failing(error, rtol);
    forall j | 0 <= j < r[0] ensures error[j] <= rtol {
    }
  }

  /** An interpolant that recovers every left-out sample leaves no index failing. */
  lemma ExactEstimatesPass(lfreq: seq<real>, field: seq<Complex>, interp: Interpolator,
                           modulus: Complex -> real, rtol: real)
    requires 0 < |lfreq| == |field| && MaxModulus(field, modulus) > 0.0 && rtol >= 0.0
    requires forall i :: 0 <= i < |lfreq| ==> LooField(lfreq, field, interp)[i].im == field[i].im
    ensures Failing(ErrorVector(lfreq, field, interp, modulus), rtol) == []
  {
    var e := ErrorVector(lfreq, field, interp, modulus);
    var r := Failing(e, rtol);
    if |r| > 0 {
      var i := r[0];
      ErrorMeaning(Imag(LooField(lfreq, field, interp)), Imag(field), MaxModulus(field, modulus), rtol, i);
    }
  }

  /** `tmp_f2`: all samples with the anchors, for the interpolation at the required frequencies. */
  function FullFreqs(lfreq: seq<real>): (r: seq<real>)
    requires |lfreq| > 0
    ensures |r| == |lfreq| + (if NeedsMidAnchor(lfreq) then 3 else 2)
  {
    Anchored(lfreq, NeedsMidAnchor(lfreq))
  }

  /** `tmp_s2.imag`, aligned with `FullFreqs`. */
  function FullValues(lfreq: seq<real>, field: seq<Complex>): (r: seq<real>)
    requires 0 < |lfreq| == |field|
    ensures |r| == |lfreq| + (if NeedsMidAnchor(lfreq) then 3 else 2)
  {
    ZeroPadded(Imag(field), NeedsMidAnchor(lfreq))
  }

  /** `i_field2`: `1j` times the interpolated imaginary field at each required frequency. */
  function FullField(lfreq: seq<real>, field: seq<Complex>, reqL: seq<real>, interp: Interpolator): (r: seq<Complex>)
    requires 0 < |lfreq| == |field|
    ensures |r| == |reqL|
  {
    seq(|reqL|, q requires 0 <= q < |reqL| =>
      Complex(0.0, interp(FullFreqs(lfreq), FullValues(lfreq, field), reqL[q])))
  }

  /** At a required frequency that is a sample, an interpolating `i_field2` gives that sample's imaginary field. */
  lemma FullFieldAtSample(lfreq: seq<real>, field: seq<Complex>, reqL: seq<real>, interp: Interpolator,
                          q: nat, j: nat)
    requires 0 < |lfreq| == |field| && StrictlyIncreasing(lfreq) && Interpolates(interp)
    requires forall k :: 0 <= k < |lfreq| ==> LowAnchor < lfreq[k] < HighAnchor
    requires q < |reqL| && j < |lfreq| && reqL[q] == lfreq[j]
    ensures FullField(lfreq, field, reqL, interp)[q] == Complex(0.0, field[j].im)
  {
    var mid := NeedsMidAnchor(lfreq);
    var xs := FullFreqs(lfreq);
    var ys := FullValues(lfreq, field);
    AnchoredIncreasing(lfreq, mid);
    AnchoredAt(lfreq, mid);
    ZeroPaddedAt(Imag(field), mid);
    InterpolatesAt(interp, xs, ys, j + 1);
  }
}
