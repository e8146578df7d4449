/**
 * The refinement rule of `get_new_freq`: from the failing indices choose at
 * most one new log10-frequency, extending downward first, then upward when only
 * the last sample fails, and otherwise bisecting after the first failure.
 */
module Refiner {
  import opened Numerics
  import opened Fields
  import opened ErrorEstimator

  /** Half a log10-decade. */
  const HalfDecade: real := 0.5

  /** In the bisection branch the first failing index has a right neighbour and is not the first. */
  lemma FirstFailingInterior(error: seq<real>, rtol: real)
    requires |Failing(error, rtol)| > 0 && error[0] <= rtol
    requires !(error[|error| - 1] > rtol && |Failing(error, rtol)| == 1)
    ensures 0 < Failing(error, rtol)[0] < |error| - 1
  {
    var ierr := Failing(error, rtol);
    if |ierr| >= 2 {
      assert ierr[0] < ierr[1];
    }
  }

  /** `new_lfreq`, as a list of zero or one log10-frequencies. */
  function NewLogFreq(lfreq: seq<real>, error: seq<real>, rtol: real): (r: seq<real>)
    requires |lfreq| == |error|
    ensures |r| <= 1
  {
    var ierr := Failing(error, rtol);
    if |ierr| == 0 then []
    else
      var n := |lfreq|;
      var k := ierr[0];
      if error[0] > rtol then [lfreq[k] - HalfDecade]
      else if error[n - 1] > rtol && |ierr| == 1 then [lfreq[k] + HalfDecade]
      else
        FirstFailingInterior(error, rtol);
        [lfreq[k] + Diff(lfreq)[k] / 2.0]
  }

  /** Halting: no frequency is proposed exactly when no error exceeds rtol, otherwise one is. */
  lemma NewLogFreqHalts(lfreq: seq<real>, error: seq<real>, rtol: real)
    requires |lfreq| == |error|
    ensures NewLogFreq(lfreq, error, rtol) == [] <==> forall i :: 0 <= i < |error| ==> error[i] <= rtol
    ensures NewLogFreq(lfreq, error, rtol) != [] ==> |NewLogFreq(lfreq, error, rtol)| == 1
  {
    var ierr := Failing(error, rtol);
    if |ierr| > 0 {
      assert error[ierr[0]] > rtol;
    }
  }

  /** Low-end priority: a failing first sample extends half a decade downward, whatever else fails. */
  lemma LowEndPriority(lfreq: seq<real>, error: seq<real>, rtol: real)
    requires |lfreq| == |error| && |error| > 0 && error[0] > rtol
    ensures NewLogFreq(lfreq, error, rtol) == [lfreq[0] - HalfDecade]
  {
    FirstFailing(error, rtol);
  }

  /** Sole-last extension: when only the last sample fails, extend half a decade upward. */
  lemma SoleLastExtension(lfreq: seq<real>, error: seq<real>, rtol: real)
    requires |lfreq| == |error| && |error| > 1
    requires error[|error| - 1] > rtol
    requires forall i :: 0 <= i < |error| - 1 ==> error[i] <= rtol
    ensures NewLogFreq(lfreq, error, rtol) == [lfreq[|lfreq| - 1] + HalfDecade]
  {
    var n := |error|;
    PassingPrefix(error, rtol, 0, n - 1);
    assert FailingFrom(error, rtol, n - 1) == [n - 1];
  }

  /**
   * Interior bisection: when the first sample passes and some failure lies
   * before the last sample, the new frequency is the log-midpoint between the
   * first failing sample k and its right neighbour, with 0 < k < n-1.
   */
  lemma InteriorBisection(lfreq: seq<real>, error: seq<real>, rtol: real, k: nat)
    requires |lfreq| == |error| && k < |error| - 1
    requires error[0] <= rtol && error[k] > rtol
    requires forall j :: 0 <= j < k ==> error[j] <= rtol
    ensures 0 < k
    ensures NewLogFreq(lfreq, error, rtol) == [lfreq[k] + (lfreq[k + 1] - lfreq[k]) / 2.0]
  {
    var ierr := Failing(error, rtol);
    FirstFailing(error, rtol);
    assert k in ierr;
    assert ierr[0] == k;
    if |ierr| == 1 {
      assert ierr[0] != |error| - 1;
    }
  }

  /** The midpoint lies strictly between the two samples it bisects. */
  lemma BisectionBetween(lo: real, hi: real)
    requires lo < hi
    ensures lo < lo + (hi - lo) / 2.0 < hi
  {
  }

  /** For strictly increasing samples the proposed frequency is never one already sampled. */
  lemma NewFrequencyIsFresh(lfreq: seq<real>, error: seq<real>, rtol: real)
    requires |lfreq| == |error| && StrictlyIncreasing(lfreq)
    requires |NewLogFreq(lfreq, error, rtol)| == 1
    ensures NewLogFreq(lfreq, error, rtol)[0] !in lfreq
  {
    var ierr := Failing(error, rtol);
    var n := |lfreq|;
    var x := NewLogFreq(lfreq, error, rtol)[0];
    FirstFailing(error, rtol);
    var k := ierr[0];
    if error[0] > rtol {
      assert x < lfreq[0];
    } else if error[n - 1] > rtol && |ierr| == 1 {
      assert n - 1 in ierr;
      assert k == n - 1;
      assert x > lfreq[n - 1];
    } else {
      FirstFailingInterior(error, rtol);
      BisectionBetween(lfreq[k], lfreq[k + 1]);
      assert lfreq[k] < x < lfreq[k + 1];
      forall j | 0 <= j < n ensures lfreq[j] != x {
        if j <= k { assert lfreq[j] <= lfreq[k]; }
        else { assert lfreq[k + 1] <= lfreq[j]; }
      }
    }
  }

  /** Everything `get_new_freq(..., full_output=True)` returns. */
  datatype Evaluation = Evaluation(
    newLfreq: seq<real>,
    iField: seq<Complex>,
    error: seq<real>,
    ierr: seq<nat>,
    iField2: Option<seq<Complex>>)

  /** `get_new_freq`: leave-one-out field, errors, failing indices and the proposed frequency. */
  method GetNewFreq(lfreq: seq<real>, field: seq<Complex>, rtol: real, reqL: Option<seq<real>>,
                    interp: Interpolator, modulus: Complex -> real)
    returns (out: Evaluation)
    requires 0 < |lfreq| == |field| && MaxModulus(field, modulus) > 0.0
    ensures out.iField == LooField(lfreq, field, interp)
    ensures out.error == ErrorVector(lfreq, field, interp, modulus)
    ensures out.ierr == Failing(out.error, rtol)
    ensures out.newLfreq == NewLogFreq(lfreq, out.error, rtol)
    ensures out.iField2 == if reqL.Some? then Some(FullField(lfreq, field, reqL.value, interp)) else None
  {
    var iField := LeaveOneOut(lfreq, field, interp);
    var error := Errors(Imag(iField), Imag(field), MaxModulus(field, modulus));
    var ierr := Failing(error, rtol);
    var newLfreq := NewLogFreq(lfreq, error, rtol);
    var iField2 := None;
    if reqL.Some? {
      iField2 := Some(FullField(lfreq, field, reqL.value, interp));
    }
    out := Evaluation(newLfreq, iField, error, ierr, iField2);
  }
}
