/**
 * The initial frequencies of `design_freq_range`, chosen by the type of
 * `freq_range`: a `np.logspace` range, an explicit array, or a number of peaks
 * of the imaginary reference field to start from.
 */
module Seed {
  import opened Numerics
  import opened Unique

  /** The three accepted forms of `freq_range`, in log10-frequency. */
  datatype FreqRange =
    | LogRange(start: real, stop: real, num: nat)
    | Explicit(lfreqs: seq<real>)
    | PeakCount(count: int)

  /**
   * The end of the Python slice `p[:count]` over a list of length len: for
   * count >= 0 the longest prefix with at most count entries; for count < 0
   * the list without its last -count entries, or nothing when it has fewer.
   */
  function SliceEnd(len: nat, count: int): (e: nat)
    ensures e <= len
    ensures count >= 0 ==> e <= count && (e < count ==> e == len)
    ensures count < 0 ==> len - e <= -count && (len - e < -count ==> e == 0)
  {
    if count >= 0 then (if count <= len then count else len)
    else if len + count >= 0 then len + count else 0
  }

  /** Those two properties pin the slice end: no other end satisfies them. */
  lemma SliceEndUnique(len: nat, count: int, e: nat)
    requires e <= len
    requires count >= 0 ==> e <= count && (e < count ==> e == len)
    requires count < 0 ==> len - e <= -count && (len - e < -count ==> e == 0)
    ensures e == SliceEnd(len, count)
  {
  }

  /** Entrywise sum of two arrays of equal length. */
  function AddEach(a: seq<real>, b: seq<real>): (r: seq<real>)
    requires |a| == |b|
    ensures |r| == |a|
    ensures forall j :: 0 <= j < |a| ==> r[j] == a[j] + b[j]
  {
    seq(|a|, j requires 0 <= j < |a| => a[j] + b[j])
  }

  /**
   * `np.r_[lfreq, lfreq[:-1] + np.diff(lfreq), lfreq[0] - np.diff(lfreq[:2])]`;
   * with one peak both added parts are empty arrays.
   */
  function PeakCandidates(sel: seq<real>): (r: seq<real>)
    requires |sel| >= 1
    ensures |r| == if |sel| == 1 then 1 else 2 * |sel|
    ensures r[..|sel|] == sel
  {
    if |sel| == 1 then sel
    else sel + AddEach(sel[..|sel| - 1], Diff(sel)) + [sel[0] - (sel[1] - sel[0])]
  }

  /** The log10 of the initial `new_freq`; None where indexing the empty selection raises. */
  function InitialLogFreqs(range: FreqRange, reqL: seq<real>, peaks: seq<nat>): (r: Option<seq<real>>)
    requires forall j :: 0 <= j < |peaks| ==> peaks[j] < |reqL|
    ensures r.None? ==> range.PeakCount?
    ensures range.PeakCount? && r.Some? ==> |r.value| > 0
  {
    match range
    case LogRange(start, stop, num) => Some(Linspace(start, stop, num))
    case Explicit(lfreqs) => Some(lfreqs)
    case PeakCount(count) =>
      var sel := Gather(reqL, peaks[..SliceEnd(|peaks|, count)]);
      if |sel| == 0 then None
      else
        var cand := PeakCandidates(sel);
        UniqueSpec(cand);
        assert cand[0] in UniqueValues(cand);
        Some(UniqueValues(cand))
  }

  /** An increasing logspace range: num points, from start to stop, evenly spaced and ascending. */
  lemma LogRangeSeed(start: real, stop: real, num: nat, reqL: seq<real>, peaks: seq<nat>)
    requires forall j :: 0 <= j < |peaks| ==> peaks[j] < |reqL|
    requires start < stop && num >= 2
    ensures InitialLogFreqs(LogRange(start, stop, num), reqL, peaks).Some?
    ensures var r := InitialLogFreqs(LogRange(start, stop, num), reqL, peaks).value;
      && |r| == num && r[0] == start && r[num - 1] == stop
      && StrictlyIncreasing(r)
      && forall k :: 0 <= k < num - 1 ==> r[k + 1] - r[k] == (stop - start) / ((num - 1) as real)
  {
    LinspaceIncreasing(start, stop, num);
    LinspaceStep(start, stop, num);
  }

  /** The "midpoints" `lfreq[:-1] + np.diff(lfreq)` are the next peaks `lfreq[1:]`. */
  lemma AddedPointsAreNextPeaks(sel: seq<real>)
    requires |sel| >= 2
    ensures AddEach(sel[..|sel| - 1], Diff(sel)) == sel[1..]
  {
  }

  /** Peaks picked in ascending index order from an ascending frequency array are ascending. */
  lemma PeakSelectionIncreasing(reqL: seq<real>, picked: seq<nat>)
    requires StrictlyIncreasing(reqL)
    requires forall j :: 0 <= j < |picked| ==> picked[j] < |reqL|
    requires forall a, b :: 0 <= a < b < |picked| ==> picked[a] < picked[b]
    ensures StrictlyIncreasing(Gather(reqL, picked))
  {
  }

  /**
   * From ascending peaks the seed is the peaks plus one point a peak spacing
   * below the first; a single peak is kept alone.
   */
  lemma PeakSeedShape(sel: seq<real>)
    requires |sel| >= 1 && StrictlyIncreasing(sel)
    ensures |sel| == 1 ==> UniqueValues(PeakCandidates(sel)) == sel
    ensures |sel| >= 2 ==> UniqueValues(PeakCandidates(sel)) == [sel[0] - (sel[1] - sel[0])] + sel
  {
    var cand := PeakCandidates(sel);
    UniqueSpec(cand);
    if |sel| == 1 {
      IncreasingUnique(UniqueValues(cand), sel);
    } else {
      var target := [sel[0] - (sel[1] - sel[0])] + sel;
      CandidatesCover(sel);
      ExtendedIncreasing(sel);
      IncreasingUnique(UniqueValues(cand), target);
    }
  }

  /** With two or more peaks the candidates hold exactly the peaks and the point below the first. */
  lemma CandidatesCover(sel: seq<real>)
    requires |sel| >= 2
    ensures forall x :: x in PeakCandidates(sel) <==> x in [sel[0] - (sel[1] - sel[0])] + sel
  {
    AddedPointsAreNextPeaks(sel);
    var below := sel[0] - (sel[1] - sel[0]);
    assert PeakCandidates(sel) == sel + sel[1..] + [below];
    forall x | x in sel[1..] ensures x in sel {
      var k :| 0 <= k < |sel| - 1 && sel[1..][k] == x;
      assert sel[k + 1] == x;
    }
  }

  /** Prepending a point one spacing below ascending peaks keeps them ascending. */
  lemma ExtendedIncreasing(sel: seq<real>)
    requires |sel| >= 2 && StrictlyIncreasing(sel)
    ensures StrictlyIncreasing([sel[0] - (sel[1] - sel[0])] + sel)
  {
    var target := [sel[0] - (sel[1] - sel[0])] + sel;
    forall a, b | 0 <= a < b < |target| ensures target[a] < target[b] {
      if a == 0 {
        assert sel[0] <= target[b];
      } else {
        assert target[a] == sel[a - 1] && target[b] == sel[b - 1];
      }
    }
  }

  /** The peak seed is None exactly when the slice selects no peak. */
  lemma PeakSeedEmpty(count: int, reqL: seq<real>, peaks: seq<nat>)
    requires forall j :: 0 <= j < |peaks| ==> peaks[j] < |reqL|
    ensures InitialLogFreqs(PeakCount(count), reqL, peaks).None? <==> SliceEnd(|peaks|, count) == 0
  {
  }
}
