/**
 * The sample set of the driver loop: log-frequencies with their complex field
 * values, and the merge `np.unique(np.r_[freq, new_freq], return_index=True)`
 * followed by `np.r_[fEM, new_fEM][ai]`.
 */
module SampleSet {
  import opened Numerics
  import opened Fields
  import opened Unique

  /** Log10-frequencies and the field computed at each of them. */
  datatype Samples = Samples(lfreq: seq<real>, field: seq<Complex>)

  ghost predicate Aligned(s: Samples) {
    |s.lfreq| == |s.field|
  }

  /** Every stored field value is the forward model at its frequency. */
  ghost predicate ComputedBy(s: Samples, forward: real -> Complex) {
    Aligned(s) && forall j :: 0 <= j < |s.lfreq| ==> s.field[j] == forward(s.lfreq[j])
  }

  /** An empty sample set (`np.array([])` for both arrays). */
  const NoSamples: Samples := Samples([], [])

  /** The samples of the added frequencies, evaluated pointwise by the forward model. */
  function Evaluate(lfreqs: seq<real>, forward: real -> Complex): (s: Samples)
    ensures s.lfreq == lfreqs
    ensures ComputedBy(s, forward)
  {
    Samples(lfreqs, seq(|lfreqs|, j requires 0 <= j < |lfreqs| => forward(lfreqs[j])))
  }

  /** Sorted, deduplicated union; each field value comes from the first occurrence. */
  function Merge(prev: Samples, added: Samples): (m: Samples)
    requires Aligned(prev) && Aligned(added)
    ensures Aligned(m)
  {
    var keys := prev.lfreq + added.lfreq;
    var idx := UniqueIndices(keys);
    Samples(UniqueValues(keys), Gather(prev.field + added.field, idx))
  }

  /** The merged frequencies are strictly increasing and are the union of both sets. */
  lemma MergeUnion(prev: Samples, added: Samples)
    requires Aligned(prev) && Aligned(added)
    ensures StrictlyIncreasing(Merge(prev, added).lfreq)
    ensures forall x :: x in Merge(prev, added).lfreq <==> x in prev.lfreq || x in added.lfreq
  {
    UniqueSpec(prev.lfreq + added.lfreq);
  }

  /** Each merged value is the one at the first occurrence of its frequency in prev ++ added. */
  lemma MergeFirstOccurrence(prev: Samples, added: Samples, j: nat)
    requires Aligned(prev) && Aligned(added) && j < |Merge(prev, added).lfreq|
    ensures exists p :: (
      && 0 <= p < |prev.lfreq| + |added.lfreq|
      && (prev.lfreq + added.lfreq)[p] == Merge(prev, added).lfreq[j]
      && (prev.field + added.field)[p] == Merge(prev, added).field[j]
      && forall q :: 0 <= q < p ==> (prev.lfreq + added.lfreq)[q] != Merge(prev, added).lfreq[j])
  {
    var keys := prev.lfreq + added.lfreq;
    UniqueSpec(keys);
    var p := UniqueIndices(keys)[j];
    assert (prev.field + added.field)[p] == Merge(prev, added).field[j];
  }

  /** On a duplicate frequency the existing sample wins over the added one. */
  lemma MergeKeepsExisting(prev: Samples, added: Samples, j: nat, p: nat)
    requires Aligned(prev) && Aligned(added) && StrictlyIncreasing(prev.lfreq)
    requires j < |Merge(prev, added).lfreq| && p < |prev.lfreq|
    requires Merge(prev, added).lfreq[j] == prev.lfreq[p]
    ensures Merge(prev, added).field[j] == prev.field[p]
  {
    var keys := prev.lfreq + added.lfreq;
    MergeFirstOccurrence(prev, added, j);
    var q :| 0 <= q < |keys| && keys[q] == Merge(prev, added).lfreq[j] &&
      (prev.field + added.field)[q] == Merge(prev, added).field[j] &&
      forall r :: 0 <= r < q ==> keys[r] != Merge(prev, added).lfreq[j];
    assert keys[p] == prev.lfreq[p];
    assert q <= p;
    assert keys[q] == prev.lfreq[q];
  }

  /** Merging two sets computed by the forward model gives one computed by it too. */
  lemma MergeComputedBy(prev: Samples, added: Samples, forward: real -> Complex)
    requires ComputedBy(prev, forward) && ComputedBy(added, forward)
    ensures ComputedBy(Merge(prev, added), forward)
  {
    var keys := prev.lfreq + added.lfreq;
    var vals := prev.field + added.field;
    var m := Merge(prev, added);
    forall j | 0 <= j < |m.lfreq| ensures m.field[j] == forward(m.lfreq[j]) {
      var p := UniqueIndices(keys)[j];
      assert m.lfreq[j] == keys[p] && m.field[j] == vals[p];
      if p < |prev.lfreq| {
        assert keys[p] == prev.lfreq[p] && vals[p] == prev.field[p];
      } else {
        assert keys[p] == added.lfreq[p - |prev.lfreq|] && vals[p] == added.field[p - |prev.lfreq|];
      }
    }
  }

  /** A duplicate-free previous set never shrinks, and grows by at most the number of added samples. */
  lemma MergeSize(prev: Samples, added: Samples)
    requires Aligned(prev) && Aligned(added) && StrictlyIncreasing(prev.lfreq)
    ensures |prev.lfreq| <= |Merge(prev, added).lfreq| <= |prev.lfreq| + |added.lfreq|
  {
    var keys := prev.lfreq + added.lfreq;
    UniqueUpToIncreasing(keys, |prev.lfreq|);
    UniqueUpToGrowth(keys, |prev.lfreq|, |added.lfreq|);
  }

  /** One frequency not yet sampled adds exactly one sample. */
  lemma MergeFresh(prev: Samples, added: Samples)
    requires Aligned(prev) && Aligned(added) && StrictlyIncreasing(prev.lfreq)
    requires |added.lfreq| == 1 && added.lfreq[0] !in prev.lfreq
    ensures |Merge(prev, added).lfreq| == |prev.lfreq| + 1
  {
    var keys := prev.lfreq + added.lfreq;
    var n := |prev.lfreq|;
    UniqueUpToIncreasing(keys, n);
    UniqueUpToKeys(keys, n);
    assert keys[..n] == prev.lfreq;
    assert keys[n] == added.lfreq[0];
    assert keys == keys[..n + 1];
    InsertAbsent(keys, UniqueUpTo(keys, n), n);
  }
}
