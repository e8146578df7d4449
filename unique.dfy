/**
 * `np.unique(xs, return_index=True)`: the sorted distinct values of xs, and for
 * each of them the index of its FIRST occurrence in xs.
 *
 * The indices are built by inserting 0, 1, ..., |xs|-1 in turn into a list
 * kept sorted by key; an index whose key is already present is dropped, so the
 * earliest occurrence of every key is the one that stays.
 */
module Unique {
  import opened Numerics

  /** Every entry of idx is a position of xs. */
  ghost predicate InBounds(xs: seq<real>, idx: seq<nat>) {
    forall j :: 0 <= j < |idx| ==> idx[j] < |xs|
  }

  /** idx holds positions of xs whose keys strictly increase along idx. */
  ghost predicate SortedIndices(xs: seq<real>, idx: seq<nat>) {
    && InBounds(xs, idx)
    && (forall a, b :: 0 <= a < b < |idx| ==> xs[idx[a]] < xs[idx[b]])
  }

  /** Some position listed in idx carries the key x. */
  ghost predicate HasKey(xs: seq<real>, idx: seq<nat>, x: real) {
    exists j :: 0 <= j < |idx| && idx[j] < |xs| && xs[idx[j]] == x
  }

  /** The insertion step: keep idx if the key of i is already there, else add i in order. */
  function InsertIndex(xs: seq<real>, idx: seq<nat>, i: nat): (r: seq<nat>)
    requires i < |xs| && InBounds(xs, idx)
    ensures InBounds(xs, r)
    ensures |idx| <= |r| <= |idx| + 1
    decreases |idx|
  {
    if |idx| == 0 then [i]
    else if xs[i] == xs[idx[0]] then idx
    else if xs[i] < xs[idx[0]] then [i] + idx
    else [idx[0]] + InsertIndex(xs, idx[1..], i)
  }

  /** Insertion lists nothing but i and the indices already listed. */
  lemma {:induction false} InsertFrom(xs: seq<real>, idx: seq<nat>, i: nat)
    requires i < |xs| && InBounds(xs, idx)
    ensures forall j :: 0 <= j < |InsertIndex(xs, idx, i)| ==>
      InsertIndex(xs, idx, i)[j] == i || InsertIndex(xs, idx, i)[j] in idx
    decreases |idx|
  {
    if |idx| > 0 && xs[i] > xs[idx[0]] {
      var tail := idx[1..];
      InsertFrom(xs, tail, i);
      assert forall j :: 0 <= j < |tail| ==> tail[j] in idx;
    }
  }

  lemma {:induction false} InsertSorted(xs: seq<real>, idx: seq<nat>, i: nat)
    requires i < |xs| && SortedIndices(xs, idx)
    ensures SortedIndices(xs, InsertIndex(xs, idx, i))
    decreases |idx|
  {
    if |idx| > 0 && xs[i] > xs[idx[0]] {
      var tail := idx[1..];
      InsertSorted(xs, tail, i);
      InsertFrom(xs, tail, i);
      var rest := InsertIndex(xs, tail, i);
      forall j | 0 <= j < |rest| ensures xs[idx[0]] < xs[rest[j]] {
        if rest[j] != i {
          var k :| 0 <= k < |tail| && tail[k] == rest[j];
          assert tail[k] == idx[k + 1];
        }
      }
    }
  }

  /** Insertion keeps every listed index. */
  lemma {:induction false} InsertKeepsOld(xs: seq<real>, idx: seq<nat>, i: nat)
    requires i < |xs| && InBounds(xs, idx)
    ensures forall j :: 0 <= j < |idx| ==> idx[j] in InsertIndex(xs, idx, i)
    decreases |idx|
  {
    if |idx| > 0 && xs[i] > xs[idx[0]] {
      var tail := idx[1..];
      InsertKeepsOld(xs, tail, i);
      assert forall j :: 1 <= j < |idx| ==> idx[j] == tail[j - 1];
    }
  }

  /** Insertion adds i unless its key was already listed. */
  lemma {:induction false} InsertAddsKey(xs: seq<real>, idx: seq<nat>, i: nat)
    requires i < |xs| && InBounds(xs, idx)
    ensures i in InsertIndex(xs, idx, i) || HasKey(xs, idx, xs[i])
    decreases |idx|
  {
    if |idx| > 0 {
      if xs[i] == xs[idx[0]] {
        assert idx[0] < |xs| && xs[idx[0]] == xs[i];
      } else if xs[i] > xs[idx[0]] {
        var tail := idx[1..];
        InsertAddsKey(xs, tail, i);
        if HasKey(xs, tail, xs[i]) {
          var k :| 0 <= k < |tail| && tail[k] < |xs| && xs[tail[k]] == xs[i];
          assert idx[k + 1] == tail[k];
        }
      }
    }
  }

  /** The keys after insertion are the old keys plus the key of i. */
  lemma InsertKeys(xs: seq<real>, idx: seq<nat>, i: nat, x: real)
    requires i < |xs| && InBounds(xs, idx)
    ensures HasKey(xs, InsertIndex(xs, idx, i), x) <==> HasKey(xs, idx, x) || x == xs[i]
  {
    var r := InsertIndex(xs, idx, i);
    InsertFrom(xs, idx, i);
    InsertKeepsOld(xs, idx, i);
    InsertAddsKey(xs, idx, i);
    if HasKey(xs, r, x) {
      var j :| 0 <= j < |r| && r[j] < |xs| && xs[r[j]] == x;
      if r[j] != i {
        var k :| 0 <= k < |idx| && idx[k] == r[j];
      }
    }
    if HasKey(xs, idx, x) {
      var j :| 0 <= j < |idx| && idx[j] < |xs| && xs[idx[j]] == x;
      var k :| 0 <= k < |r| && r[k] == idx[j];
    }
    if x == xs[i] && i in r {
      var k :| 0 <= k < |r| && r[k] == i;
    }
  }

  /** A key already present leaves the list unchanged. */
  lemma {:induction false} InsertPresent(xs: seq<real>, idx: seq<nat>, i: nat)
    requires i < |xs| && SortedIndices(xs, idx) && HasKey(xs, idx, xs[i])
    ensures InsertIndex(xs, idx, i) == idx
    decreases |idx|
  {
    if xs[i] != xs[idx[0]] {
      var j :| 0 <= j < |idx| && idx[j] < |xs| && xs[idx[j]] == xs[i];
      assert j > 0;
      assert xs[idx[0]] < xs[idx[j]];
      var tail := idx[1..];
      assert tail[j - 1] == idx[j];
      InsertPresent(xs, tail, i);
      assert idx == [idx[0]] + tail;
    }
  }

  /** A new key adds exactly one index. */
  lemma {:induction false} InsertAbsent(xs: seq<real>, idx: seq<nat>, i: nat)
    requires i < |xs| && InBounds(xs, idx) && !HasKey(xs, idx, xs[i])
    ensures |InsertIndex(xs, idx, i)| == |idx| + 1
    ensures i in InsertIndex(xs, idx, i)
    decreases |idx|
  {
    if |idx| > 0 {
      assert xs[idx[0]] != xs[i];
      if xs[i] > xs[idx[0]] {
        var tail := idx[1..];
        assert forall k :: 0 <= k < |tail| ==> tail[k] == idx[k + 1];
        InsertAbsent(xs, tail, i);
        var rest := InsertIndex(xs, tail, i);
        var k :| 0 <= k < |rest| && rest[k] == i;
        assert ([idx[0]] + rest)[k + 1] == i;
      }
    }
  }

  /** The first-occurrence indices of the distinct values among xs[..m]. */
  function UniqueUpTo(xs: seq<real>, m: nat): (r: seq<nat>)
    requires m <= |xs|
    ensures InBounds(xs, r)
    ensures forall j :: 0 <= j < |r| ==> r[j] < m
  {
    if m == 0 then []
    else
      InsertFrom(xs, UniqueUpTo(xs, m - 1), m - 1);
      InsertIndex(xs, UniqueUpTo(xs, m - 1), m - 1)
  }

  /** The kept indices are sorted by key, and their keys are exactly those of xs[..m]. */
  lemma UniqueUpToKeys(xs: seq<real>, m: nat)
    requires m <= |xs|
    ensures SortedIndices(xs, UniqueUpTo(xs, m))
    ensures forall x :: HasKey(xs, UniqueUpTo(xs, m), x) <==> x in xs[..m]
  {
    UniqueUpToSorted(xs, m);
    forall x ensures HasKey(xs, UniqueUpTo(xs, m), x) <==> x in xs[..m] {
      UniqueUpToHasKey(xs, m, x);
    }
  }

  lemma {:induction false} UniqueUpToSorted(xs: seq<real>, m: nat)
    requires m <= |xs|
    ensures SortedIndices(xs, UniqueUpTo(xs, m))
  {
    if m > 0 {
      var prev := UniqueUpTo(xs, m - 1);
      UniqueUpToSorted(xs, m - 1);
      InsertSorted(xs, prev, m - 1);
      assert UniqueUpTo(xs, m) == InsertIndex(xs, prev, m - 1);
    }
  }

  lemma {:induction false} UniqueUpToHasKey(xs: seq<real>, m: nat, x: real)
    requires m <= |xs|
    ensures HasKey(xs, UniqueUpTo(xs, m), x) <==> x in xs[..m]
  {
    if m > 0 {
      var prev := UniqueUpTo(xs, m - 1);
      UniqueUpToHasKey(xs, m - 1, x);
      assert UniqueUpTo(xs, m) == InsertIndex(xs, prev, m - 1);
      InsertKeys(xs, prev, m - 1, x);
      PrefixStep(xs, m, x);
    }
  }

  /** A value lies in xs[..m] exactly when it lies in xs[..m-1] or is xs[m-1]. */
  lemma PrefixStep(xs: seq<real>, m: nat, x: real)
    requires 0 < m <= |xs|
    ensures x in xs[..m] <==> x in xs[..m - 1] || x == xs[m - 1]
  {
    assert xs[..m] == xs[..m - 1] + [xs[m - 1]];
  }

  /** Every listed index is the first occurrence of its key in xs. */
  ghost predicate FirstOccurrences(xs: seq<real>, idx: seq<nat>)
    requires InBounds(xs, idx)
  {
    forall j, p :: 0 <= j < |idx| && 0 <= p < idx[j] ==> xs[p] != xs[idx[j]]
  }

  /** Every kept index is the first occurrence of its key. */
  lemma {:induction false} UniqueUpToFirst(xs: seq<real>, m: nat)
    requires m <= |xs|
    ensures forall j, p :: 0 <= j < |UniqueUpTo(xs, m)| && 0 <= p < UniqueUpTo(xs, m)[j] ==>
      xs[p] != xs[UniqueUpTo(xs, m)[j]]
  {
    if m > 0 {
      var prev := UniqueUpTo(xs, m - 1);
      UniqueUpToFirst(xs, m - 1);
      UniqueUpToKeys(xs, m - 1);
      InsertFirst(xs, prev, m - 1);
      assert UniqueUpTo(xs, m) == InsertIndex(xs, prev, m - 1);
    }
  }

  /** Inserting position i after the first occurrences within xs[..i] keeps first occurrences only. */
  lemma InsertFirst(xs: seq<real>, prev: seq<nat>, i: nat)
    requires i < |xs| && SortedIndices(xs, prev) && FirstOccurrences(xs, prev)
    requires forall x :: HasKey(xs, prev, x) <==> x in xs[..i]
    ensures FirstOccurrences(xs, InsertIndex(xs, prev, i))
  {
    var r := InsertIndex(xs, prev, i);
    InsertFrom(xs, prev, i);
    forall j, p | 0 <= j < |r| && 0 <= p < r[j] ensures xs[p] != xs[r[j]] {
      if r[j] in prev {
        var k :| 0 <= k < |prev| && prev[k] == r[j];
      } else {
        assert r[j] == i;
        assert !HasKey(xs, prev, xs[i]) by {
          if HasKey(xs, prev, xs[i]) {
            InsertPresent(xs, prev, i);
          }
        }
        assert xs[p] in xs[..i] by { assert xs[..i][p] == xs[p]; }
      }
    }
  }

  /** The second result of `np.unique(xs, return_index=True)`. */
  function UniqueIndices(xs: seq<real>): (idx: seq<nat>)
    ensures InBounds(xs, idx)
  {
    UniqueUpTo(xs, |xs|)
  }

  /** `vs[idx]`: numpy fancy indexing. */
  function Gather<T>(vs: seq<T>, idx: seq<nat>): (r: seq<T>)
    requires forall j :: 0 <= j < |idx| ==> idx[j] < |vs|
    ensures |r| == |idx|
    ensures forall j :: 0 <= j < |idx| ==> r[j] == vs[idx[j]]
  {
    seq(|idx|, j requires 0 <= j < |idx| => vs[idx[j]])
  }

  /** The first result of `np.unique(xs)`. */
  function UniqueValues(xs: seq<real>): (u: seq<real>)
    ensures |u| == |UniqueIndices(xs)|
    ensures forall j :: 0 <= j < |u| ==> u[j] == xs[UniqueIndices(xs)[j]]
  {
    Gather(xs, UniqueIndices(xs))
  }

  /**
   * What `np.unique(xs, return_index=True)` promises: the values are strictly
   * increasing, they are exactly the elements of xs, and each comes with the
   * index of its first occurrence.
   */
  lemma UniqueSpec(xs: seq<real>)
    ensures StrictlyIncreasing(UniqueValues(xs))
    ensures forall x :: x in UniqueValues(xs) <==> x in xs
    ensures forall j :: 0 <= j < |UniqueIndices(xs)| ==>
      xs[UniqueIndices(xs)[j]] == UniqueValues(xs)[j] &&
      forall p :: 0 <= p < UniqueIndices(xs)[j] ==> xs[p] != UniqueValues(xs)[j]
  {
    var idx := UniqueIndices(xs);
    var u := UniqueValues(xs);
    UniqueUpToKeys(xs, |xs|);
    UniqueUpToFirst(xs, |xs|);
    assert xs[..|xs|] == xs;
    forall x ensures x in u <==> x in xs {
      if x in xs {
        assert HasKey(xs, idx, x);
        var j :| 0 <= j < |idx| && idx[j] < |xs| && xs[idx[j]] == x;
        assert u[j] == x;
      }
    }
  }

  /** On a strictly increasing prefix the kept indices are 0, 1, ..., m-1. */
  lemma {:induction false} UniqueUpToIncreasing(xs: seq<real>, m: nat)
    requires m <= |xs|
    requires forall a, b :: 0 <= a < b < m ==> xs[a] < xs[b]
    ensures UniqueUpTo(xs, m) == seq(m, j => j)
  {
    if m > 0 {
      UniqueUpToIncreasing(xs, m - 1);
      var prev := seq(m - 1, j => j);
      InsertLargest(xs, prev, m - 1);
      assert prev + [m - 1] == seq(m, j => j);
    }
  }

  /** Inserting an index whose key exceeds every listed key appends it. */
  lemma {:induction false} InsertLargest(xs: seq<real>, idx: seq<nat>, i: nat)
    requires i < |xs| && InBounds(xs, idx)
    requires forall j :: 0 <= j < |idx| ==> xs[idx[j]] < xs[i]
    ensures InsertIndex(xs, idx, i) == idx + [i]
    decreases |idx|
  {
    if |idx| > 0 {
      var tail := idx[1..];
      assert forall j :: 0 <= j < |tail| ==> tail[j] == idx[j + 1];
      InsertLargest(xs, tail, i);
      assert [idx[0]] + (tail + [i]) == idx + [i];
    }
  }

  /** Over k more positions the list keeps its length or grows, by at most k. */
  lemma {:induction false} UniqueUpToGrowth(xs: seq<real>, m: nat, k: nat)
    requires m + k <= |xs|
    ensures |UniqueUpTo(xs, m)| <= |UniqueUpTo(xs, m + k)| <= |UniqueUpTo(xs, m)| + k
  {
    if k > 0 {
      UniqueUpToGrowth(xs, m, k - 1);
    }
  }
}
