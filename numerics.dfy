/** Small numeric and sequence helpers over log10-frequencies (reals). */
module Numerics {

  datatype Option<+T> = None | Some(value: T)

  function Abs(x: real): (r: real)
    ensures r >= 0.0
    ensures r == x || r == -x
  {
    if x < 0.0 then -x else x
  }

  /** Strictly ascending and therefore free of duplicates. */
  ghost predicate StrictlyIncreasing(s: seq<real>) {
    forall i, j :: 0 <= i < j < |s| ==> s[i] < s[j]
  }

  /** Python's builtin `max` over a non-empty one-dimensional array. */
  function Max(s: seq<real>): (m: real)
    requires |s| > 0
    ensures m in s
    ensures forall i :: 0 <= i < |s| ==> s[i] <= m
  {
    if |s| == 1 then s[0]
    else
      var rest := Max(s[1..]);
      assert forall i :: 1 <= i < |s| ==> s[i] == s[1..][i - 1];
      if s[0] >= rest then s[0] else rest
  }

  /** `np.diff`: consecutive differences, one fewer than the input. */
  function Diff(s: seq<real>): (d: seq<real>)
    ensures |d| == if |s| == 0 then 0 else |s| - 1
    ensures forall j :: 0 <= j < |d| ==> s[j] + d[j] == s[j + 1]
  {
    if |s| == 0 then [] else seq(|s| - 1, j requires 0 <= j < |s| - 1 => s[j + 1] - s[j])
  }

  /** `s[np.arange(s.size) != i]`: the sequence without its i-th entry. */
  function RemoveAt<T>(s: seq<T>, i: nat): (r: seq<T>)
    requires i < |s|
    ensures |r| == |s| - 1
    ensures forall j :: 0 <= j < i ==> r[j] == s[j]
    ensures forall j :: i <= j < |r| ==> r[j] == s[j + 1]
  {
    s[..i] + s[i + 1..]
  }

  lemma RemoveAtIncreasing(s: seq<real>, i: nat)
    requires i < |s| && StrictlyIncreasing(s)
    ensures StrictlyIncreasing(RemoveAt(s, i))
  {
    var r := RemoveAt(s, i);
    forall a, b | 0 <= a < b < |r| ensures r[a] < r[b] {
      var a' := if a < i then a else a + 1;
      var b' := if b < i then b else b + 1;
      assert r[a] == s[a'] && r[b] == s[b'] && a' < b';
    }
  }

  /** `np.linspace(start, stop, num)`, the exponent grid behind `np.logspace`. */
  function Linspace(start: real, stop: real, num: nat): (r: seq<real>)
    ensures |r| == num
    ensures num >= 1 ==> r[0] == start
    ensures num >= 2 ==> r[num - 1] == stop
  {
    if num == 0 then []
    else if num == 1 then [start]
    else
      var step := (stop - start) / ((num - 1) as real);
      assert ((num - 1) as real) * step == stop - start;
      seq(num, k requires 0 <= k < num => start + (k as real) * step)
  }

  lemma {:induction false} LinspaceIncreasing(start: real, stop: real, num: nat)
    requires start < stop
    ensures StrictlyIncreasing(Linspace(start, stop, num))
  {
    if num >= 2 {
      var r := Linspace(start, stop, num);
      var step := (stop - start) / ((num - 1) as real);
      assert step > 0.0;
      forall a, b | 0 <= a < b < num ensures r[a] < r[b] {
        assert r[a] == start + (a as real) * step;
        assert r[b] == start + (b as real) * step;
        assert r[b] - r[a] == ((b - a) as real) * step;
        StrictProductPositive((b - a) as real, step);
      }
    }
  }

  /** Consecutive points of the grid are one step apart. */
  lemma LinspaceStep(start: real, stop: real, num: nat)
    requires num >= 2
    ensures forall k :: 0 <= k < num - 1 ==>
      Linspace(start, stop, num)[k + 1] - Linspace(start, stop, num)[k] == (stop - start) / ((num - 1) as real)
  {
    var r := Linspace(start, stop, num);
    var step := (stop - start) / ((num - 1) as real);
    forall k | 0 <= k < num - 1 ensures r[k + 1] - r[k] == step {
      assert r[k + 1] == start + ((k + 1) as real) * step;
      assert r[k] == start + (k as real) * step;
      assert ((k + 1) as real) * step == (k as real) * step + step;
    }
  }

  lemma StrictProductPositive(x: real, y: real)
    requires x > 0.0 && y > 0.0
    ensures x * y > 0.0
  {
  }

  /** Two strictly ascending sequences with the same elements are equal. */
  lemma {:induction false} IncreasingUnique(a: seq<real>, b: seq<real>)
    requires StrictlyIncreasing(a) && StrictlyIncreasing(b)
    requires forall x :: x in a <==> x in b
    ensures a == b
    decreases |a| + |b|
  {
    if |a| > 0 { assert a[0] in a; assert a[0] in b; }
    if |b| > 0 { assert b[0] in b; assert b[0] in a; }
    if |a| > 0 {
      var ia :| 0 <= ia < |a| && a[ia] == b[0];
      var ib :| 0 <= ib < |b| && b[ib] == a[0];
      assert a[0] <= a[ia] && b[0] <= b[ib];
      assert a[0] == b[0];
      forall x ensures x in a[1..] <==> x in b[1..] {
        if x in a[1..] {
          var k :| 1 <= k < |a| && a[k] == x;
          assert x in b && x != b[0];
          var m :| 0 <= m < |b| && b[m] == x;
          assert m != 0;
          assert b[1..][m - 1] == x;
        }
        if x in b[1..] {
          var k :| 1 <= k < |b| && b[k] == x;
          assert x in a && x != a[0];
          var m :| 0 <= m < |a| && a[m] == x;
          assert m != 0;
          assert a[1..][m - 1] == x;
        }
      }
      IncreasingUnique(a[1..], b[1..]);
      assert a == [a[0]] + a[1..] && b == [b[0]] + b[1..];
    }
  }
}
