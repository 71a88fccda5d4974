/** Facts about sets and sequences that several parts of the model share. */
module Collections {
  /** No element twice. */
  predicate Distinct(s: seq<nat>)
  {
    forall i, j :: 0 <= i < j < |s| ==> s[i] != s[j]
  }

  lemma SubsetSize<T>(a: set<T>, b: set<T>)
    requires a <= b
    ensures |a| <= |b|
  {
    assert b == a + (b - a);
  }

  function Sum(x: seq<int>): (s: int)
  {
    if x == [] then 0 else Sum(x[..|x| - 1]) + x[|x| - 1]
  }

  lemma {:induction false} SumUpdate(x: seq<int>, k: nat, v: int)
    requires k < |x|
    ensures Sum(x[k := v]) == Sum(x) - x[k] + v
  {
    var n := |x| - 1;
    if k < n {
      SumUpdate(x[..n], k, v);
      assert x[k := v][..n] == x[..n][k := v];
    } else {
      assert x[k := v][..n] == x[..n];
    }
  }

  lemma {:induction false} ZeroSum(x: seq<int>)
    requires forall k :: 0 <= k < |x| ==> x[k] == 0
    ensures Sum(x) == 0
  {
    if x != [] {
      ZeroSum(x[..|x| - 1]);
    }
  }

  lemma {:induction false} BoundedSum(x: seq<int>, m: int)
    requires forall k :: 0 <= k < |x| ==> x[k] <= m
    ensures Sum(x) <= m * |x|
  {
    if x != [] {
      BoundedSum(x[..|x| - 1], m);
      assert m * |x| == m * (|x| - 1) + m;
    }
  }
}
