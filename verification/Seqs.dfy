// Linear scans and totals over sequences: the value-level counterparts of the
// `while (current != NULL)` loops of the server.
module Seqs {

  // The first index from `i` on whose element satisfies `p`, or |xs| when there is none.
  function FirstFrom<T>(xs: seq<T>, p: T -> bool, i: nat): (k: nat)
    requires i <= |xs|
    ensures i <= k <= |xs|
    ensures forall j :: i <= j < k ==> !p(xs[j])
    ensures k < |xs| ==> p(xs[k])
    decreases |xs| - i
  {
    if i == |xs| || p(xs[i]) then i else FirstFrom(xs, p, i + 1)
  }

  function FirstIndex<T>(xs: seq<T>, p: T -> bool): (k: nat)
    ensures k <= |xs|
    ensures forall j :: 0 <= j < k ==> !p(xs[j])
    ensures k < |xs| ==> p(xs[k])
  {
    FirstFrom(xs, p, 0)
  }

  function RemoveAt<T>(xs: seq<T>, i: nat): (ys: seq<T>)
    requires i < |xs|
    ensures |ys| == |xs| - 1
    ensures forall k :: 0 <= k < i ==> ys[k] == xs[k]
    ensures forall k :: i <= k < |ys| ==> ys[k] == xs[k + 1]
  {
    xs[..i] + xs[i + 1..]
  }

  ghost predicate Distinct<T>(xs: seq<T>) {
    forall i, j :: 0 <= i < j < |xs| ==> xs[i] != xs[j]
  }

  lemma DistinctRemoveAt<T>(xs: seq<T>, k: nat)
    requires k < |xs| && Distinct(xs)
    ensures Distinct(RemoveAt(xs, k))
  {
    var ys := RemoveAt(xs, k);
    forall i, j | 0 <= i < j < |ys| ensures ys[i] != ys[j] {
      var a, b := if i < k then i else i + 1, if j < k then j else j + 1;
      assert xs[a] != xs[b];
    }
  }

  // The sum of `f` over the elements.
  function Total<T>(xs: seq<T>, f: T -> int): int
  {
    if |xs| == 0 then 0 else Total(xs[..|xs| - 1], f) + f(xs[|xs| - 1])
  }

  lemma {:induction false} TotalAppend<T>(xs: seq<T>, y: T, f: T -> int)
    ensures Total(xs + [y], f) == Total(xs, f) + f(y)
  {
    assert (xs + [y])[..|xs|] == xs;
  }

  lemma {:induction false} TotalUpdate<T>(xs: seq<T>, i: nat, y: T, f: T -> int)
    requires i < |xs|
    ensures Total(xs[i := y], f) == Total(xs, f) - f(xs[i]) + f(y)
  {
    var n := |xs| - 1;
    if i == n {
      assert xs[i := y][..n] == xs[..n];
    } else {
      assert xs[i := y][..n] == xs[..n][i := y];
      TotalUpdate(xs[..n], i, y, f);
    }
  }

  // Two sequences with pointwise equal contributions have the same total.
  lemma {:induction false} TotalSame<T>(xs: seq<T>, ys: seq<T>, f: T -> int)
    requires |xs| == |ys|
    requires forall i :: 0 <= i < |xs| ==> f(xs[i]) == f(ys[i])
    ensures Total(xs, f) == Total(ys, f)
  {
    if |xs| > 0 {
      TotalSame(xs[..|xs| - 1], ys[..|ys| - 1], f);
    }
  }

  lemma {:induction false} TotalZero<T>(xs: seq<T>, f: T -> int)
    requires forall i :: 0 <= i < |xs| ==> f(xs[i]) == 0
    ensures Total(xs, f) == 0
  {
    if |xs| > 0 {
      TotalZero(xs[..|xs| - 1], f);
    }
  }

  lemma {:induction false} TotalBound<T>(xs: seq<T>, f: T -> int)
    requires forall i :: 0 <= i < |xs| ==> 0 <= f(xs[i])
    ensures Total(xs, f) >= 0
    ensures forall i :: 0 <= i < |xs| ==> f(xs[i]) <= Total(xs, f)
  {
    if |xs| > 0 {
      var init := xs[..|xs| - 1];
      TotalBound(init, f);
      forall i | 0 <= i < |xs| ensures f(xs[i]) <= Total(xs, f) {
        if i < |init| {
          assert init[i] == xs[i];
        }
      }
    }
  }

  // Two distinct elements contribute at most the total.
  lemma {:induction false} TotalPair<T>(xs: seq<T>, f: T -> int, i: nat, j: nat)
    requires i < j < |xs|
    requires forall k :: 0 <= k < |xs| ==> 0 <= f(xs[k])
    ensures f(xs[i]) + f(xs[j]) <= Total(xs, f)
  {
    var init := xs[..|xs| - 1];
    if j < |init| {
      TotalPair(init, f, i, j);
    } else {
      TotalBound(init, f);
      assert init[i] == xs[i];
    }
  }

  // A positive total has an element that contributes to it.
  lemma {:induction false} TotalWitness<T>(xs: seq<T>, f: T -> int) returns (i: nat)
    requires Total(xs, f) > 0
    ensures i < |xs| && f(xs[i]) > 0
  {
    var n := |xs| - 1;
    if f(xs[n]) > 0 {
      i := n;
    } else {
      i := TotalWitness(xs[..n], f);
    }
  }
}
