/** Small shared vocabulary: optional values, sums over sequences, copies, and distinct elements. */
module Prelude {

  datatype Option<+T> = None | Some(value: T)

  /** The total weight of the elements of `xs`. */
  function Sum<T>(xs: seq<T>, weight: T -> nat): nat {
    if xs == [] then 0 else Sum(xs[..|xs| - 1], weight) + weight(xs[|xs| - 1])
  }

  lemma SumAppend<T>(xs: seq<T>, x: T, weight: T -> nat)
    ensures Sum(xs + [x], weight) == Sum(xs, weight) + weight(x)
  {
    assert (xs + [x])[..|xs|] == xs;
  }

  lemma {:induction false} SumUpdate<T>(xs: seq<T>, i: nat, y: T, weight: T -> nat)
    requires i < |xs|
    ensures Sum(xs[i := y], weight) + weight(xs[i]) == Sum(xs, weight) + weight(y)
  {
    var n := |xs| - 1;
    if i == n {
      assert xs[i := y][..n] == xs[..n];
    } else {
      assert xs[i := y][..n] == xs[..n][i := y];
      SumUpdate(xs[..n], i, y, weight);
    }
  }

  lemma {:induction false} SumPositive<T>(xs: seq<T>, weight: T -> nat)
    ensures Sum(xs, weight) > 0 <==> exists i :: 0 <= i < |xs| && weight(xs[i]) > 0
  {
    if xs == [] {
    } else {
      var n := |xs| - 1;
      SumPositive(xs[..n], weight);
      if i :| 0 <= i < |xs| && weight(xs[i]) > 0 {
        assert i < n ==> xs[..n][i] == xs[i];
      }
    }
  }

  function Copies<T>(n: nat, x: T): seq<T> { seq(n, _ => x) }

  predicate Distinct<T(==)>(xs: seq<T>) { forall i, j :: 0 <= i < j < |xs| ==> xs[i] != xs[j] }

  /** No element occurs twice: by position and by count. */
  lemma DistinctIff<T>(xs: seq<T>)
    ensures Distinct(xs) <==> forall x :: multiset(xs)[x] <= 1
  {
    if Distinct(xs) {
      forall x ensures multiset(xs)[x] <= 1 { DistinctOnce(xs, x); }
    }
    forall i, j | 0 <= i < j < |xs| && xs[i] == xs[j] ensures multiset(xs)[xs[i]] >= 2 { Twice(xs, i, j); }
  }

  lemma {:induction false} DistinctOnce<T>(xs: seq<T>, x: T)
    requires Distinct(xs)
    ensures multiset(xs)[x] <= 1
  {
    if xs == [] {
    } else {
      var init, last := xs[..|xs| - 1], xs[|xs| - 1];
      DistinctOnce(init, x);
      assert xs == init + [last] && last !in init;
    }
  }

  lemma Twice<T>(xs: seq<T>, i: nat, j: nat)
    requires i < j < |xs| && xs[i] == xs[j]
    ensures multiset(xs)[xs[i]] >= 2
  {
    assert xs == xs[..i] + [xs[i]] + xs[i + 1..j] + [xs[j]] + xs[j + 1..];
  }

  lemma UpdateTwice<T>(xs: seq<T>, i: nat, a: T, b: T)
    requires i < |xs|
    ensures xs[i := a][i := b] == xs[i := b]
  {
  }

  lemma Regroup<T>(a: seq<T>, b: seq<T>, c: seq<T>)
    ensures (a + b) + c == a + (b + c)
  {
  }
}
