/** Sums over sequences: how much the elements of a list contribute together to one job. */
module Sums {

  function Sum<T>(xs: seq<T>, j: nat, f: (T, nat) -> nat): nat {
    if xs == [] then 0 else f(xs[0], j) + Sum(xs[1..], j, f)
  }

  lemma {:induction false} SumUpdate<T>(xs: seq<T>, i: nat, x: T, j: nat, f: (T, nat) -> nat)
    requires i < |xs|
    ensures Sum(xs[i := x], j, f) + f(xs[i], j) == Sum(xs, j, f) + f(x, j)
  {
    if i == 0 {
      assert xs[0 := x][1..] == xs[1..];
    } else {
      SumUpdate(xs[1..], i - 1, x, j, f);
      assert xs[i := x][1..] == xs[1..][i - 1 := x];
    }
  }

  lemma {:induction false} SumAppend<T>(xs: seq<T>, x: T, j: nat, f: (T, nat) -> nat)
    ensures Sum(xs + [x], j, f) == Sum(xs, j, f) + f(x, j)
  {
    if xs == [] {
      assert xs + [x] == [x] && [x][1..] == [];
    } else {
      SumAppend(xs[1..], x, j, f);
      assert (xs + [x])[1..] == xs[1..] + [x];
    }
  }

  /** What one element contributes is part of the sum. */
  lemma {:induction false} SumIncludes<T>(xs: seq<T>, i: nat, j: nat, f: (T, nat) -> nat)
    requires i < |xs|
    ensures f(xs[i], j) <= Sum(xs, j, f)
  {
    if i > 0 {
      SumIncludes(xs[1..], i - 1, j, f);
    }
  }

  /** Elements that all contribute the same amount. */
  lemma {:induction false} SumConstant<T>(xs: seq<T>, j: nat, f: (T, nat) -> nat, c: nat)
    requires forall i | 0 <= i < |xs| :: f(xs[i], j) == c
    ensures Sum(xs, j, f) == c * |xs|
  {
    if xs != [] {
      forall i | 0 <= i < |xs| - 1 ensures f(xs[1..][i], j) == c {
        assert xs[1..][i] == xs[i + 1];
      }
      SumConstant(xs[1..], j, f, c);
    }
  }

  function Is(x: nat, j: nat): nat { if x == j then 1 else 0 }

  lemma {:induction false} SumIsMultiplicity(xs: seq<nat>, j: nat)
    ensures Sum(xs, j, Is) == multiset(xs)[j]
  {
    if xs != [] {
      SumIsMultiplicity(xs[1..], j);
      assert xs == [xs[0]] + xs[1..];
    }
  }
}
