/** Sums over sequences, for the step counts of the protocols. */
module Sums {

  function Sum(xs: seq<int>): int {
    if xs == [] then 0 else Sum(xs[..|xs| - 1]) + xs[|xs| - 1]
  }

  lemma {:induction false} SumUpdate(xs: seq<int>, i: nat, x: int)
    requires i < |xs|
    ensures Sum(xs[i := x]) == Sum(xs) - xs[i] + x
    decreases |xs|
  {
    var n := |xs| - 1;
    if i == n {
      assert xs[i := x][..n] == xs[..n];
    } else {
      assert xs[i := x][..n] == xs[..n][i := x];
      SumUpdate(xs[..n], i, x);
    }
  }

  lemma {:induction false} SumBounded(xs: seq<int>, limit: nat)
    requires forall i :: 0 <= i < |xs| ==> 0 <= xs[i] <= limit
    ensures 0 <= Sum(xs) <= |xs| * limit
    decreases |xs|
  {
    if xs != [] {
      SumBounded(xs[..|xs| - 1], limit);
      assert |xs| * limit == (|xs| - 1) * limit + limit;
    }
  }
}
