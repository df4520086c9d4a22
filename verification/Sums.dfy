/**
 Sums over the markets of an account.
 */
module Sums {

  const LOTS: nat := 1_000  // position sizes carry three decimals

  function Sum(xs: seq<int>): int {
    if xs == [] then 0 else xs[0] + Sum(xs[1..])
  }

  lemma {:induction false} SumMono(xs: seq<int>, ys: seq<int>)
    requires |xs| == |ys| && forall i :: 0 <= i < |xs| ==> xs[i] <= ys[i]
    ensures Sum(xs) <= Sum(ys)
  {
    if xs != [] {
      SumMono(xs[1..], ys[1..]);
    }
  }

  lemma {:induction false} SumNegates(xs: seq<int>, ys: seq<int>)
    requires |xs| == |ys| && forall i :: 0 <= i < |xs| ==> ys[i] == -xs[i]
    ensures Sum(ys) == -Sum(xs)
  {
    if xs != [] {
      SumNegates(xs[1..], ys[1..]);
    }
  }

  /** Flooring each term loses less than one unit a term, so less than the number of terms in all. */
  lemma {:induction false} SumOfFloors(xs: seq<int>, floors: seq<int>)
    requires |xs| == |floors| && forall i :: 0 <= i < |xs| ==> floors[i] == xs[i] / LOTS
    ensures LOTS * Sum(floors) <= Sum(xs) <= LOTS * Sum(floors) + (LOTS - 1) * |xs|
  {
    if xs != [] {
      SumOfFloors(xs[1..], floors[1..]);
    }
  }

  /** Terms that are each less than one unit off their exact thousandths are off by less than their number in all. */
  lemma {:induction false} SumOfRounded(xs: seq<int>, exact: seq<int>)
    requires |xs| == |exact| && forall i :: 0 <= i < |xs| ==> exact[i] - LOTS < LOTS * xs[i] < exact[i] + LOTS
    ensures Sum(exact) - (LOTS - 1) * |xs| <= LOTS * Sum(xs) <= Sum(exact) + (LOTS - 1) * |xs|
  {
    if xs != [] {
      SumOfRounded(xs[1..], exact[1..]);
    }
  }

  /** Termwise bounds by weights carry over to the sums, and no weight exceeds their sum. */
  lemma {:induction false} SumsWithinWeights(xs: seq<int>, ys: seq<int>, zs: seq<int>, weights: seq<int>)
    requires |xs| == |ys| == |zs| == |weights|
    requires forall i :: 0 <= i < |xs| ==>
               && 0 <= xs[i] && 0 <= ys[i] && LOTS * (xs[i] + ys[i]) <= weights[i]
               && LOTS * zs[i] <= weights[i] && -weights[i] <= LOTS * zs[i]
    ensures 0 <= Sum(xs) && 0 <= Sum(ys) && LOTS * (Sum(xs) + Sum(ys)) <= Sum(weights)
    ensures -Sum(weights) <= LOTS * Sum(zs) <= Sum(weights)
    ensures forall i :: 0 <= i < |xs| ==> weights[i] <= Sum(weights)
  {
    if xs != [] {
      SumsWithinWeights(xs[1..], ys[1..], zs[1..], weights[1..]);
      forall i | 0 <= i < |xs|
        ensures weights[i] <= Sum(weights)
      {
        if 0 < i { assert weights[i] == weights[1..][i - 1]; }
      }
    }
  }

  lemma {:induction false} SumOfZeros(xs: seq<int>)
    requires forall i :: 0 <= i < |xs| ==> xs[i] == 0
    ensures Sum(xs) == 0
  {
    if xs != [] {
      SumOfZeros(xs[1..]);
    }
  }

  lemma {:induction false} SumUpdate(xs: seq<int>, i: nat, v: int)
    requires i < |xs|
    ensures Sum(xs[i := v]) == Sum(xs) - xs[i] + v
  {
    if i == 0 {
      assert xs[0 := v][1..] == xs[1..];
    } else {
      assert xs[i := v][1..] == xs[1..][i - 1 := v];
      SumUpdate(xs[1..], i - 1, v);
    }
  }
}
