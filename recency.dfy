/** `recencyWeights(n, lambda)` of the predictor script: entry `i` of the
    result is `exp(-lambda * (n - 1 - i))`, so the newest entry weighs 1 and
    each step back multiplies the weight by `exp(-lambda)`. The model takes
    that factor as the parameter `decay` and writes the weight as
    `decay` to the power of the distance from the newest entry. */
module Recency {
  import opened Common

  /** `exp(-0.08)`, the factor for the `lambda = 0.08` every caller passes,
      to sixteen decimals. */
  const DEFAULT_DECAY: real := 0.9231163463866358

  /** `b` to the power `d`; with `b = decay` the weight of an entry that
      lies `d` steps before the newest one. */
  function Pow(b: real, d: nat): real {
    if d == 0 then 1.0 else b * Pow(b, d - 1)
  }

  /** The weights of `n` entries, oldest first: the oldest lies `n - 1`
      steps before the newest, and the rest are the weights of `n - 1`
      entries. */
  function Weights(n: nat, decay: real): (ws: seq<real>)
    ensures |ws| == n
  {
    if n == 0 then [] else [Pow(decay, n - 1)] + Weights(n - 1, decay)
  }

  /** Entry `i` of `recencyWeights(n)` is `exp(-lambda * (n - 1 - i))`: it
      depends only on its distance from the newest entry. */
  lemma {:induction false} WeightAt(n: nat, decay: real, i: nat)
    requires i < n
    ensures Weights(n, decay)[i] == Pow(decay, n - 1 - i)
  {
    if i > 0 {
      WeightAt(n - 1, decay, i - 1);
    }
  }

  /** `recencyWeights(n, lambda)`: push one weight per index. */
  method RecencyWeights(n: nat, decay: real) returns (arr: seq<real>)
    ensures arr == Weights(n, decay)
  {
    arr := [];
    for i := 0 to n
      invariant arr == Weights(n, decay)[..i]
    {
      WeightAt(n, decay, i);
      assert Weights(n, decay)[..i + 1] == Weights(n, decay)[..i] + [Pow(decay, n - 1 - i)];
      arr := arr + [Pow(decay, n - 1 - i)];
    }
    assert Weights(n, decay)[..n] == Weights(n, decay);
  }

  lemma MultiplyAtMostOne(b: real, p: real)
    requires 0.0 < b <= 1.0 && 0.0 < p
    ensures b * p <= p
  {
    if b < 1.0 {
      MultiplyShrinks(b, p);
    }
  }

  lemma MultiplyPositive(b: real, p: real)
    requires 0.0 < b && 0.0 < p
    ensures 0.0 < b * p
  {
  }

  lemma MultiplyShrinks(b: real, p: real)
    requires 0.0 < b < 1.0 && 0.0 < p
    ensures b * p < p
  {
  }

  /** A positive base gives a positive power, and a base of at most one a
      power of at most one. */
  lemma {:induction false} PowBounds(b: real, d: nat)
    requires 0.0 < b
    ensures Pow(b, d) > 0.0
    ensures b <= 1.0 ==> Pow(b, d) <= 1.0
  {
    if d > 0 {
      var p := Pow(b, d - 1);
      PowBounds(b, d - 1);
      assert Pow(b, d) == b * p;
      MultiplyPositive(b, p);
      if b <= 1.0 {
        MultiplyAtMostOne(b, p);
      }
    }
  }

  /** For `0 < decay < 1` one more step back is a smaller weight. */
  lemma PowStep(b: real, d: nat)
    requires 0.0 < b < 1.0
    ensures Pow(b, d + 1) < Pow(b, d)
  {
    PowBounds(b, d);
    assert Pow(b, d + 1) == b * Pow(b, d);
    MultiplyShrinks(b, Pow(b, d));
  }

  /** For `0 < decay < 1` a larger power is a smaller weight. */
  lemma {:induction false} PowDecreasing(b: real, d1: nat, d2: nat)
    requires 0.0 < b < 1.0 && d1 < d2
    ensures Pow(b, d2) < Pow(b, d1)
    decreases d2
  {
    PowStep(b, d2 - 1);
    if d1 < d2 - 1 {
      PowDecreasing(b, d1, d2 - 1);
    }
  }

  /** `exp(-lambda)` for `lambda = 0.08` lies strictly between 0 and 1. */
  lemma DefaultDecayInRange()
    ensures 0.0 < DEFAULT_DECAY < 1.0
  {
  }

  /** The newest entry weighs `exp(0) = 1`. */
  lemma NewestWeighsOne(n: nat, decay: real)
    requires n > 0
    ensures Weights(n, decay)[n - 1] == 1.0
  {
    WeightAt(n, decay, n - 1);
  }

  /** The weights of the newest `m` entries do not depend on how many older
      entries there are. */
  lemma {:induction false} WeightsSuffix(n: nat, m: nat, decay: real)
    requires m <= n
    ensures Weights(n, decay)[n - m..] == Weights(m, decay)
    decreases n - m
  {
    if m < n {
      WeightsSuffix(n, m + 1, decay);
      assert Weights(n, decay)[n - m..] == Weights(n, decay)[n - (m + 1)..][1..];
    }
  }

  /** For a positive `decay` every weight is positive, and for a `decay` of
      at most one no weight exceeds the newest. */
  lemma WeightsBounded(n: nat, decay: real)
    requires 0.0 < decay
    ensures forall i | 0 <= i < n :: Weights(n, decay)[i] > 0.0
    ensures decay <= 1.0 ==> forall i | 0 <= i < n :: Weights(n, decay)[i] <= 1.0
  {
    forall i | 0 <= i < n ensures Weights(n, decay)[i] > 0.0 && (decay <= 1.0 ==> Weights(n, decay)[i] <= 1.0) {
      WeightAt(n, decay, i);
      PowBounds(decay, n - 1 - i);
    }
  }

  /** For `0 < decay < 1` the weights strictly increase towards the newest. */
  lemma WeightsIncreasing(n: nat, decay: real)
    requires 0.0 < decay < 1.0
    ensures forall i, j | 0 <= i < j < n :: Weights(n, decay)[i] < Weights(n, decay)[j]
  {
    forall i, j | 0 <= i < j < n ensures Weights(n, decay)[i] < Weights(n, decay)[j] {
      WeightAt(n, decay, i);
      WeightAt(n, decay, j);
      PowDecreasing(decay, n - 1 - j, n - 1 - i);
    }
  }

  /** The window weights `generatePrediction` uses, those for
      `lambda = 0.08`, are positive, at most 1 and strictly increase towards
      the newest entry. */
  lemma DefaultWeightsIncreasing(n: nat)
    ensures forall i | 0 <= i < n :: 0.0 < Weights(n, DEFAULT_DECAY)[i] <= 1.0
    ensures forall i, j | 0 <= i < j < n :: Weights(n, DEFAULT_DECAY)[i] < Weights(n, DEFAULT_DECAY)[j]
  {
    DefaultDecayInRange();
    WeightsBounded(n, DEFAULT_DECAY);
    WeightsIncreasing(n, DEFAULT_DECAY);
  }
}
