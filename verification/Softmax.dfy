/**
  The softmax confidence. The exponential is any function with the four laws below: the results hold
  for the real exponential to every base above 1, and use nothing else about it.
 */
module Softmax {
  import opened Sums
  import opened Vectors

  predicate Positive(exp: real -> real, x: real) {
    exp(x) > 0.0
  }

  predicate Increases(exp: real -> real, x: real, y: real) {
    x < y ==> exp(x) < exp(y)
  }

  predicate Adds(exp: real -> real, x: real, y: real) {
    exp(x + y) == exp(x) * exp(y)
  }

  ghost predicate IsExp(exp: real -> real) {
    && exp(0.0) == 1.0
    && (forall x :: Positive(exp, x))
    && (forall x, y :: Increases(exp, x, y))
    && (forall x, y :: Adds(exp, x, y))
  }

  lemma ExpPositive(exp: real -> real, x: real)
    requires IsExp(exp)
    ensures exp(x) > 0.0
  {
    assert Positive(exp, x);
  }

  lemma ExpAdds(exp: real -> real, x: real, y: real)
    requires IsExp(exp)
    ensures exp(x + y) == exp(x) * exp(y)
  {
    assert Adds(exp, x, y);
  }

  lemma ExpMonotone(exp: real -> real, x: real, y: real)
    requires IsExp(exp) && x <= y
    ensures exp(x) <= exp(y) && (x < y ==> exp(x) < exp(y))
  {
    assert Increases(exp, x, y);
  }

  function SumExp(exp: real -> real, z: Vector): real {
    if z == [] then 0.0 else SumExp(exp, z[..|z| - 1]) + exp(z[|z| - 1])
  }

  function Shift(z: Vector, c: real): Vector {
    seq(|z|, i requires 0 <= i < |z| => z[i] + c)
  }

  /** What the program computes from the logits and the winner. */
  function Confidence(exp: real -> real, z: Vector, best: nat): real
    requires best < |z|
  {
    var sum := SumExp(exp, Shift(z, -z[best]));
    if sum == 0.0 then 0.0 else 1.0 / sum
  }

  /** The probability softmax gives to class i. */
  function Probability(exp: real -> real, z: Vector, i: nat): real
    requires i < |z|
  {
    if SumExp(exp, z) == 0.0 then 0.0 else exp(z[i]) / SumExp(exp, z)
  }

  lemma {:induction false} SumExpPositive(exp: real -> real, z: Vector)
    requires IsExp(exp) && z != []
    ensures SumExp(exp, z) > 0.0
  {
    if |z| > 1 {
      SumExpPositive(exp, z[..|z| - 1]);
    }
    ExpPositive(exp, z[|z| - 1]);
  }

  lemma Distribute(a: real, b: real, k: real)
    ensures (a + b) * k == a * k + b * k
  {
  }

  /** Scaling every term scales the sum; stated for any family of terms, so that no law is in the way. */
  lemma {:induction false} ScaledSum(exp: real -> real, y: Vector, z: Vector, k: real)
    requires |y| == |z| && forall i :: 0 <= i < |z| ==> exp(y[i]) == exp(z[i]) * k
    ensures SumExp(exp, y) == SumExp(exp, z) * k
  {
    if z != [] {
      var n := |z| - 1;
      ScaledSum(exp, y[..n], z[..n], k);
      Distribute(SumExp(exp, z[..n]), exp(z[n]), k);
    }
  }

  /** Adding a constant to every logit scales the sum. */
  lemma SumExpShift(exp: real -> real, z: Vector, c: real)
    requires IsExp(exp)
    ensures SumExp(exp, Shift(z, c)) == SumExp(exp, z) * exp(c)
  {
    forall i | 0 <= i < |z|
      ensures exp(Shift(z, c)[i]) == exp(z[i]) * exp(c)
    {
      ExpAdds(exp, z[i], c);
    }
    ScaledSum(exp, Shift(z, c), z, exp(c));
  }

  lemma InverseScale(a: real, s: real, k: real)
    requires s > 0.0 && k > 0.0 && a * k == 1.0
    ensures s * k > 0.0 && 1.0 / (s * k) == a / s
  {
  }

  lemma ExpInverse(exp: real -> real, m: real)
    requires IsExp(exp)
    ensures exp(m) > 0.0 && exp(-m) > 0.0 && exp(m) * exp(-m) == 1.0
  {
    ExpPositive(exp, m);
    ExpPositive(exp, -m);
    ExpAdds(exp, m, -m);
    assert m + -m == 0.0;
  }

  /** The confidence is the winner's softmax probability. */
  lemma ConfidenceIsProbability(exp: real -> real, z: Vector, best: nat)
    requires IsExp(exp) && best < |z|
    ensures Confidence(exp, z, best) == Probability(exp, z, best)
  {
    var m, sum := z[best], SumExp(exp, z);
    SumExpPositive(exp, z);
    SumExpShift(exp, z, -m);
    ExpInverse(exp, m);
    InverseScale(exp(m), sum, exp(-m));
  }

  lemma Divided(a: real, b: real, s: real)
    requires s > 0.0 && a <= b
    ensures a / s <= b / s && (a < b ==> a / s < b / s)
  {
  }

  /** No class has a greater probability than the winner's confidence. */
  lemma ConfidenceIsGreatest(exp: real -> real, z: Vector, best: nat, i: nat)
    requires IsExp(exp) && IsFirstMax(z, best) && i < |z|
    ensures Probability(exp, z, i) <= Confidence(exp, z, best)
  {
    ConfidenceIsProbability(exp, z, best);
    SumExpPositive(exp, z);
    ExpMonotone(exp, z[i], z[best]);
    Divided(exp(z[i]), exp(z[best]), SumExp(exp, z));
  }

  lemma ConfidenceIgnoresShift(exp: real -> real, z: Vector, best: nat, c: real)
    requires IsExp(exp) && best < |z|
    ensures Confidence(exp, Shift(z, c), best) == Confidence(exp, z, best)
  {
    assert Shift(Shift(z, c), -Shift(z, c)[best]) == Shift(z, -z[best]);
  }

  /** A sum of exponentials of non-positive numbers is at most their count, and equal only if all are 0. */
  lemma {:induction false} SumExpBound(exp: real -> real, y: Vector)
    requires IsExp(exp) && forall i :: 0 <= i < |y| ==> y[i] <= 0.0
    ensures SumExp(exp, y) <= |y| as real
    ensures SumExp(exp, y) == |y| as real <==> forall i :: 0 <= i < |y| ==> y[i] == 0.0
  {
    if y != [] {
      var n := |y| - 1;
      SumExpBound(exp, y[..n]);
      ExpMonotone(exp, y[n], 0.0);
      assert exp(y[n]) == 1.0 <==> y[n] == 0.0;
      assert (forall i :: 0 <= i < |y| ==> y[i] == 0.0) <==> (y[n] == 0.0 && forall i :: 0 <= i < n ==> y[..n][i] == 0.0);
    }
  }

  /** Each term is at most the sum. */
  lemma {:induction false} TermInSum(exp: real -> real, y: Vector, i: nat)
    requires IsExp(exp) && i < |y|
    ensures exp(y[i]) <= SumExp(exp, y)
  {
    var n := |y| - 1;
    if i < n {
      TermInSum(exp, y[..n], i);
      ExpPositive(exp, y[n]);
    } else if n > 0 {
      SumExpPositive(exp, y[..n]);
    }
  }

  lemma Reciprocal(s: real, n: real)
    requires 1.0 <= s <= n
    ensures 1.0 / n <= 1.0 / s <= 1.0
    ensures 1.0 / s == 1.0 / n <==> s == n
  {
  }

  /** The confidence is between 1/n and 1, and is 1/n exactly when all n logits are equal. */
  lemma ConfidenceBounds(exp: real -> real, z: Vector, best: nat)
    requires IsExp(exp) && IsFirstMax(z, best)
    ensures 1.0 / |z| as real <= Confidence(exp, z, best) <= 1.0
    ensures Confidence(exp, z, best) == 1.0 / |z| as real <==> forall i :: 0 <= i < |z| ==> z[i] == z[best]
  {
    var y := Shift(z, -z[best]);
    SumExpBound(exp, y);
    TermInSum(exp, y, best);
    Reciprocal(SumExp(exp, y), |z| as real);
    assert forall i :: 0 <= i < |z| ==> (y[i] == 0.0 <==> z[i] == z[best]);
  }

  // ---- the probabilities are softmax's ----

  function Probabilities(exp: real -> real, z: Vector): (v: Vector)
    ensures |v| == |z|
  {
    seq(|z|, i requires 0 <= i < |z| => Probability(exp, z, i))
  }

  lemma {:induction false} SharesAddUp(exp: real -> real, z: Vector, v: Vector, s: real)
    requires s > 0.0 && |v| == |z| && forall i :: 0 <= i < |z| ==> v[i] * s == exp(z[i])
    ensures RealSum(v) * s == SumExp(exp, z)
  {
    if z != [] {
      var n := |z| - 1;
      SharesAddUp(exp, z[..n], v[..n], s);
      Distribute(RealSum(v[..n]), v[n], s);
    }
  }

  lemma QuotientOf(a: real, s: real)
    requires s > 0.0
    ensures a / s * s == a
  {
  }

  /** What the probability of class i is in terms of the sum. */
  lemma ShareOf(exp: real -> real, z: Vector, i: nat, s: real)
    requires IsExp(exp) && i < |z| && s == SumExp(exp, z) && s > 0.0
    ensures Probability(exp, z, i) * s == exp(z[i]) && Probability(exp, z, i) > 0.0
  {
    QuotientOf(exp(z[i]), s);
    ExpPositive(exp, z[i]);
    Divided(0.0, exp(z[i]), s);
  }

  /** The classes' probabilities add up to 1. */
  lemma ProbabilitiesAddUp(exp: real -> real, z: Vector)
    requires IsExp(exp) && z != []
    ensures RealSum(Probabilities(exp, z)) == 1.0
  {
    var s := SumExp(exp, z);
    SumExpPositive(exp, z);
    forall i | 0 <= i < |z|
      ensures Probabilities(exp, z)[i] * s == exp(z[i])
    {
      ShareOf(exp, z, i, s);
    }
    SharesAddUp(exp, z, Probabilities(exp, z), s);
    Cancel(RealSum(Probabilities(exp, z)), 1.0, s);
  }

  /** They are positive and in proportion to the exponentials of the logits: with their sum, that leaves only one choice. */
  lemma ProbabilitiesInProportion(exp: real -> real, z: Vector, i: nat, j: nat)
    requires IsExp(exp) && i < |z| && j < |z|
    ensures Probability(exp, z, i) > 0.0
    ensures Probability(exp, z, i) * exp(z[j]) == Probability(exp, z, j) * exp(z[i])
  {
    var s := SumExp(exp, z);
    SumExpPositive(exp, z);
    ShareOf(exp, z, i, s);
    ShareOf(exp, z, j, s);
    CrossShares(Probability(exp, z, i), Probability(exp, z, j), s);
  }

  lemma Cancel(a: real, b: real, s: real)
    requires s > 0.0 && a * s == b * s
    ensures a == b
  {
    assert (a - b) * s == 0.0;
  }

  lemma CrossShares(p: real, q: real, s: real)
    ensures p * (q * s) == q * (p * s)
  {
  }
}
