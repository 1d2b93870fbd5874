/** Vectors and matrices over the reals, which stand for the program's floats. */
module Vectors {

  type Vector = seq<real>

  type Matrix = seq<Vector>

  function Dot(u: Vector, v: Vector): real
    requires |u| == |v|
  {
    if u == [] then 0.0 else Dot(u[..|u| - 1], v[..|v| - 1]) + u[|u| - 1] * v[|v| - 1]
  }

  /** Every row has n entries. */
  predicate HasWidth(m: Matrix, n: nat) {
    forall i :: 0 <= i < |m| ==> |m[i]| == n
  }

  function Times(m: Matrix, x: Vector): Vector
    requires HasWidth(m, |x|)
  {
    seq(|m|, i requires 0 <= i < |m| => Dot(m[i], x))
  }

  function Plus(u: Vector, v: Vector): Vector
    requires |u| == |v|
  {
    seq(|u|, i requires 0 <= i < |u| => u[i] + v[i])
  }

  function Relu(v: Vector): Vector {
    seq(|v|, i requires 0 <= i < |v| => if v[i] > 0.0 then v[i] else 0.0)
  }

  /** Row i of h rows of n entries lies inside the flat array. */
  lemma {:induction false} RowInBounds(i: nat, h: nat, n: nat)
    requires i < h
    ensures 0 <= i * n <= i * n + n <= h * n
    decreases h
  {
    assert h * n == (h - 1) * n + n;
    if i < h - 1 {
      RowInBounds(i, h - 1, n);
    } else {
      ProductNonNegative(i, n);
    }
  }

  lemma ProductNonNegative(a: nat, b: nat)
    ensures a * b >= 0
  {
  }

  function Row(w: Vector, h: nat, n: nat, i: nat): (r: Vector)
    requires |w| == h * n && i < h
    ensures |r| == n
  {
    RowInBounds(i, h, n);
    w[i * n..i * n + n]
  }

  /** A flat array of h rows of n entries, row after row, read as a matrix. */
  function Rows(w: Vector, h: nat, n: nat): (m: Matrix)
    requires |w| == h * n
    ensures |m| == h && HasWidth(m, n)
  {
    seq(h, i requires 0 <= i < h => Row(w, h, n, i))
  }

  /** The first index of a largest entry. */
  predicate IsFirstMax(z: Vector, best: int) {
    && 0 <= best < |z|
    && (forall i :: 0 <= i < |z| ==> z[i] <= z[best])
    && (forall i :: 0 <= i < best ==> z[i] < z[best])
  }

  lemma FirstMaxUnique(z: Vector, a: int, b: int)
    requires IsFirstMax(z, a) && IsFirstMax(z, b)
    ensures a == b
  {
    assert z[a] <= z[b] && z[b] <= z[a];
  }

  /** The first index of a largest entry, found from the end. */
  function FirstMax(z: Vector): (best: int)
    requires z != []
    ensures IsFirstMax(z, best)
  {
    if |z| == 1 then 0
    else
      var before := FirstMax(z[..|z| - 1]);
      if z[|z| - 1] > z[before] then |z| - 1 else before
  }
}
