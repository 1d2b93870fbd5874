/** The classifier as mathematics: its parameters, the scaler, and the three layers as matrix algebra. */
module Mlp {
  import opened Sums
  import opened Vectors

  datatype Params<T> = Params(nIn: int, h1: int, h2: int, nOut: int,
                              featureMin: seq<T>, featureMax: seq<T>,
                              W1: seq<T>, b1: seq<T>, W2: seq<T>, b2: seq<T>, W3: seq<T>, b3: seq<T>)

  /** Positive dimensions, and every array of the size they call for. */
  predicate WellSized<T>(p: Params<T>) {
    && p.nIn > 0 && p.h1 > 0 && p.h2 > 0 && p.nOut > 0
    && |p.featureMin| == |p.featureMax| == p.nIn
    && |p.W1| == p.h1 * p.nIn && |p.b1| == p.h1
    && |p.W2| == p.h2 * p.h1 && |p.b2| == p.h2
    && |p.W3| == p.nOut * p.h2 && |p.b3| == p.nOut
  }

  function Clamp(v: real): (c: real)
    ensures 0.0 <= c <= 1.0
  {
    if v < 0.0 then 0.0 else if v > 1.0 then 1.0 else v
  }

  /** One feature on the scale from lo to hi; a range that is empty or inverted gives 0. */
  function Scale(raw: real, lo: real, hi: real): (v: real)
    ensures 0.0 <= v <= 1.0
  {
    Clamp(if hi - lo > 0.0 then (raw - lo) / (hi - lo) else 0.0)
  }

  function Scaled(p: Params<real>, raw: Vector): (v: Vector)
    requires WellSized(p) && |raw| == p.nIn
    ensures |v| == p.nIn
  {
    seq(p.nIn, j requires 0 <= j < p.nIn => Scale(raw[j], p.featureMin[j], p.featureMax[j]))
  }

  /** One layer before its activation. */
  function Layer(W: Vector, b: Vector, x: Vector): (v: Vector)
    requires |W| == |b| * |x|
    ensures |v| == |b|
  {
    Plus(Times(Rows(W, |b|, |x|), x), b)
  }

  /** W3 relu(W2 relu(W1 x + b1) + b2) + b3. */
  function Logits(p: Params<real>, x: Vector): (z: Vector)
    requires WellSized(p) && |x| == p.nIn
    ensures |z| == p.nOut
  {
    Layer(p.W3, p.b3, Relu(Layer(p.W2, p.b2, Relu(Layer(p.W1, p.b1, x)))))
  }

  // ---- the layers, entry by entry ----

  /** Entry i of W x + b, with W flat and row after row: the bias plus the products of row i, added up. */
  predicate IsAffine(W: Vector, b: Vector, x: Vector, z: Vector)
    requires |W| == |b| * |x|
  {
    && |z| == |b|
    && forall i :: 0 <= i < |b| ==> z[i] == b[i] + RealSum(Products(W, |b|, x, i))
  }

  function Terms(u: Vector, x: Vector): (t: seq<real>)
    requires |u| == |x|
    ensures |t| == |x|
  {
    seq(|x|, j requires 0 <= j < |x| => u[j] * x[j])
  }

  function Products(W: Vector, h: nat, x: Vector, i: nat): (t: seq<real>)
    requires |W| == h * |x| && i < h
  {
    RowInBounds(i, h, |x|);
    Terms(W[i * |x|..i * |x| + |x|], x)
  }

  /** The negative entries replaced by 0. */
  predicate IsRectified(v: Vector, z: Vector) {
    |z| == |v| && forall i :: 0 <= i < |v| ==> z[i] == if v[i] < 0.0 then 0.0 else v[i]
  }

  predicate AreProducts(t: seq<real>, u: Vector, v: Vector) {
    |u| == |v| == |t| && forall j :: 0 <= j < |u| ==> t[j] == u[j] * v[j]
  }

  lemma {:induction false} DotIsSum(u: Vector, v: Vector, t: seq<real>)
    requires AreProducts(t, u, v)
    ensures Dot(u, v) == RealSum(t)
    decreases |u|
  {
    if u != [] {
      var n := |u| - 1;
      DotIsSum(u[..n], v[..n], t[..n]);
    }
  }

  lemma TermsAreProducts(u: Vector, x: Vector)
    requires |u| == |x|
    ensures AreProducts(Terms(u, x), u, x)
  {
  }

  lemma DotOfTerms(u: Vector, x: Vector)
    requires |u| == |x|
    ensures Dot(u, x) == RealSum(Terms(u, x))
  {
    TermsAreProducts(u, x);
    DotIsSum(u, x, Terms(u, x));
  }

  lemma RowProducts(W: Vector, h: nat, x: Vector, i: nat)
    requires |W| == h * |x| && i < h
    ensures Dot(Row(W, h, |x|, i), x) == RealSum(Products(W, h, x, i))
  {
    DotOfTerms(Row(W, h, |x|, i), x);
  }

  lemma LayerEntry(W: Vector, b: Vector, x: Vector, i: nat)
    requires |W| == |b| * |x| && i < |b|
    ensures Layer(W, b, x)[i] == Dot(Row(W, |b|, |x|, i), x) + b[i]
  {
  }

  lemma LayerIsAffine(W: Vector, b: Vector, x: Vector)
    requires |W| == |b| * |x|
    ensures IsAffine(W, b, x, Layer(W, b, x))
  {
    var z := Layer(W, b, x);
    forall i | 0 <= i < |b|
      ensures z[i] == b[i] + RealSum(Products(W, |b|, x, i))
    {
      LayerEntry(W, b, x, i);
      RowProducts(W, |b|, x, i);
    }
  }

  /** The logits come of three affine steps, of which the first two are rectified and the last is not. */
  lemma LogitsMeaning(p: Params<real>, x: Vector)
    requires WellSized(p) && |x| == p.nIn
    ensures exists a, h, c, k :: |h| == p.h1 && |k| == p.h2
              && IsAffine(p.W1, p.b1, x, a) && IsRectified(a, h)
              && IsAffine(p.W2, p.b2, h, c) && IsRectified(c, k)
              && IsAffine(p.W3, p.b3, k, Logits(p, x))
  {
    var a := Layer(p.W1, p.b1, x);
    var h := Relu(a);
    var c := Layer(p.W2, p.b2, h);
    var k := Relu(c);
    LayerIsAffine(p.W1, p.b1, x);
    LayerIsAffine(p.W2, p.b2, h);
    LayerIsAffine(p.W3, p.b3, k);
    assert IsRectified(a, h) && IsRectified(c, k);
  }

  // ---- the scaler ----

  lemma ProductSign(q: real, d: real)
    requires d > 0.0
    ensures (q * d > 0.0 <==> q > 0.0) && (q * d < 0.0 <==> q < 0.0)
  {
  }

  lemma QuotientBounds(a: real, d: real)
    requires d > 0.0
    ensures a / d * d == a
    ensures (a / d <= 0.0 <==> a <= 0.0) && (a / d < 0.0 <==> a < 0.0)
    ensures (a / d >= 1.0 <==> a >= d) && (a / d > 1.0 <==> a > d)
  {
    var q := a / d;
    assert q * d == a;
    assert q * d - d == (q - 1.0) * d;
    ProductSign(q, d);
    ProductSign(q - 1.0, d);
  }

  /** The scaler sends [lo, hi] linearly onto [0, 1] and everything outside to the nearer end. */
  lemma ScaleMeaning(raw: real, lo: real, hi: real)
    ensures hi <= lo ==> Scale(raw, lo, hi) == 0.0
    ensures lo < hi && raw <= lo ==> Scale(raw, lo, hi) == 0.0
    ensures lo < hi && raw >= hi ==> Scale(raw, lo, hi) == 1.0
    ensures lo <= raw <= hi && lo < hi ==> Scale(raw, lo, hi) * (hi - lo) == raw - lo
  {
    if lo < hi {
      QuotientBounds(raw - lo, hi - lo);
    }
  }

  lemma ScaleMonotone(a: real, b: real, lo: real, hi: real)
    requires a <= b
    ensures Scale(a, lo, hi) <= Scale(b, lo, hi)
  {
    if lo < hi {
      var d := hi - lo;
      assert (b - lo) / d - (a - lo) / d == (b - a) / d;
      QuotientBounds(b - a, d);
    }
  }
}
