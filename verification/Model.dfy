/** The model object: inference by the source's flat loops, proved against the matrix form. */
module Model {
  import opened Bytes
  import opened Vectors
  import opened Mlp
  import opened Softmax

  class Model {
    var nIn: int
    var h1: int
    var h2: int
    var nOut: int
    var featureMin: Vector
    var featureMax: Vector
    var W1: Vector
    var b1: Vector
    var W2: Vector
    var b2: Vector
    var W3: Vector
    var b3: Vector

    function Content(): Params<real>
      reads this
    {
      Params(nIn, h1, h2, nOut, featureMin, featureMax, W1, b1, W2, b2, W3, b3)
    }

    predicate Valid()
      reads this
    {
      WellSized(Content())
    }

    constructor (p: Params<real>)
      ensures Content() == p
    {
      nIn, h1, h2, nOut := p.nIn, p.h1, p.h2, p.nOut;
      featureMin, featureMax, W1, b1, W2, b2, W3, b3 := p.featureMin, p.featureMax, p.W1, p.b1, p.W2, p.b2, p.W3, p.b3;
    }

    /** raw features to [0, 1] */
    method Normalize(raw: array<real>, out: array<real>)
      requires Valid() && raw.Length == out.Length == nIn && raw != out
      modifies out
      ensures out[..] == Scaled(Content(), raw[..])
    {
      var j := 0;
      while j < nIn
        invariant 0 <= j <= nIn
        invariant raw[..] == old(raw[..])
        invariant forall i :: 0 <= i < j ==> out[i] == Scale(raw[i], featureMin[i], featureMax[i])
      {
        var d := featureMax[j] - featureMin[j];
        var v := if d > 0.0 then (raw[j] - featureMin[j]) / d else 0.0;
        out[j] := if v < 0.0 then 0.0 else if v > 1.0 then 1.0 else v;
        j := j + 1;
      }
    }

    /** One flat row-major layer; `relu` tells whether the results are rectified. */
    static method ForwardLayer(W: Vector, b: Vector, x: array<real>, relu: bool) returns (out: array<real>)
      requires |W| == |b| * x.Length
      ensures fresh(out)
      ensures out[..] == if relu then Relu(Layer(W, b, x[..])) else Layer(W, b, x[..])
    {
      var h, n := |b|, x.Length;
      out := new real[h];
      ghost var layer := Layer(W, b, x[..]);
      var i := 0;
      while i < h
        invariant 0 <= i <= h
        invariant forall k :: 0 <= k < i ==> out[k] == if relu && layer[k] <= 0.0 then 0.0 else layer[k]
      {
        var s := b[i];
        ghost var row := Row(W, h, n, i);
        RowInBounds(i, h, n);
        assert row[..0] == [] && x[..][..0] == [];
        var j := 0;
        while j < n
          invariant 0 <= j <= n
          invariant s == b[i] + Dot(row[..j], x[..][..j])
        {
          assert row[j] == W[i * n + j];
          assert row[..j + 1][..j] == row[..j] && x[..][..j + 1][..j] == x[..][..j];
          s := s + W[i * n + j] * x[j];
          j := j + 1;
        }
        assert row[..n] == row && x[..][..n] == x[..];
        assert layer[i] == s;
        out[i] := if relu && s <= 0.0 then 0.0 else s;
        i := i + 1;
      }
    }

    static method ArgMax(z: array<real>) returns (best: int)
      requires z.Length > 0
      ensures IsFirstMax(z[..], best)
    {
      best := 0;
      var i := 1;
      while i < z.Length
        invariant 1 <= i <= z.Length && 0 <= best < i
        invariant forall k :: 0 <= k < i ==> z[k] <= z[best]
        invariant forall k :: 0 <= k < best ==> z[k] < z[best]
      {
        if z[i] > z[best] {
          best := i;
        }
        i := i + 1;
      }
    }

    static method WinnerConfidence(z: array<real>, best: nat, exp: real -> real) returns (confidence: real)
      requires best < z.Length && IsExp(exp)
      ensures confidence == Confidence(exp, z[..], best)
    {
      var mx, sum := z[best], 0.0;
      ghost var shifted := Shift(z[..], -mx);
      assert shifted[..0] == [];
      var i := 0;
      while i < z.Length
        invariant 0 <= i <= z.Length
        invariant sum == SumExp(exp, shifted[..i])
      {
        assert shifted[..i + 1][..i] == shifted[..i];
        assert shifted[i] == z[i] - mx;
        sum := sum + exp(z[i] - mx);
        i := i + 1;
      }
      assert shifted[..z.Length] == shifted;
      SumExpPositive(exp, shifted);
      confidence := 1.0 / sum;
    }

    /** The forward pass: the logits, and the class with the first largest one. */
    method Classify(x: array<real>) returns (best: int, z: array<real>)
      requires Valid() && x.Length == nIn
      ensures fresh(z) && z[..] == Logits(Content(), x[..])
      ensures IsFirstMax(Logits(Content(), x[..]), best)
    {
      var a := ForwardLayer(W1, b1, x, true);
      var b := ForwardLayer(W2, b2, a, true);
      z := ForwardLayer(W3, b3, b, false);
      assert z[..] == Logits(Content(), x[..]);
      best := ArgMax(z);
    }

    /** The forward pass with the softmax probability of the winner. */
    method Predict(x: array<real>, exp: real -> real) returns (best: int, confidence: real)
      requires Valid() && x.Length == nIn && IsExp(exp)
      ensures IsFirstMax(Logits(Content(), x[..]), best)
      ensures confidence == Confidence(exp, Logits(Content(), x[..]), best)
    {
      var z;
      best, z := Classify(x);
      confidence := WinnerConfidence(z, best, exp);
    }
  }
}
