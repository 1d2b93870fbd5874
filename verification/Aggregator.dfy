/** From the merged values to the raw feature vector. */
module Aggregator {

  function Assembled(order: seq<string>, merged: map<string, real>): (v: seq<real>)
    ensures |v| == |order|
  {
    seq(|order|, i requires 0 <= i < |order| => if order[i] in merged then merged[order[i]] else 0.0)
  }

  class WindowAggregator {
    const order: seq<string>

    constructor (order: seq<string>)
      ensures this.order == order
    {
      this.order := order;
    }

    method Assemble(merged: map<string, real>) returns (v: array<real>)
      ensures fresh(v) && v[..] == Assembled(order, merged)
    {
      v := new real[|order|](_ => 0.0);
      var i := 0;
      while i < |order|
        invariant 0 <= i <= |order|
        invariant forall k :: 0 <= k < |order| ==> v[k] == if k < i && order[k] in merged then merged[order[k]] else 0.0
      {
        if order[i] in merged {
          v[i] := merged[order[i]];
        }
        i := i + 1;
      }
    }
  }
}
