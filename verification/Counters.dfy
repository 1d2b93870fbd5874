/**
  64-bit counters read once per window: what one window's delta is, and what the deltas of a whole
  run add up to.
 */
module Counters {
  import opened Bytes
  import opened Sums

  const WORD: int := 0x1_0000_0000_0000_0000

  type Word64 = n: int | 0 <= n < 0x1_0000_0000_0000_0000

  /** The named values a window's collectors write. */
  class Sink {
    var values: map<string, real>

    constructor ()
      ensures values == map[]
    {
      values := map[];
    }

    method Put(name: string, value: real)
      modifies this
      ensures values == old(values)[name := value]
    {
      values := values[name := value];
    }
  }

  lemma PutIsUnion(m: map<string, real>, name: string, value: real)
    ensures m[name := value] == m + map[name := value]
  {
  }

  lemma PutOnto(m: map<string, real>, part: map<string, real>, name: string, value: real)
    ensures (m + part)[name := value] == m + part[name := value]
  {
  }

  lemma UnionWithNothing(m: map<string, real>)
    ensures m + map[] == m
  {
  }

  function Delta(prev: int, cur: int): int {
    if cur >= prev then cur - prev else cur
  }

  // ---- conservation over a run ----

  /** The deltas of successive readings, each against the one before. */
  function Deltas(baseline: int, readings: seq<int>): (d: seq<int>)
    ensures |d| == |readings|
  {
    seq(|readings|, i requires 0 <= i < |readings| => Delta(Before(baseline, readings, i), readings[i]))
  }

  function Before(baseline: int, readings: seq<int>, i: nat): int
    requires i < |readings|
  {
    if i == 0 then baseline else readings[i - 1]
  }

  function Last(baseline: int, readings: seq<int>): int {
    if readings == [] then baseline else readings[|readings| - 1]
  }

  /** The readings just before each decrease, and 0 where there was none. */
  function Drops(baseline: int, readings: seq<int>): (d: seq<int>)
    ensures |d| == |readings|
  {
    seq(|readings|, i requires 0 <= i < |readings| =>
      if readings[i] < Before(baseline, readings, i) then Before(baseline, readings, i) else 0)
  }

  predicate Monotone(baseline: int, readings: seq<int>) {
    forall i :: 0 <= i < |readings| ==> Before(baseline, readings, i) <= readings[i]
  }

  lemma PrefixReadings(baseline: int, readings: seq<int>)
    requires readings != []
    ensures Deltas(baseline, readings)[..|readings| - 1] == Deltas(baseline, readings[..|readings| - 1])
    ensures Drops(baseline, readings)[..|readings| - 1] == Drops(baseline, readings[..|readings| - 1])
    ensures Before(baseline, readings, |readings| - 1) == Last(baseline, readings[..|readings| - 1])
  {
  }

  /** The deltas add up to the whole increase, plus whatever a counter had reached each time it fell back. */
  lemma {:induction false} DeltasConserve(baseline: int, readings: seq<int>)
    ensures Sum(Deltas(baseline, readings)) == Last(baseline, readings) - baseline + Sum(Drops(baseline, readings))
  {
    if readings != [] {
      DeltasConserve(baseline, readings[..|readings| - 1]);
      PrefixReadings(baseline, readings);
    }
  }

  lemma MonotoneDeltasConserve(baseline: int, readings: seq<int>)
    requires Monotone(baseline, readings)
    ensures Sum(Deltas(baseline, readings)) == Last(baseline, readings) - baseline
  {
    DeltasConserve(baseline, readings);
    SumOfZeros(Drops(baseline, readings));
  }
}
