/** The tracepoint counters: one descriptor per CPU and feature, summed and turned into deltas. */
module PerfCollector {
  import opened Bytes
  import opened Counters
  import opened Sums

  /** What the kernel offers for one route: the tracepoint id (0 if unknown) and, per CPU, whether it opens. */
  datatype Opening = Opening(id: nat, cpus: seq<bool>)

  datatype Counter = Counter(feature: string, fds: nat, prev: Word64)

  /** One read of each descriptor of a counter; a read that fails gives nothing. */
  type GroupRead = seq<Option<Word64>>

  function Opened(cpus: seq<bool>): nat {
    if cpus == [] then 0 else Opened(cpus[..|cpus| - 1]) + if cpus[|cpus| - 1] then 1 else 0
  }

  function Descriptors(o: Opening): nat {
    if o.id == 0 then 0 else Opened(o.cpus)
  }

  function FreshCounters(names: seq<string>, openings: seq<Opening>): seq<Counter>
    requires |names| == |openings|
  {
    seq(|names|, i requires 0 <= i < |names| => Counter(names[i], Descriptors(openings[i]), 0))
  }

  /** The features no descriptor serves, in order. */
  function Missing(names: seq<string>, openings: seq<Opening>): seq<string>
    requires |names| == |openings|
  {
    if names == [] then []
    else
      var n := |names| - 1;
      Missing(names[..n], openings[..n]) + if Descriptors(openings[n]) == 0 then [names[n]] else []
  }

  /** The values that were read. */
  function ReadValues(rs: GroupRead): (v: seq<int>)
    ensures |v| == |rs|
  {
    seq(|rs|, i requires 0 <= i < |rs| => if rs[i].Some? then rs[i].value else 0)
  }

  function Group(rs: GroupRead): Word64 {
    Sum(ReadValues(rs)) % WORD
  }

  predicate ReadsFit(counters: seq<Counter>, rs: seq<GroupRead>) {
    |rs| == |counters| && forall i :: 0 <= i < |counters| ==> |rs[i]| == counters[i].fds
  }

  /** The counters after a sample. */
  function Sampled(counters: seq<Counter>, rs: seq<GroupRead>): seq<Counter>
    requires |rs| == |counters|
  {
    seq(|counters|, i requires 0 <= i < |counters| => counters[i].(prev := Group(rs[i])))
  }

  /** The values after a sample: counters are written in order. */
  function Emitted(values: map<string, real>, counters: seq<Counter>, rs: seq<GroupRead>): map<string, real>
    requires |rs| == |counters|
  {
    if counters == [] then values
    else
      var n := |counters| - 1;
      Emitted(values, counters[..n], rs[..n])[counters[n].feature := Delta(counters[n].prev, Group(rs[n])) as real]
  }

  class PerfCollector {
    var counters: seq<Counter>
    var missing: seq<string>

    constructor (names: seq<string>, openings: seq<Opening>)
      requires |names| == |openings|
      ensures counters == FreshCounters(names, openings)
      ensures missing == Missing(names, openings)
    {
      counters, missing := [], [];
      new;
      var i := 0;
      while i < |names|
        invariant 0 <= i <= |names|
        invariant counters == FreshCounters(names[..i], openings[..i])
        invariant missing == Missing(names[..i], openings[..i])
      {
        var o := openings[i];
        assert names[..i + 1][..i] == names[..i] && openings[..i + 1][..i] == openings[..i];
        if o.id == 0 {
          missing := missing + [names[i]];
          counters := counters + [Counter(names[i], 0, 0)];
        } else {
          var fds := OpenEach(o.cpus);
          if fds == 0 {
            missing := missing + [names[i]];
          }
          counters := counters + [Counter(names[i], fds, 0)];
        }
        i := i + 1;
      }
      assert names[..|names|] == names && openings[..|names|] == openings;
    }

    /** One descriptor per CPU, where it opens. */
    static method OpenEach(cpus: seq<bool>) returns (fds: nat)
      ensures fds == Opened(cpus)
    {
      fds := 0;
      var cpu := 0;
      while cpu < |cpus|
        invariant 0 <= cpu <= |cpus| && fds == Opened(cpus[..cpu])
      {
        assert cpus[..cpu + 1][..cpu] == cpus[..cpu];
        if cpus[cpu] {
          fds := fds + 1;
        }
        cpu := cpu + 1;
      }
      assert cpus[..|cpus|] == cpus;
    }

    static method ReadGroup(rs: GroupRead) returns (total: Word64)
      ensures total == Group(rs)
    {
      total := 0;
      var i := 0;
      while i < |rs|
        invariant 0 <= i <= |rs|
        invariant total == Sum(ReadValues(rs)[..i]) % WORD
      {
        assert ReadValues(rs)[..i + 1][..i] == ReadValues(rs)[..i];
        if rs[i].Some? {
          ghost var t := Sum(ReadValues(rs)[..i]);
          AddWrapped(t, rs[i].value);
          total := (total + rs[i].value) % WORD;
        }
        i := i + 1;
      }
      assert ReadValues(rs)[..|rs|] == ReadValues(rs);
    }

    method Sample(out: Sink, rs: seq<GroupRead>)
      requires ReadsFit(counters, rs)
      modifies this`counters, out
      ensures counters == Sampled(old(counters), rs)
      ensures out.values == Emitted(old(out.values), old(counters), rs)
    {
      ghost var start, had := counters, out.values;
      var i := 0;
      while i < |counters|
        invariant 0 <= i <= |start| == |counters|
        invariant forall j :: 0 <= j < i ==> counters[j] == start[j].(prev := Group(rs[j]))
        invariant forall j :: i <= j < |start| ==> counters[j] == start[j]
        invariant out.values == Emitted(had, start[..i], rs[..i])
      {
        EmitNext(had, start, rs, i);
        SampleOne(out, i, rs[i]);
        i := i + 1;
      }
      assert start[..|start|] == start && rs[..|start|] == rs;
    }

    method SampleOne(out: Sink, i: nat, group: GroupRead)
      requires i < |counters|
      modifies this`counters, out
      ensures counters == old(counters)[i := old(counters)[i].(prev := Group(group))]
      ensures out.values == old(out.values)[old(counters)[i].feature := Delta(old(counters)[i].prev, Group(group)) as real]
    {
      var c := counters[i];
      var cur := ReadGroup(group);
      var delta := if cur >= c.prev then cur - c.prev else cur;
      counters := counters[i := c.(prev := cur)];
      out.Put(c.feature, delta as real);
    }
  }

  lemma EmitNext(values: map<string, real>, counters: seq<Counter>, rs: seq<GroupRead>, i: nat)
    requires |rs| == |counters| && i < |counters|
    ensures Emitted(values, counters[..i + 1], rs[..i + 1])
            == Emitted(values, counters[..i], rs[..i])[counters[i].feature := Delta(counters[i].prev, Group(rs[i])) as real]
  {
    assert counters[..i + 1][..i] == counters[..i] && rs[..i + 1][..i] == rs[..i];
  }

  lemma AddWrapped(t: int, v: int)
    ensures (t % WORD + v) % WORD == (t + v) % WORD
  {
  }

  // ---- what opening leaves ----

  lemma {:induction false} OpenedIsCount(cpus: seq<bool>)
    ensures Opened(cpus) == |set cpu | 0 <= cpu < |cpus| && cpus[cpu]|
  {
    if cpus != [] {
      var n := |cpus| - 1;
      OpenedIsCount(cpus[..n]);
      var all, before := set cpu | 0 <= cpu < |cpus| && cpus[cpu], set cpu | 0 <= cpu < n && cpus[..n][cpu];
      assert all == before + if cpus[n] then {n} else {};
    }
  }

  /** A counter has one descriptor for each CPU on which its tracepoint opens, and none if it has no id. */
  lemma DescriptorsOfCounter(names: seq<string>, openings: seq<Opening>, i: nat)
    requires |names| == |openings| && i < |names|
    ensures var c := FreshCounters(names, openings)[i]; var cpus := openings[i].cpus;
            c.feature == names[i] && c.prev == 0 && c.fds == if openings[i].id == 0 then 0 else |set cpu | 0 <= cpu < |cpus| && cpus[cpu]|
  {
    OpenedIsCount(openings[i].cpus);
  }

  /** A name is reported missing exactly when one of its tracepoints has no id or opens on no CPU. */
  lemma {:induction false} MissingWhen(names: seq<string>, openings: seq<Opening>, name: string)
    requires |names| == |openings|
    ensures name in Missing(names, openings)
            <==> exists i :: 0 <= i < |names| && names[i] == name && (openings[i].id == 0 || true !in openings[i].cpus)
  {
    if names != [] {
      var n := |names| - 1;
      MissingWhen(names[..n], openings[..n], name);
      NoneOpened(openings[n].cpus);
    }
  }

  lemma {:induction false} NoneOpened(cpus: seq<bool>)
    ensures Opened(cpus) == 0 <==> true !in cpus
  {
    if cpus != [] {
      NoneOpened(cpus[..|cpus| - 1]);
    }
  }

  // ---- what a sample means ----

  predicate DistinctNames(counters: seq<Counter>) {
    forall i, j :: 0 <= i < j < |counters| ==> counters[i].feature != counters[j].feature
  }

  predicate Named(counters: seq<Counter>, name: string) {
    exists i :: 0 <= i < |counters| && counters[i].feature == name
  }

  lemma {:induction false} SampleWritesNames(values: map<string, real>, counters: seq<Counter>, rs: seq<GroupRead>, name: string)
    requires |rs| == |counters|
    ensures name in Emitted(values, counters, rs) <==> name in values || Named(counters, name)
    ensures !Named(counters, name) && name in values ==> Emitted(values, counters, rs)[name] == values[name]
  {
    if counters != [] {
      var n := |counters| - 1;
      SampleWritesNames(values, counters[..n], rs[..n], name);
      assert forall i :: 0 <= i < n ==> counters[..n][i] == counters[i];
    }
  }

  /** A sample writes each counter's delta under its name. */
  lemma {:induction false} SampleWritesDelta(values: map<string, real>, counters: seq<Counter>, rs: seq<GroupRead>, i: nat)
    requires |rs| == |counters| && DistinctNames(counters) && i < |counters|
    ensures counters[i].feature in Emitted(values, counters, rs)
    ensures Emitted(values, counters, rs)[counters[i].feature] == Delta(counters[i].prev, Group(rs[i])) as real
  {
    var n := |counters| - 1;
    if i < n {
      SampleWritesDelta(values, counters[..n], rs[..n], i);
      assert counters[i].feature != counters[n].feature;
    }
  }

  // ---- per-CPU exactness ----

  predicate AllRead(rs: GroupRead) {
    forall i :: 0 <= i < |rs| ==> rs[i].Some?
  }

  function Increments(before: seq<int>, after: seq<int>): seq<int>
    requires |before| == |after|
  {
    seq(|before|, i requires 0 <= i < |before| => after[i] - before[i])
  }

  lemma {:induction false} SumOfIncrements(before: seq<int>, after: seq<int>)
    requires |before| == |after|
    ensures Sum(Increments(before, after)) == Sum(after) - Sum(before)
  {
    if before != [] {
      var n := |before| - 1;
      SumOfIncrements(before[..n], after[..n]);
      assert Increments(before, after)[..n] == Increments(before[..n], after[..n]);
    }
  }

  lemma {:induction false} SumMonotone(before: seq<int>, after: seq<int>)
    requires |before| == |after| && forall i :: 0 <= i < |before| ==> before[i] <= after[i]
    ensures Sum(before) <= Sum(after)
  {
    if before != [] {
      SumMonotone(before[..|before| - 1], after[..|after| - 1]);
    }
  }

  /** The true counts of the descriptors whose read failed. */
  function Lost(counts: seq<int>, rs: GroupRead): seq<int>
    requires |counts| == |rs|
  {
    seq(|counts|, i requires 0 <= i < |counts| => if rs[i].Some? then 0 else counts[i])
  }

  /** The reads that succeed report the true counts. */
  predicate Reports(counts: seq<int>, rs: GroupRead) {
    |counts| == |rs| && forall i :: 0 <= i < |rs| ==> counts[i] >= 0 && (rs[i].Some? ==> rs[i].value == counts[i])
  }

  lemma {:induction false} ReadPlusLost(counts: seq<int>, rs: GroupRead)
    requires Reports(counts, rs)
    ensures Sum(ReadValues(rs)) + Sum(Lost(counts, rs)) == Sum(counts)
    ensures Sum(ReadValues(rs)) >= 0 && Sum(Lost(counts, rs)) >= 0
    decreases |counts|
  {
    if counts != [] {
      var n := |counts| - 1;
      ReadPlusLost(counts[..n], rs[..n]);
      assert ReadValues(rs)[..n] == ReadValues(rs[..n]);
      assert Lost(counts, rs)[..n] == Lost(counts[..n], rs[..n]);
    }
  }

  lemma GroupLoses(counts: seq<int>, rs: GroupRead)
    requires Reports(counts, rs) && Sum(counts) < WORD
    ensures Group(rs) == Sum(counts) - Sum(Lost(counts, rs)) && 0 <= Sum(Lost(counts, rs))
  {
    ReadPlusLost(counts, rs);
  }

  /**
    Over any two reads, each of which may have lost some descriptors, a window's delta is the sum of the
    per-CPU increments exactly when both reads lost as much, or, where the total fell, when the second
    lost as much as the first should have read.
   */
  lemma DeltaExactWhen(before: seq<int>, after: seq<int>, last: GroupRead, now: GroupRead)
    requires |before| == |after| && Reports(before, last) && Reports(after, now)
    requires forall i :: 0 <= i < |before| ==> before[i] <= after[i]
    requires Sum(after) < WORD
    ensures Delta(Group(last), Group(now)) == Sum(Increments(before, after))
            <==> if Group(now) >= Group(last) then Sum(Lost(before, last)) == Sum(Lost(after, now))
                 else Sum(Lost(after, now)) == Sum(before)
  {
    SumMonotone(before, after);
    GroupLoses(before, last);
    GroupLoses(after, now);
    SumOfIncrements(before, after);
  }

  lemma NothingLost(counts: seq<int>, rs: GroupRead)
    requires Reports(counts, rs) && AllRead(rs)
    ensures Sum(Lost(counts, rs)) == 0
  {
    SumOfZeros(Lost(counts, rs));
  }

  /** With every read of both windows succeeding the delta is exact. */
  lemma DeltaIsSumOfIncrements(before: seq<int>, after: seq<int>, last: GroupRead, now: GroupRead)
    requires |before| == |after| && Reports(before, last) && Reports(after, now) && AllRead(last) && AllRead(now)
    requires forall i :: 0 <= i < |before| ==> before[i] <= after[i]
    requires Sum(after) < WORD
    ensures Delta(Group(last), Group(now)) == Sum(Increments(before, after))
  {
    NothingLost(before, last);
    NothingLost(after, now);
    SumMonotone(before, after);
    GroupLoses(before, last);
    GroupLoses(after, now);
    DeltaExactWhen(before, after, last, now);
  }

  lemma SumOfTwo(a: int, b: int)
    ensures Sum([a, b]) == a + b
  {
    SumAppend([], a);
    SumAppend([a], b);
    assert [] + [a] == [a] && [a] + [b] == [a, b];
  }

  lemma GroupOfTwo(a: Word64, b: Word64)
    requires a + b < WORD
    ensures Group([Some(a), Some(b)]) == a + b && Group([Some(a), None]) == a
  {
    SumOfTwo(a, b);
    SumOfTwo(a, 0);
    assert ReadValues([Some(a), Some(b)]) == [a, b] && ReadValues([Some(a), None]) == [a, 0];
  }

  /** One failed read of two spoils two windows: a true increase of 1 is reported as 6 in its own, and as 8 in the next. */
  lemma FailedReadOverCounts()
    ensures Sum(Increments([5, 7], [6, 7])) == 1
    ensures Delta(Group([Some(5), Some(7)]), Group([Some(6), None])) == 6
    ensures Delta(Group([Some(5), None]), Group([Some(6), Some(7)])) == 8
  {
    GroupOfTwo(5, 7);
    GroupOfTwo(6, 7);
    SumOfTwo(1, 0);
    assert Increments([5, 7], [6, 7]) == [1, 0];
  }
}
