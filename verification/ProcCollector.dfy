/** The /proc/diskstats features: totals over whole disks, their deltas, and the rates made of them. */
module ProcCollector {
  import opened Bytes
  import opened Counters
  import opened Sums

  /** A word of a line and what stoull makes of it: nothing when it throws. */
  datatype Token = Token(text: string, number: Option<Word64>)

  type Line = seq<Token>

  datatype Totals = Totals(writesMerged: Word64, sectorsWritten: Word64, msWriting: Word64, ioTicks: Word64)

  const ZERO := Totals(0, 0, 0, 0)

  /** Positions of the four fields, in the order they are added. */
  const FIELDS: seq<nat> := [8, 9, 10, 12]

  predicate IsDiskLine(line: Line, disks: set<string>) {
    |line| >= 14 && line[2].text in disks
  }

  predicate Parses(line: Line, k: nat)
    requires |line| >= 14 && k < 4
  {
    line[FIELDS[k]].number.Some?
  }

  /** What a line adds to the k-th total: its field, if that and all the fields before it are numbers. */
  function Contribution(line: Line, disks: set<string>, k: nat): Word64
    requires k < 4
  {
    if IsDiskLine(line, disks) && Parses(line, k) && forall j :: 0 <= j < k ==> Parses(line, j) then line[FIELDS[k]].number.value else 0
  }

  function Contributions(lines: seq<Line>, disks: set<string>, k: nat): (c: seq<int>)
    requires k < 4
    ensures |c| == |lines|
  {
    seq(|lines|, i requires 0 <= i < |lines| => Contribution(lines[i], disks, k))
  }

  function Total(lines: seq<Line>, disks: set<string>, k: nat): Word64
    requires k < 4
  {
    Sum(Contributions(lines, disks, k)) % WORD
  }

  function DiskTotals(lines: seq<Line>, disks: set<string>): Totals {
    Totals(Total(lines, disks, 0), Total(lines, disks, 1), Total(lines, disks, 2), Total(lines, disks, 3))
  }

  lemma TotalNext(lines: seq<Line>, disks: set<string>, k: nat, i: nat)
    requires k < 4 && i < |lines|
    ensures Total(lines[..i + 1], disks, k) == (Total(lines[..i], disks, k) + Contribution(lines[i], disks, k)) % WORD
  {
    assert Contributions(lines[..i + 1], disks, k) == Contributions(lines[..i], disks, k) + [Contribution(lines[i], disks, k)];
    SumAppend(Contributions(lines[..i], disks, k), Contribution(lines[i], disks, k));
  }

  method ReadDiskstats(lines: seq<Line>, disks: set<string>) returns (t: Totals)
    ensures t == DiskTotals(lines, disks)
  {
    t := ZERO;
    var i := 0;
    while i < |lines|
      invariant 0 <= i <= |lines|
      invariant t == DiskTotals(lines[..i], disks)
    {
      var tok := lines[i];
      TotalNext(lines, disks, 0, i);
      TotalNext(lines, disks, 1, i);
      TotalNext(lines, disks, 2, i);
      TotalNext(lines, disks, 3, i);
      i := i + 1;
      if |tok| < 14 {
        continue;
      }
      if tok[2].text !in disks {
        continue;
      }
      t := AddLine(t, tok, disks);
    }
    assert lines[..|lines|] == lines;
  }

  /** The guarded additions: the first field that is no number ends the line's part. */
  method AddLine(t: Totals, tok: Line, disks: set<string>) returns (r: Totals)
    requires IsDiskLine(tok, disks)
    ensures r == Totals((t.writesMerged + Contribution(tok, disks, 0)) % WORD, (t.sectorsWritten + Contribution(tok, disks, 1)) % WORD,
                        (t.msWriting + Contribution(tok, disks, 2)) % WORD, (t.ioTicks + Contribution(tok, disks, 3)) % WORD)
  {
    r := t;
    assert Parses(tok, 0) <==> tok[8].number.Some?;
    assert Parses(tok, 1) <==> tok[9].number.Some?;
    assert Parses(tok, 2) <==> tok[10].number.Some?;
    assert Parses(tok, 3) <==> tok[12].number.Some?;
    if tok[8].number.None? { return; }
    r := r.(writesMerged := (r.writesMerged + tok[8].number.value) % WORD);
    if tok[9].number.None? { return; }
    r := r.(sectorsWritten := (r.sectorsWritten + tok[9].number.value) % WORD);
    if tok[10].number.None? { return; }
    r := r.(msWriting := (r.msWriting + tok[10].number.value) % WORD);
    if tok[12].number.None? { return; }
    r := r.(ioTicks := (r.ioTicks + tok[12].number.value) % WORD);
  }

  // ---- one window ----

  /** The time a rate is taken over: never zero. */
  function Elapsed(before: real, now: real): (e: real)
    ensures e > 0.0
  {
    if now - before <= 0.0 then 0.001 else now - before
  }

  /** The five values this collector always writes. */
  function Five(writeMerge: real, ioWrite: real, writeKbs: real, ioWriteTime: real, util: real): map<string, real> {
    map["write_merge" := writeMerge, "iowrite" := ioWrite, "write_kbs" := writeKbs, "iowritetime" := ioWriteTime, "util" := util]
  }

  function Rates(prev: Totals, cur: Totals, elapsed: real): map<string, real>
    requires elapsed > 0.0
  {
    var bytes := Delta(prev.sectorsWritten, cur.sectorsWritten) as real * 512.0;
    Five(Delta(prev.writesMerged, cur.writesMerged) as real, bytes, bytes / 1024.0 / elapsed,
         Delta(prev.msWriting, cur.msWriting) as real, Delta(prev.ioTicks, cur.ioTicks) as real / (elapsed * 1000.0))
  }

  datatype State = State(prev: Totals, havePrev: bool, prevTime: real)

  function Emitted(s: State, cur: Totals, now: real): map<string, real> {
    if !s.havePrev then Five(0.0, 0.0, 0.0, 0.0, 0.0) else Rates(s.prev, cur, Elapsed(s.prevTime, now))
  }

  lemma FivePuts(m: map<string, real>, a: real, b: real, c: real, d: real, e: real)
    ensures m["write_merge" := a]["iowrite" := b]["write_kbs" := c]["iowritetime" := d]["util" := e] == m + Five(a, b, c, d, e)
  {
    PutIsUnion(m, "write_merge", a);
    PutOnto(m, map["write_merge" := a], "iowrite", b);
    PutOnto(m, map["write_merge" := a, "iowrite" := b], "write_kbs", c);
    PutOnto(m, map["write_merge" := a, "iowrite" := b, "write_kbs" := c], "iowritetime", d);
    PutOnto(m, map["write_merge" := a, "iowrite" := b, "write_kbs" := c, "iowritetime" := d], "util", e);
  }

  class ProcCollector {
    var prev: Totals
    var havePrev: bool
    var prevTime: real

    function View(): State
      reads this
    {
      State(prev, havePrev, prevTime)
    }

    constructor ()
      ensures View() == State(ZERO, false, 0.0)
    {
      prev, havePrev, prevTime := ZERO, false, 0.0;
    }

    method Sample(out: Sink, lines: seq<Line>, disks: set<string>, now: real)
      modifies this, out
      ensures View() == State(DiskTotals(lines, disks), true, now)
      ensures out.values == old(out.values) + Emitted(old(View()), DiskTotals(lines, disks), now)
    {
      var cur := ReadDiskstats(lines, disks);
      if !havePrev {
        prev := cur;
        prevTime := now;
        havePrev := true;
        PutFive(out, 0.0, 0.0, 0.0, 0.0, 0.0);
        return;
      }
      var dWritesMerged := Difference(cur.writesMerged, prev.writesMerged);
      var dSectors := Difference(cur.sectorsWritten, prev.sectorsWritten);
      var dMsWriting := Difference(cur.msWriting, prev.msWriting);
      var dIoTicks := Difference(cur.ioTicks, prev.ioTicks);
      var elapsed := now - prevTime;
      if elapsed <= 0.0 {
        elapsed := 0.001;
      }
      var bytesWritten := dSectors * 512.0;
      PutFive(out, dWritesMerged, bytesWritten, bytesWritten / 1024.0 / elapsed, dMsWriting, dIoTicks / (elapsed * 1000.0));
      prev := cur;
      prevTime := now;
    }

    static method PutFive(out: Sink, writeMerge: real, ioWrite: real, writeKbs: real, ioWriteTime: real, util: real)
      modifies out
      ensures out.values == old(out.values) + Five(writeMerge, ioWrite, writeKbs, ioWriteTime, util)
    {
      out.Put("write_merge", writeMerge);
      out.Put("iowrite", ioWrite);
      out.Put("write_kbs", writeKbs);
      out.Put("iowritetime", ioWriteTime);
      out.Put("util", util);
      FivePuts(old(out.values), writeMerge, ioWrite, writeKbs, ioWriteTime, util);
    }

    static function Difference(a: Word64, b: Word64): real {
      if a >= b then (a - b) as real else a as real
    }
  }
}
