/** The disk features in terms of the kernel's own fields. */
module DiskMeaning {
  import opened Bytes
  import opened Counters
  import opened Sums
  import opened ProcCollector

  /** One line of /proc/diskstats by the names that the kernel's documentation gives its fields. */
  datatype DiskRecord = DiskRecord(major: Word64, minor: Word64, name: string,
                                   readsDone: Word64, readsMerged: Word64, sectorsRead: Word64, msReading: Word64,
                                   writesDone: Word64, writesMerged: Word64, sectorsWritten: Word64, msWriting: Word64,
                                   inFlight: Word64, msDoingIo: Word64, weightedMs: Word64, more: seq<Word64>)

  /** How numbers are written, and what stoull would make of a device name. */
  datatype Spelling = Spelling(digits: Word64 -> string, number: string -> Option<Word64>)

  function NumberToken(sp: Spelling, n: Word64): Token {
    Token(sp.digits(n), Some(n))
  }

  /** The record as the kernel prints it: device numbers, name, the eleven classic fields, and any newer ones. */
  function Printed(sp: Spelling, d: DiskRecord): (line: Line)
    ensures |line| == 14 + |d.more|
  {
    [NumberToken(sp, d.major), NumberToken(sp, d.minor), Token(d.name, sp.number(d.name)),
     NumberToken(sp, d.readsDone), NumberToken(sp, d.readsMerged), NumberToken(sp, d.sectorsRead), NumberToken(sp, d.msReading),
     NumberToken(sp, d.writesDone), NumberToken(sp, d.writesMerged), NumberToken(sp, d.sectorsWritten), NumberToken(sp, d.msWriting),
     NumberToken(sp, d.inFlight), NumberToken(sp, d.msDoingIo), NumberToken(sp, d.weightedMs)]
    + seq(|d.more|, i requires 0 <= i < |d.more| => NumberToken(sp, d.more[i]))
  }

  function AllPrinted(sp: Spelling, ds: seq<DiskRecord>): (lines: seq<Line>)
    ensures |lines| == |ds|
  {
    seq(|ds|, i requires 0 <= i < |ds| => Printed(sp, ds[i]))
  }

  /** The records of whole disks. */
  function WholeDisks(ds: seq<DiskRecord>, disks: set<string>): seq<DiskRecord> {
    if ds == [] then []
    else
      var n := |ds| - 1;
      WholeDisks(ds[..n], disks) + if ds[n].name in disks then [ds[n]] else []
  }

  function SumBy(ds: seq<DiskRecord>, field: DiskRecord -> Word64): int {
    if ds == [] then 0 else SumBy(ds[..|ds| - 1], field) + field(ds[|ds| - 1])
  }

  /** The field that the k-th total is about. */
  function Counted(d: DiskRecord, k: nat): Word64 {
    if k == 0 then d.writesMerged else if k == 1 then d.sectorsWritten else if k == 2 then d.msWriting else d.msDoingIo
  }

  lemma PrintedContributes(sp: Spelling, d: DiskRecord, disks: set<string>, k: nat)
    requires k < 4
    ensures Contribution(Printed(sp, d), disks, k) == if d.name in disks then Counted(d, k) else 0
  {
    var line := Printed(sp, d);
    assert line[8].number == Some(d.writesMerged) && line[9].number == Some(d.sectorsWritten);
    assert line[10].number == Some(d.msWriting) && line[12].number == Some(d.msDoingIo);
  }

  lemma ContributionsNext(lines: seq<Line>, line: Line, disks: set<string>, k: nat)
    requires k < 4
    ensures Sum(Contributions(lines + [line], disks, k)) == Sum(Contributions(lines, disks, k)) + Contribution(line, disks, k)
  {
    assert Contributions(lines + [line], disks, k) == Contributions(lines, disks, k) + [Contribution(line, disks, k)];
    SumAppend(Contributions(lines, disks, k), Contribution(line, disks, k));
  }

  lemma WholeNext(ds: seq<DiskRecord>, disks: set<string>, field: DiskRecord -> Word64)
    requires ds != []
    ensures var n := |ds| - 1;
            SumBy(WholeDisks(ds, disks), field) == SumBy(WholeDisks(ds[..n], disks), field) + if ds[n].name in disks then field(ds[n]) else 0
  {
    var n := |ds| - 1;
    var whole := WholeDisks(ds[..n], disks);
    if ds[n].name in disks {
      assert WholeDisks(ds, disks)[..|whole|] == whole;
    } else {
      assert WholeDisks(ds, disks) == whole;
    }
  }

  lemma AllPrintedNext(sp: Spelling, ds: seq<DiskRecord>)
    requires ds != []
    ensures AllPrinted(sp, ds) == AllPrinted(sp, ds[..|ds| - 1]) + [Printed(sp, ds[|ds| - 1])]
  {
  }

  lemma {:induction false} PrintedTotal(sp: Spelling, ds: seq<DiskRecord>, disks: set<string>, k: nat, field: DiskRecord -> Word64)
    requires k < 4 && forall d :: field(d) == Counted(d, k)
    ensures Sum(Contributions(AllPrinted(sp, ds), disks, k)) == SumBy(WholeDisks(ds, disks), field)
    decreases |ds|
  {
    if ds != [] {
      var n := |ds| - 1;
      PrintedTotal(sp, ds[..n], disks, k, field);
      PrintedContributes(sp, ds[n], disks, k);
      AllPrintedNext(sp, ds);
      ContributionsNext(AllPrinted(sp, ds[..n]), Printed(sp, ds[n]), disks, k);
      WholeNext(ds, disks, field);
    }
  }

  /** The totals of what the kernel prints are the sums of four of its fields over the whole disks, modulo 2^64. */
  lemma TotalsOfKernelFields(sp: Spelling, ds: seq<DiskRecord>, disks: set<string>)
    ensures var whole := WholeDisks(ds, disks);
            DiskTotals(AllPrinted(sp, ds), disks)
            == Totals(SumBy(whole, (d: DiskRecord) => d.writesMerged) % 0x1_0000_0000_0000_0000,
                      SumBy(whole, (d: DiskRecord) => d.sectorsWritten) % 0x1_0000_0000_0000_0000,
                      SumBy(whole, (d: DiskRecord) => d.msWriting) % 0x1_0000_0000_0000_0000,
                      SumBy(whole, (d: DiskRecord) => d.msDoingIo) % 0x1_0000_0000_0000_0000)
  {
    PrintedTotal(sp, ds, disks, 0, (d: DiskRecord) => d.writesMerged);
    PrintedTotal(sp, ds, disks, 1, (d: DiskRecord) => d.sectorsWritten);
    PrintedTotal(sp, ds, disks, 2, (d: DiskRecord) => d.msWriting);
    PrintedTotal(sp, ds, disks, 3, (d: DiskRecord) => d.msDoingIo);
  }

  /** A line of fewer than fourteen words changes nothing, whatever its words are. */
  lemma ShortLineIgnored(lines: seq<Line>, line: Line, disks: set<string>)
    requires |line| < 14
    ensures DiskTotals(lines + [line], disks) == DiskTotals(lines, disks)
  {
    forall k: nat | k < 4
      ensures Total(lines + [line], disks, k) == Total(lines, disks, k)
    {
      ContributionsNext(lines, line, disks, k);
    }
  }

  // ---- the five values ----

  /** What a counter gained since the reading before; one that fell has started again from 0. */
  predicate Gained(before: int, now: int, gain: real) {
    gain == if now >= before then now as real - before as real else now as real
  }

  /** The time between two readings, or a millisecond where the clock did not advance. */
  function TimeSince(before: real, now: real): (e: real)
    ensures e > 0.0
  {
    if now > before then now - before else 0.001
  }

  lemma QuotientTimes(a: real, d: real)
    requires d > 0.0
    ensures a / d * d == a
  {
  }

  const NAMES: set<string> := {"write_merge", "iowrite", "write_kbs", "iowritetime", "util"}

  /** What a disk feature reports of one window; a sector has 512 bytes, and two make a kilobyte. */
  predicate IsDiskValue(name: string, prev: Totals, cur: Totals, elapsed: real, v: real) {
    if name == "write_merge" then Gained(prev.writesMerged, cur.writesMerged, v)
    else if name == "iowrite" then Gained(prev.sectorsWritten, cur.sectorsWritten, v / 512.0)
    else if name == "write_kbs" then Gained(prev.sectorsWritten, cur.sectorsWritten, v * elapsed * 2.0)
    else if name == "iowritetime" then Gained(prev.msWriting, cur.msWriting, v)
    else Gained(prev.ioTicks, cur.ioTicks, v * (elapsed * 1000.0))
  }

  lemma CountGain(before: Word64, now: Word64)
    ensures Gained(before, now, Delta(before, now) as real)
  {
  }

  lemma BytesGain(before: Word64, now: Word64)
    ensures Gained(before, now, Delta(before, now) as real * 512.0 / 512.0)
  {
  }

  lemma KilobytesGain(before: Word64, now: Word64, elapsed: real)
    requires elapsed > 0.0
    ensures Gained(before, now, Delta(before, now) as real * 512.0 / 1024.0 / elapsed * elapsed * 2.0)
  {
    QuotientTimes(Delta(before, now) as real * 512.0 / 1024.0, elapsed);
  }

  lemma TicksGain(before: Word64, now: Word64, elapsed: real)
    requires elapsed > 0.0
    ensures Gained(before, now, Delta(before, now) as real / (elapsed * 1000.0) * (elapsed * 1000.0))
  {
    QuotientTimes(Delta(before, now) as real, elapsed * 1000.0);
  }

  lemma RatesOf(prev: Totals, cur: Totals, elapsed: real)
    requires elapsed > 0.0
    ensures var v := Rates(prev, cur, elapsed);
            && v["write_merge"] == Delta(prev.writesMerged, cur.writesMerged) as real
            && v["iowrite"] == Delta(prev.sectorsWritten, cur.sectorsWritten) as real * 512.0
            && v["write_kbs"] == Delta(prev.sectorsWritten, cur.sectorsWritten) as real * 512.0 / 1024.0 / elapsed
            && v["iowritetime"] == Delta(prev.msWriting, cur.msWriting) as real
            && v["util"] == Delta(prev.ioTicks, cur.ioTicks) as real / (elapsed * 1000.0)
  {
  }

  lemma RatesReport(prev: Totals, cur: Totals, elapsed: real, name: string)
    requires elapsed > 0.0 && name in NAMES
    ensures IsDiskValue(name, prev, cur, elapsed, Rates(prev, cur, elapsed)[name])
  {
    RatesOf(prev, cur, elapsed);
    if name == "write_merge" {
      CountGain(prev.writesMerged, cur.writesMerged);
    } else if name == "iowrite" {
      BytesGain(prev.sectorsWritten, cur.sectorsWritten);
    } else if name == "write_kbs" {
      KilobytesGain(prev.sectorsWritten, cur.sectorsWritten, elapsed);
    } else if name == "iowritetime" {
      CountGain(prev.msWriting, cur.msWriting);
    } else {
      TicksGain(prev.ioTicks, cur.ioTicks, elapsed);
    }
  }

  /** A first sample reports zeros; each later one what the counters gained since the one before. */
  lemma SampleReports(s: State, cur: Totals, now: real, name: string)
    requires name in NAMES
    ensures Emitted(s, cur, now).Keys == NAMES
    ensures !s.havePrev ==> Emitted(s, cur, now)[name] == 0.0
    ensures s.havePrev ==> IsDiskValue(name, s.prev, cur, TimeSince(s.prevTime, now), Emitted(s, cur, now)[name])
  {
    if s.havePrev {
      RatesReport(s.prev, cur, TimeSince(s.prevTime, now), name);
    }
  }
}
