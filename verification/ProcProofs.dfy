/** What the diskstats totals and the busy fraction mean. */
module ProcProofs {
  import opened Bytes
  import opened Counters
  import opened Sums
  import opened ProcCollector

  predicate WellFormed(line: Line)
    requires |line| >= 14
  {
    forall k :: 0 <= k < 4 ==> Parses(line, k)
  }

  /** The lines of whole disks, in order. */
  function DiskLines(lines: seq<Line>, disks: set<string>): (d: seq<Line>)
    ensures forall i :: 0 <= i < |d| ==> IsDiskLine(d[i], disks)
  {
    if lines == [] then []
    else
      var n := |lines| - 1;
      DiskLines(lines[..n], disks) + if IsDiskLine(lines[n], disks) then [lines[n]] else []
  }

  predicate AllWellFormed(lines: seq<Line>, disks: set<string>) {
    forall i :: 0 <= i < |lines| ==> IsDiskLine(lines[i], disks) ==> WellFormed(lines[i])
  }

  /** The k-th field of each line. */
  function Column(lines: seq<Line>, k: nat): (c: seq<int>)
    requires k < 4 && forall i :: 0 <= i < |lines| ==> |lines[i]| >= 14
    ensures |c| == |lines|
  {
    seq(|lines|, i requires 0 <= i < |lines| => if Parses(lines[i], k) then lines[i][FIELDS[k]].number.value else 0)
  }

  lemma {:induction false} ContributionsAreColumn(lines: seq<Line>, disks: set<string>, k: nat)
    requires k < 4 && AllWellFormed(lines, disks)
    ensures Sum(Contributions(lines, disks, k)) == Sum(Column(DiskLines(lines, disks), k))
  {
    if lines != [] {
      var n := |lines| - 1;
      ContributionsAreColumn(lines[..n], disks, k);
      assert Contributions(lines, disks, k)[..n] == Contributions(lines[..n], disks, k);
      if IsDiskLine(lines[n], disks) {
        assert Parses(lines[n], k);
        assert Column(DiskLines(lines, disks), k) == Column(DiskLines(lines[..n], disks), k) + [Contribution(lines[n], disks, k)];
        SumAppend(Column(DiskLines(lines[..n], disks), k), Contribution(lines[n], disks, k));
      } else {
        assert DiskLines(lines, disks) == DiskLines(lines[..n], disks);
      }
    }
  }

  /** On well-formed lines each total is its field summed over the whole disks, short of 64-bit overflow. */
  lemma TotalsAreFieldSums(lines: seq<Line>, disks: set<string>, k: nat)
    requires k < 4 && AllWellFormed(lines, disks)
    ensures Total(lines, disks, k) == Sum(Column(DiskLines(lines, disks), k)) % WORD
  {
    ContributionsAreColumn(lines, disks, k);
  }

  /** Position of the first field that is no number, or 4. */
  function FirstBad(line: Line): (b: nat)
    requires |line| >= 14
    ensures b <= 4 && (b < 4 ==> !Parses(line, b)) && forall k :: 0 <= k < b ==> Parses(line, k)
  {
    if !Parses(line, 0) then 0 else if !Parses(line, 1) then 1 else if !Parses(line, 2) then 2 else if !Parses(line, 3) then 3 else 4
  }

  /** A line adds exactly the fields before its first bad one. */
  lemma LineAddsPrefix(line: Line, disks: set<string>, k: nat)
    requires IsDiskLine(line, disks) && k < 4
    ensures Contribution(line, disks, k) == if k < FirstBad(line) then line[FIELDS[k]].number.value else 0
  {
  }

  /** So a malformed line is ignored, as the source's comment has it, exactly when those fields are all zero. */
  lemma MalformedLineIgnoredWhen(line: Line, disks: set<string>)
    requires IsDiskLine(line, disks) && !WellFormed(line)
    ensures (forall k :: 0 <= k < 4 ==> Contribution(line, disks, k) == 0)
            <==> forall k :: 0 <= k < FirstBad(line) ==> line[FIELDS[k]].number == Some(0)
  {
    forall k | 0 <= k < 4
      ensures Contribution(line, disks, k) == if k < FirstBad(line) then line[FIELDS[k]].number.value else 0
    {
      LineAddsPrefix(line, disks, k);
    }
    assert FirstBad(line) < 4;
  }

  // ---- the busy fraction ----

  /** Each disk's tick count rose by at most ms, the elapsed milliseconds. */
  predicate TicksWithin(before: seq<int>, after: seq<int>, ms: real) {
    |before| == |after| && forall i :: 0 <= i < |before| ==> before[i] <= after[i] && (after[i] - before[i]) as real <= ms
  }

  /** So n disks together gain at most n times as many. */
  lemma {:induction false} TickSumWithin(before: seq<int>, after: seq<int>, n: real, ms: real)
    requires TicksWithin(before, after, ms) && n == |before| as real
    ensures 0 <= Sum(after) - Sum(before)
    ensures (Sum(after) - Sum(before)) as real <= n * ms
    decreases |before|
  {
    if before != [] {
      var k := |before| - 1;
      TickSumWithin(before[..k], after[..k], n - 1.0, ms);
      OneMore(n, ms);
    }
  }

  lemma OneMore(n: real, ms: real)
    ensures n * ms == (n - 1.0) * ms + ms
  {
  }

  /** The tick counts of the whole disks. */
  function Ticks(lines: seq<Line>, disks: set<string>): seq<int> {
    Column(DiskLines(lines, disks), 3)
  }

  /** Readable lines whose ticks do not overflow. */
  predicate Readable(lines: seq<Line>, disks: set<string>) {
    AllWellFormed(lines, disks) && 0 <= Sum(Ticks(lines, disks)) < WORD
  }

  lemma TotalOfTicks(lines: seq<Line>, disks: set<string>)
    requires Readable(lines, disks)
    ensures DiskTotals(lines, disks).ioTicks == Sum(Ticks(lines, disks))
  {
    TotalsAreFieldSums(lines, disks, 3);
  }

  lemma UtilOf(prev: Totals, cur: Totals, before: real, now: real)
    requires before < now
    ensures Emitted(State(prev, true, before), cur, now)["util"] == Delta(prev.ioTicks, cur.ioTicks) as real / ((now - before) * 1000.0)
  {
  }

  lemma TickRate(a: seq<int>, b: seq<int>, n: real, ms: real)
    requires ms > 0.0 && TicksWithin(a, b, ms) && n == |b| as real
    ensures 0.0 <= Delta(Sum(a), Sum(b)) as real / ms <= n
  {
    TickSumWithin(a, b, n, ms);
    RateOf(Sum(a), Sum(b), n, ms);
  }

  lemma RateOf(a: int, b: int, n: real, ms: real)
    requires ms > 0.0 && a <= b && (b - a) as real <= n * ms
    ensures 0.0 <= Delta(a, b) as real / ms <= n
  {
  }

  lemma UtilWithin(prev: Totals, cur: Totals, a: seq<int>, b: seq<int>, before: real, now: real)
    requires before < now && TicksWithin(a, b, (now - before) * 1000.0)
    requires prev.ioTicks == Sum(a) && cur.ioTicks == Sum(b)
    ensures 0.0 <= Emitted(State(prev, true, before), cur, now)["util"] <= |b| as real
  {
    UtilOf(prev, cur, before, now);
    TickRate(a, b, |b| as real, (now - before) * 1000.0);
  }

  /** The `util` of a window between two readings of the file. */
  function Util(first: seq<Line>, next: seq<Line>, disks: set<string>, before: real, now: real): real {
    Emitted(State(DiskTotals(first, disks), true, before), DiskTotals(next, disks), now)["util"]
  }

  /** Over a window in which no line's ticks rise by more than the elapsed time, `util` is at most the number of disk lines. */
  lemma UtilBound(first: seq<Line>, next: seq<Line>, disks: set<string>, before: real, now: real)
    requires Readable(first, disks) && Readable(next, disks)
    requires before < now && TicksWithin(Ticks(first, disks), Ticks(next, disks), (now - before) * 1000.0)
    ensures 0.0 <= Util(first, next, disks, before, now) <= |DiskLines(next, disks)| as real
  {
    TotalOfTicks(first, disks);
    TotalOfTicks(next, disks);
    UtilWithin(DiskTotals(first, disks), DiskTotals(next, disks), Ticks(first, disks), Ticks(next, disks), before, now);
  }

  // ---- what the kernel writes: one line a disk ----

  function DiskNames(lines: seq<Line>, disks: set<string>): (names: seq<string>)
    ensures |names| == |DiskLines(lines, disks)| && forall i :: 0 <= i < |names| ==> names[i] in disks
  {
    seq(|DiskLines(lines, disks)|, i requires 0 <= i < |DiskLines(lines, disks)| => DiskLines(lines, disks)[i][2].text)
  }

  predicate DistinctNames(names: seq<string>) {
    forall i, j :: 0 <= i < j < |names| ==> names[i] != names[j]
  }

  /** A stable set of disks, one line each, none busy for longer than the window lasts. */
  predicate BusyWindow(first: seq<Line>, next: seq<Line>, disks: set<string>, before: real, now: real) {
    && Readable(first, disks) && Readable(next, disks) && before < now
    && DiskNames(first, disks) == DiskNames(next, disks) && DistinctNames(DiskNames(next, disks))
    && TicksWithin(Ticks(first, disks), Ticks(next, disks), (now - before) * 1000.0)
  }

  lemma {:induction false} DistinctFit(names: seq<string>, disks: set<string>)
    requires DistinctNames(names) && forall i :: 0 <= i < |names| ==> names[i] in disks
    ensures |names| <= |disks|
    decreases |names|
  {
    if names != [] {
      var n := |names| - 1;
      DistinctFit(names[..n], disks - {names[n]});
    }
  }

  /** In such a window `util` is at most the number of whole disks. */
  lemma UtilWithinDisks(first: seq<Line>, next: seq<Line>, disks: set<string>, before: real, now: real)
    requires BusyWindow(first, next, disks, before, now)
    ensures 0.0 <= Util(first, next, disks, before, now) <= |disks| as real
  {
    UtilBound(first, next, disks, before, now);
    DistinctFit(DiskNames(next, disks), disks);
  }

  /** A disk's line with the given ticks. */
  function DiskLine(name: string, ticks: Word64): (line: Line)
    ensures |line| >= 14 && line[2].text == name && WellFormed(line) && line[12].number == Some(ticks)
  {
    var zero := Token("", Some(0));
    [zero, zero, Token(name, None), zero, zero, zero, zero, zero, zero, zero, zero, zero, Token("", Some(ticks)), zero]
  }

  function LinesOf(names: seq<string>, ticks: Word64): (lines: seq<Line>)
    ensures |lines| == |names| && forall i :: 0 <= i < |names| ==> lines[i] == DiskLine(names[i], ticks)
  {
    seq(|names|, i requires 0 <= i < |names| => DiskLine(names[i], ticks))
  }

  lemma {:induction false} AllDiskLines(lines: seq<Line>, disks: set<string>)
    requires forall i :: 0 <= i < |lines| ==> IsDiskLine(lines[i], disks)
    ensures DiskLines(lines, disks) == lines
    decreases |lines|
  {
    if lines != [] {
      AllDiskLines(lines[..|lines| - 1], disks);
    }
  }

  /** Zeros, or ones. */
  lemma {:induction false} SumOfSame(xs: seq<int>, busy: bool)
    requires forall i :: 0 <= i < |xs| ==> xs[i] == if busy then 1 else 0
    ensures Sum(xs) == if busy then |xs| else 0
  {
    if xs != [] {
      SumOfSame(xs[..|xs| - 1], busy);
    }
  }

  lemma TicksOfLine(name: string, ticks: Word64)
    ensures Parses(DiskLine(name, ticks), 3) && DiskLine(name, ticks)[FIELDS[3]].number.value == ticks
  {
  }

  lemma ColumnOfTicks(names: seq<string>, ticks: Word64)
    ensures forall i :: 0 <= i < |names| ==> Column(LinesOf(names, ticks), 3)[i] == ticks
  {
    forall i | 0 <= i < |names|
      ensures Column(LinesOf(names, ticks), 3)[i] == ticks
    {
      TicksOfLine(names[i], ticks);
    }
  }

  lemma LinesListed(names: seq<string>, ticks: Word64, disks: set<string>)
    requires forall i :: 0 <= i < |names| ==> names[i] in disks
    ensures DiskLines(LinesOf(names, ticks), disks) == LinesOf(names, ticks)
    ensures AllWellFormed(LinesOf(names, ticks), disks) && DiskNames(LinesOf(names, ticks), disks) == names
  {
    AllDiskLines(LinesOf(names, ticks), disks);
  }

  lemma LinesTicks(names: seq<string>, ticks: Word64, disks: set<string>)
    requires forall i :: 0 <= i < |names| ==> names[i] in disks
    ensures var t := Ticks(LinesOf(names, ticks), disks); |t| == |names| && forall i :: 0 <= i < |names| ==> t[i] == ticks
  {
    LinesListed(names, ticks, disks);
    ColumnOfTicks(names, ticks);
  }

  lemma LinesReadable(names: seq<string>, busy: bool, disks: set<string>)
    requires |names| < WORD && forall i :: 0 <= i < |names| ==> names[i] in disks
    ensures var lines := LinesOf(names, if busy then 1 else 0);
            Readable(lines, disks) && DiskTotals(lines, disks).ioTicks == if busy then |names| else 0
  {
    var lines := LinesOf(names, if busy then 1 else 0);
    LinesListed(names, if busy then 1 else 0, disks);
    LinesTicks(names, if busy then 1 else 0, disks);
    SumOfSame(Ticks(lines, disks), busy);
    TotalOfTicks(lines, disks);
  }

  lemma OneMillisecond(prev: Totals, cur: Totals, n: nat)
    requires prev.ioTicks == 0 && cur.ioTicks == n
    ensures Emitted(State(prev, true, 0.0), cur, 0.001)["util"] == n as real
  {
    UtilOf(prev, cur, 0.0, 0.001);
  }

  /** Any disks that are busy throughout a millisecond make `util` their number. */
  lemma UtilReached(names: seq<string>, disks: set<string>)
    requires DistinctNames(names) && |names| < WORD && forall i :: 0 <= i < |names| ==> names[i] in disks
    ensures var first, next := LinesOf(names, 0), LinesOf(names, 1);
            BusyWindow(first, next, disks, 0.0, 0.001) && Util(first, next, disks, 0.0, 0.001) == |names| as real
  {
    LinesListed(names, 0, disks);
    LinesListed(names, 1, disks);
    LinesTicks(names, 0, disks);
    LinesTicks(names, 1, disks);
    LinesReadable(names, false, disks);
    LinesReadable(names, true, disks);
    OneMillisecond(DiskTotals(LinesOf(names, 0), disks), DiskTotals(LinesOf(names, 1), disks), |names|);
  }

  predicate UtilIsFraction(first: seq<Line>, next: seq<Line>, disks: set<string>, before: real, now: real) {
    BusyWindow(first, next, disks, before, now) ==> Util(first, next, disks, before, now) <= 1.0
  }

  lemma TwoDisksOverflow(disks: set<string>)
    requires |disks| > 1
    ensures exists first, next, before, now :: !UtilIsFraction(first, next, disks, before, now)
  {
    var a :| a in disks;
    var others := disks - {a};
    assert |others| == |disks| - 1;
    var b :| b in others;
    UtilReached([a, b], disks);
    assert !UtilIsFraction(LinesOf([a, b], 0), LinesOf([a, b], 1), disks, 0.0, 0.001);
  }

  /** So `util` is the fraction its comment calls it, in every such window, exactly when there is at most one whole disk. */
  lemma UtilIsFractionWhen(disks: set<string>)
    ensures (forall first, next, before, now :: UtilIsFraction(first, next, disks, before, now)) <==> |disks| <= 1
  {
    if |disks| <= 1 {
      forall first, next, before, now
        ensures UtilIsFraction(first, next, disks, before, now)
      {
        if BusyWindow(first, next, disks, before, now) {
          UtilWithinDisks(first, next, disks, before, now);
        }
      }
    } else {
      TwoDisksOverflow(disks);
    }
  }
}
