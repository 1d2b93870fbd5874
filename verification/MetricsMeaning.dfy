/** The report in terms of the rows that were dumped. */
module MetricsMeaning {
  import opened Bytes
  import opened Mlp
  import opened Csv
  import opened Tally
  import opened Metrics
  import opened Sums
  import opened Replay
  import P = MetricsProofs

  /** Rows of true class r that were predicted as c. */
  function Occurrences(d: seq<Dumped>, r: int, c: int): nat {
    if d == [] then 0
    else
      var last := d[|d| - 1];
      Occurrences(d[..|d| - 1], r, c) + if last.truth == r && last.pred == c then 1 else 0
  }

  function OfClass(d: seq<Dumped>, r: int): nat {
    if d == [] then 0 else OfClass(d[..|d| - 1], r) + if d[|d| - 1].truth == r then 1 else 0
  }

  /** Labelled rows that were predicted as c. */
  function PredictedAs(d: seq<Dumped>, c: int): nat {
    if d == [] then 0 else PredictedAs(d[..|d| - 1], c) + if d[|d| - 1].truth >= 0 && d[|d| - 1].pred == c then 1 else 0
  }

  /** The matrix counts the dumped rows, by class and prediction, by class, and by prediction. */
  predicate CountsRows(p: Progress, K: nat) {
    && IsSquare(p.counts.cm, K)
    && (forall r, c :: 0 <= r < K && 0 <= c < K ==> p.counts.cm[r][c] == Occurrences(p.dumped, r, c))
    && (forall r :: 0 <= r < K ==> RowSum(p.counts.cm, K, r) == OfClass(p.dumped, r))
    && (forall c :: 0 <= c < K ==> ColumnSum(p.counts.cm, K, c) == PredictedAs(p.dumped, c))
  }

  lemma OneMore(d: seq<Dumped>, x: Dumped, r: int, c: int)
    ensures Occurrences(d + [x], r, c) == Occurrences(d, r, c) + if x.truth == r && x.pred == c then 1 else 0
    ensures OfClass(d + [x], r) == OfClass(d, r) + if x.truth == r then 1 else 0
    ensures PredictedAs(d + [x], c) == PredictedAs(d, c) + if x.truth >= 0 && x.pred == c then 1 else 0
  {
    assert (d + [x])[..|d|] == d;
  }

  lemma BumpedSums(cm: Matrix, K: nat, r: nat, c: nat, i: nat)
    requires IsSquare(cm, K) && r < K && c < K && i < K
    ensures IsSquare(Bump(cm, r, c), K)
    ensures RowSum(Bump(cm, r, c), K, i) == RowSum(cm, K, i) + if i == r then 1 else 0
    ensures ColumnSum(Bump(cm, r, c), K, i) == ColumnSum(cm, K, i) + if i == c then 1 else 0
  {
    SumUpdate(cm[r], c, cm[r][c] + 1);
    var d := Bump(cm, r, c);
    if i == c {
      assert Column(d, K, c) == Column(cm, K, c)[r := cm[r][c] + 1];
      SumUpdate(Column(cm, K, c), r, cm[r][c] + 1);
    } else {
      assert Column(d, K, i) == Column(cm, K, i);
    }
  }

  lemma PredictedCounts(p: Progress, truth: int, pred: int, K: nat)
    requires CountsRows(p, K) && 0 <= pred < K && -2 <= truth < K
    ensures CountsRows(Predicted(p, truth, pred, K), K)
  {
    var q := Predicted(p, truth, pred, K);
    var x := Dumped(p.counts.gidx + 1, truth, pred);
    forall r, c | 0 <= r < K && 0 <= c < K
      ensures q.counts.cm[r][c] == Occurrences(q.dumped, r, c)
      ensures RowSum(q.counts.cm, K, r) == OfClass(q.dumped, r) && ColumnSum(q.counts.cm, K, c) == PredictedAs(q.dumped, c)
    {
      OneMore(p.dumped, x, r, c);
      if truth >= 0 {
        BumpedSums(p.counts.cm, K, truth, pred, r);
        BumpedSums(p.counts.cm, K, truth, pred, c);
      }
    }
  }

  lemma RowCounts(tool: Tool, columns: seq<int>, labelCol: int, line: string, p: Progress)
    requires ToolOk(tool) && |columns| == |tool.names| && CountsRows(p, tool.params.nOut)
    ensures CountsRows(ToolRow(tool, columns, labelCol, line, p), tool.params.nOut)
  {
    var v := Cells(line);
    if Trim(line) != "" && Reaches(v, columns, labelCol) {
      var raw := Numbers(v, columns, tool.parsers.number);
      var y := TrueClass(v, labelCol, tool.parsers.integer, tool.params.nOut);
      if raw.Some? && y.Some? {
        PredictedCounts(p, y.value, Prediction(tool, raw.value), tool.params.nOut);
      }
    }
  }

  lemma {:induction false} RowsCount(tool: Tool, columns: seq<int>, labelCol: int, lines: seq<string>, p: Progress)
    requires ToolOk(tool) && |columns| == |tool.names| && CountsRows(p, tool.params.nOut)
    ensures CountsRows(ToolRows(tool, columns, labelCol, lines, p), tool.params.nOut)
    decreases |lines|
  {
    if lines != [] {
      RowCounts(tool, columns, labelCol, lines[0], p);
      RowsCount(tool, columns, labelCol, lines[1..], ToolRow(tool, columns, labelCol, lines[0], p));
    }
  }

  lemma {:induction false} FilesCount(tool: Tool, files: seq<Option<seq<string>>>, p: Progress)
    requires ToolOk(tool) && CountsRows(p, tool.params.nOut)
    ensures CountsRows(ToolFiles(tool, files, p).progress, tool.params.nOut)
    decreases |files|
  {
    if files != [] {
      var o := ToolFile(tool, files[0], p);
      if files[0].Some? && files[0].value != [] && o.Done? {
        var cols := Cells(files[0].value[0]);
        RowsCount(tool, Columns(cols, tool.names), FirstIndex(cols, "label"), files[0].value[1..], p);
      }
      if o.Done? {
        FilesCount(tool, files[1..], o.progress);
      }
    }
  }

  lemma NothingCounted(K: nat)
    ensures CountsRows(Progress(Zero(K), []), K)
  {
    var cm := Zero(K).cm;
    forall i | 0 <= i < K
      ensures RowSum(cm, K, i) == 0 && ColumnSum(cm, K, i) == 0
    {
      SumOfZeros(cm[i]);
      SumOfZeros(Column(cm, K, i));
    }
  }

  /** The matrix of a replay, whole or stopped, holds for each class and prediction the number of dumped rows of both. */
  lemma MatrixCountsRows(tool: Tool, files: seq<Option<seq<string>>>, r: nat, c: nat)
    requires ToolOk(tool) && r < tool.params.nOut && c < tool.params.nOut
    ensures var K := tool.params.nOut; var p := ToolFiles(tool, files, Progress(Zero(K), [])).progress;
            IsSquare(p.counts.cm, K) && p.counts.cm[r][c] == Occurrences(p.dumped, r, c)
  {
    NothingCounted(tool.params.nOut);
    FilesCount(tool, files, Progress(Zero(tool.params.nOut), []));
  }

  /** The share a in b, where a share in nothing is 0. */
  predicate IsShare(f: real, a: int, b: int) {
    if b == 0 then f == 0.0 else f * b as real == a as real
  }

  lemma RatioIsShare(a: int, b: int)
    ensures IsShare(Ratio(a, b), a, b)
  {
    if b != 0 {
      var f := a as real / b as real;
      assert f * b as real == a as real;
    }
  }

  /** F1 is the share of twice the hits in the rows of the class and those predicted as it. */
  lemma ScoreIsShare(cm: Matrix, K: nat, c: nat)
    requires IsSquare(cm, K) && c < K
    ensures IsShare(ReportOf(cm, K, c).f1, 2 * cm[c][c], RowSum(cm, K, c) + ColumnSum(cm, K, c))
  {
    P.ReportBounds(cm, K, c);
    EntryInSum(cm[c], c);
    EntryInSum(Column(cm, K, c), c);
    RatioIsShare(2 * cm[c][c], RowSum(cm, K, c) + ColumnSum(cm, K, c));
  }

  /** The report of a class, from the dumped rows alone. */
  lemma ReportCountsRows(tool: Tool, files: seq<Option<seq<string>>>, c: nat)
    requires ToolOk(tool) && c < tool.params.nOut
    ensures var K := tool.params.nOut; var p := ToolFiles(tool, files, Progress(Zero(K), [])).progress;
            && IsSquare(p.counts.cm, K)
            && var m := ReportOf(p.counts.cm, K, c); var hits := Occurrences(p.dumped, c, c);
               && m.support == OfClass(p.dumped, c)
               && IsShare(m.precision, hits, PredictedAs(p.dumped, c))
               && IsShare(m.recall, hits, OfClass(p.dumped, c))
               && IsShare(m.f1, 2 * hits, OfClass(p.dumped, c) + PredictedAs(p.dumped, c))
  {
    var K := tool.params.nOut;
    NothingCounted(K);
    FilesCount(tool, files, Progress(Zero(K), []));
    var p := ToolFiles(tool, files, Progress(Zero(K), [])).progress;
    ReportFromCounts(p, K, c);
  }

  lemma ReportFromCounts(p: Progress, K: nat, c: nat)
    requires CountsRows(p, K) && c < K
    ensures var m := ReportOf(p.counts.cm, K, c); var hits := Occurrences(p.dumped, c, c);
            && m.support == OfClass(p.dumped, c)
            && IsShare(m.precision, hits, PredictedAs(p.dumped, c))
            && IsShare(m.recall, hits, OfClass(p.dumped, c))
            && IsShare(m.f1, 2 * hits, OfClass(p.dumped, c) + PredictedAs(p.dumped, c))
  {
    var hits := Occurrences(p.dumped, c, c);
    RatioIsShare(hits, PredictedAs(p.dumped, c));
    RatioIsShare(hits, OfClass(p.dumped, c));
    ScoreIsShare(p.counts.cm, K, c);
  }

  lemma {:induction false} ScoresAddUp(v: seq<ClassReport>, f: seq<real>)
    requires |v| == |f| && forall i :: 0 <= i < |v| ==> v[i].f1 == f[i]
    ensures F1Sum(v) == RealSum(f)
    decreases |v|
  {
    if v != [] {
      ScoresAddUp(v[..|v| - 1], f[..|v| - 1]);
    }
  }

  lemma ShareUnique(f: real, g: real, a: int, b: int)
    requires IsShare(f, a, b) && IsShare(g, a, b)
    ensures f == g
  {
    if b != 0 {
      assert (f - g) * b as real == 0.0;
    }
  }

  /** F1 of a class, as a share. */
  predicate IsScore(f: real, cm: Matrix, K: nat, c: nat)
    requires IsSquare(cm, K) && c < K
  {
    IsShare(f, 2 * cm[c][c], RowSum(cm, K, c) + ColumnSum(cm, K, c))
  }

  lemma ScoreReported(f: real, cm: Matrix, K: nat, c: nat)
    requires IsSquare(cm, K) && c < K && IsScore(f, cm, K, c)
    ensures ReportOf(cm, K, c).f1 == f
  {
    ScoreIsShare(cm, K, c);
    ShareUnique(f, ReportOf(cm, K, c).f1, 2 * cm[c][c], RowSum(cm, K, c) + ColumnSum(cm, K, c));
  }

  /** The sum behind the macro F1 is that of the classes' shares. */
  lemma MacroF1AddsUp(cm: Matrix, K: nat, f: seq<real>)
    requires IsSquare(cm, K) && |f| == K && forall c :: 0 <= c < K ==> IsScore(f[c], cm, K, c)
    ensures F1Sum(Reports(cm, K)) == RealSum(f)
  {
    forall c | 0 <= c < K
      ensures Reports(cm, K)[c].f1 == f[c]
    {
      ScoreReported(f[c], cm, K, c);
    }
    ScoresAddUp(Reports(cm, K), f);
  }
}
