/** Identities of the report, and what the counts add up to after any sequence of files. */
module MetricsProofs {
  import opened Bytes
  import opened Mlp
  import opened Csv
  import opened Tally
  import opened Metrics
  import opened Sums
  import opened Replay

  // ---- errors of both kinds ----

  function ErrorsByColumn(cm: Matrix, K: nat): (v: seq<nat>)
    requires IsSquare(cm, K)
    ensures |v| == K
  {
    seq(K, c requires 0 <= c < K => FalsePositives(cm, K, c))
  }

  function ErrorsByRow(cm: Matrix, K: nat): (v: seq<nat>)
    requires IsSquare(cm, K)
    ensures |v| == K
  {
    seq(K, c requires 0 <= c < K => FalseNegatives(cm, K, c))
  }

  /** Every misprediction is one false positive and one false negative. */
  lemma ErrorsCountedOnce(cm: Matrix, K: nat)
    requires IsSquare(cm, K)
    ensures Sum(ErrorsByColumn(cm, K)) == Sum(ErrorsByRow(cm, K)) == All(cm, K) - Trace(cm, K)
  {
    ColumnsAddUp(cm, K);
    SumPlus(ErrorsByColumn(cm, K), Diagonal(cm, K), ColumnSums(cm, K));
    SumPlus(ErrorsByRow(cm, K), Diagonal(cm, K), RowSums(cm, K));
  }

  // ---- the ratios ----

  lemma RatioBounds(a: int, b: int)
    requires 0 <= a <= b
    ensures 0.0 <= Ratio(a, b) <= 1.0
    ensures Ratio(a, b) > 0.0 <==> a > 0
  {
  }

  lemma MeanBounds(p: real, r: real)
    requires 0.0 <= p <= 1.0 && 0.0 <= r <= 1.0
    ensures 0.0 <= HarmonicMean(p, r) <= 1.0
  {
    if p + r > 0.0 {
      TwiceProduct(p, r);
      QuotientBound(2.0 * p * r, p + r);
    }
  }

  lemma TwiceProduct(p: real, r: real)
    requires 0.0 <= p <= 1.0 && 0.0 <= r <= 1.0
    ensures 0.0 <= 2.0 * p * r <= p + r
  {
    ProductAtMost(p, r);
    ProductAtMost(r, p);
    var x := p * r;
    assert x <= p;
    assert x <= r;
    assert x + x <= p + r;
    assert 2.0 * p * r == x + x;
  }

  lemma ProductAtMost(a: real, b: real)
    requires 0.0 <= a && 0.0 <= b <= 1.0
    ensures 0.0 <= a * b <= a
  {
  }

  lemma QuotientBound(a: real, s: real)
    requires s > 0.0 && 0.0 <= a <= s
    ensures 0.0 <= a / s <= 1.0
  {
  }

  lemma CrossMultiply(x: real, a: real, b: real)
    requires b > 0.0 && x * b == a
    ensures x == a / b
  {
  }

  /** With tp > 0 the harmonic mean of precision and recall is 2tp / (2tp + fp + fn). */
  lemma MeanOfRatios(tp: real, a: real, b: real)
    requires tp > 0.0 && a >= tp && b >= tp
    ensures HarmonicMean(tp / a, tp / b) == 2.0 * tp / (a + b)
  {
    var p, r := tp / a, tp / b;
    assert p * a == tp && r * b == tp;
    assert p > 0.0 && r > 0.0;
    var s := p + r;
    assert s * (a * b) == tp * b + tp * a by {
      assert p * (a * b) == (p * a) * b && r * (a * b) == (r * b) * a;
    }
    assert p * r * (a * b) == tp * tp by {
      assert p * r * (a * b) == (p * a) * (r * b);
    }
    var f := 2.0 * tp / (a + b);
    assert f * (a + b) == 2.0 * tp;
    MeanCross(f, s, p * r, tp, a, b);
    CrossMultiply(f, 2.0 * p * r, s);
  }

  lemma MeanCross(f: real, s: real, pr: real, tp: real, a: real, b: real)
    requires tp > 0.0 && a >= tp && b >= tp
    requires s * (a * b) == tp * b + tp * a && pr * (a * b) == tp * tp && f * (a + b) == 2.0 * tp
    ensures f * s == 2.0 * pr
  {
    var ab := a * b;
    assert ab > 0.0;
    assert f * s * ab == f * (tp * (a + b)) == (f * (a + b)) * tp == 2.0 * tp * tp == 2.0 * pr * ab;
    assert (f * s - 2.0 * pr) * ab == 0.0;
  }

  /** Precision, recall and F1 are fractions, and F1 has its usual closed form. */
  lemma ReportBounds(cm: Matrix, K: nat, c: nat)
    requires IsSquare(cm, K) && c < K
    ensures var m := ReportOf(cm, K, c); var tp := cm[c][c]; var fp := FalsePositives(cm, K, c); var fn := FalseNegatives(cm, K, c);
            && 0.0 <= m.precision <= 1.0 && 0.0 <= m.recall <= 1.0 && 0.0 <= m.f1 <= 1.0
            && (tp > 0 ==> m.f1 == (2 * tp) as real / (2 * tp + fp + fn) as real)
            && (tp == 0 ==> m.f1 == 0.0)
  {
    var tp, fp, fn := cm[c][c], FalsePositives(cm, K, c), FalseNegatives(cm, K, c);
    RatioBounds(tp, tp + fp);
    RatioBounds(tp, tp + fn);
    MeanBounds(Ratio(tp, tp + fp), Ratio(tp, tp + fn));
    if tp > 0 {
      MeanOfRatios(tp as real, (tp + fp) as real, (tp + fn) as real);
    }
  }

  lemma {:induction false} F1SumBounds(cm: Matrix, K: nat, n: nat)
    requires IsSquare(cm, K) && n <= K
    ensures 0.0 <= F1Sum(Reports(cm, K)[..n]) <= n as real
  {
    if n > 0 {
      F1SumBounds(cm, K, n - 1);
      ReportBounds(cm, K, n - 1);
      assert Reports(cm, K)[..n][..n - 1] == Reports(cm, K)[..n - 1];
    }
  }

  lemma MacroF1Bounds(cm: Matrix, K: nat)
    requires IsSquare(cm, K) && K > 0
    ensures 0.0 <= F1Sum(Reports(cm, K)) / K as real <= 1.0
  {
    F1SumBounds(cm, K, K);
    assert Reports(cm, K)[..K] == Reports(cm, K);
    QuotientBound(F1Sum(Reports(cm, K)), K as real);
  }

  // ---- conservation ----

  lemma BumpSums(cm: Matrix, K: nat, r: nat, c: nat)
    requires IsSquare(cm, K) && r < K && c < K
    ensures IsSquare(Bump(cm, r, c), K)
    ensures All(Bump(cm, r, c), K) == All(cm, K) + 1
    ensures Trace(Bump(cm, r, c), K) == Trace(cm, K) + if r == c then 1 else 0
  {
    var d := Bump(cm, r, c);
    SumUpdate(cm[r], c, cm[r][c] + 1);
    assert RowSums(d, K) == RowSums(cm, K)[r := RowSum(cm, K, r) + 1];
    SumUpdate(RowSums(cm, K), r, RowSum(cm, K, r) + 1);
    if r == c {
      assert Diagonal(d, K) == Diagonal(cm, K)[c := cm[c][c] + 1];
      SumUpdate(Diagonal(cm, K), c, cm[c][c] + 1);
    } else {
      assert Diagonal(d, K) == Diagonal(cm, K);
    }
  }

  /** The matrix holds every labelled row once, the correct ones on its diagonal; every predicted row was dumped. */
  predicate Balanced(p: Progress, K: nat) {
    && IsSquare(p.counts.cm, K)
    && All(p.counts.cm, K) == p.counts.total && Trace(p.counts.cm, K) == p.counts.correct
    && |p.dumped| == p.counts.gidx
  }

  function Seen(c: Counts): nat {
    c.total + c.unlabeled + c.bad
  }

  lemma PredictedBalanced(p: Progress, truth: int, pred: int, K: nat)
    requires Balanced(p, K) && 0 <= pred < K && -2 <= truth < K
    ensures Balanced(Predicted(p, truth, pred, K), K) && Seen(Predicted(p, truth, pred, K).counts) == Seen(p.counts) + 1
  {
    if truth >= 0 {
      BumpSums(p.counts.cm, K, truth, pred);
    }
  }

  function DataRows(lines: seq<string>): nat {
    if lines == [] then 0 else (if Trim(lines[0]) == "" then 0 else 1) + DataRows(lines[1..])
  }

  lemma RowBalanced(tool: Tool, columns: seq<int>, labelCol: int, line: string, p: Progress)
    requires ToolOk(tool) && |columns| == |tool.names| && Balanced(p, tool.params.nOut)
    ensures Balanced(ToolRow(tool, columns, labelCol, line, p), tool.params.nOut)
    ensures Seen(ToolRow(tool, columns, labelCol, line, p).counts) == Seen(p.counts) + if Trim(line) == "" then 0 else 1
  {
    var v := Cells(line);
    if Trim(line) != "" && Reaches(v, columns, labelCol) {
      var raw := Numbers(v, columns, tool.parsers.number);
      var y := TrueClass(v, labelCol, tool.parsers.integer, tool.params.nOut);
      if raw.Some? && y.Some? {
        PredictedBalanced(p, y.value, Prediction(tool, raw.value), tool.params.nOut);
      }
    }
  }

  lemma {:induction false} RowsBalanced(tool: Tool, columns: seq<int>, labelCol: int, lines: seq<string>, p: Progress)
    requires ToolOk(tool) && |columns| == |tool.names| && Balanced(p, tool.params.nOut)
    ensures Balanced(ToolRows(tool, columns, labelCol, lines, p), tool.params.nOut)
    ensures Seen(ToolRows(tool, columns, labelCol, lines, p).counts) == Seen(p.counts) + DataRows(lines)
    decreases |lines|
  {
    if lines != [] {
      RowBalanced(tool, columns, labelCol, lines[0], p);
      RowsBalanced(tool, columns, labelCol, lines[1..], ToolRow(tool, columns, labelCol, lines[0], p));
    }
  }

  /** The non-blank rows after the headers of the readable files. */
  function AllDataRows(files: seq<Option<seq<string>>>): nat {
    if files == [] then 0
    else (if files[0].Some? && files[0].value != [] then DataRows(files[0].value[1..]) else 0) + AllDataRows(files[1..])
  }

  /** The counts stay balanced; unless a missing column stopped it, the tool has counted every non-blank row of every readable file exactly once. */
  lemma {:induction false} FilesBalanced(tool: Tool, files: seq<Option<seq<string>>>, p: Progress)
    requires ToolOk(tool) && Balanced(p, tool.params.nOut)
    ensures var o := ToolFiles(tool, files, p);
            && Balanced(o.progress, tool.params.nOut)
            && (o.Done? ==> Seen(o.progress.counts) == Seen(p.counts) + AllDataRows(files))
    decreases |files|
  {
    if files != [] {
      var o := ToolFile(tool, files[0], p);
      if files[0].Some? && files[0].value != [] && o.Done? {
        var cols := Cells(files[0].value[0]);
        RowsBalanced(tool, Columns(cols, tool.names), FirstIndex(cols, "label"), files[0].value[1..], p);
      }
      if o.Done? {
        FilesBalanced(tool, files[1..], o.progress);
      }
    }
  }

  lemma ZeroBalanced(K: nat)
    ensures Balanced(Progress(Zero(K), []), K) && Seen(Zero(K)) == 0
  {
    var cm := Zero(K).cm;
    forall r | 0 <= r < K
      ensures RowSums(cm, K)[r] == 0
    {
      SumOfZeros(cm[r]);
    }
    SumOfZeros(RowSums(cm, K));
    SumOfZeros(Diagonal(cm, K));
  }

  /** The whole program: what its final counts add up to, and the errors they leave. */
  lemma ReplayConserves(tool: Tool, files: seq<Option<seq<string>>>)
    requires ToolOk(tool)
    ensures var K := tool.params.nOut; var o := ToolFiles(tool, files, Progress(Zero(K), []));
            var c := o.progress.counts;
            && IsSquare(c.cm, K) && All(c.cm, K) == c.total && Trace(c.cm, K) == c.correct
            && (o.Done? ==> Seen(c) == AllDataRows(files))
            && Sum(ErrorsByColumn(c.cm, K)) == Sum(ErrorsByRow(c.cm, K)) == c.total - c.correct
  {
    var K := tool.params.nOut;
    ZeroBalanced(K);
    FilesBalanced(tool, files, Progress(Zero(K), []));
    ErrorsCountedOnce(ToolFiles(tool, files, Progress(Zero(K), [])).progress.counts.cm, K);
  }
}
