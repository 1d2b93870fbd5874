/** Sums over the confusion matrix, and the report's precision, recall and F1. */
module Metrics {
  import opened Sums
  import opened Tally

  function RowSum(cm: Matrix, K: nat, r: nat): int
    requires IsSquare(cm, K) && r < K
  {
    Sum(cm[r])
  }

  function Column(cm: Matrix, K: nat, c: nat): (v: seq<nat>)
    requires IsSquare(cm, K) && c < K
    ensures |v| == K
  {
    seq(K, r requires 0 <= r < K => cm[r][c])
  }

  function ColumnSum(cm: Matrix, K: nat, c: nat): int
    requires IsSquare(cm, K) && c < K
  {
    Sum(Column(cm, K, c))
  }

  function RowSums(cm: Matrix, K: nat): (v: seq<int>)
    requires IsSquare(cm, K)
    ensures |v| == K
  {
    seq(K, r requires 0 <= r < K => RowSum(cm, K, r))
  }

  function ColumnSums(cm: Matrix, K: nat): (v: seq<int>)
    requires IsSquare(cm, K)
    ensures |v| == K
  {
    seq(K, c requires 0 <= c < K => ColumnSum(cm, K, c))
  }

  function Diagonal(cm: Matrix, K: nat): (v: seq<nat>)
    requires IsSquare(cm, K)
    ensures |v| == K
  {
    seq(K, c requires 0 <= c < K => cm[c][c])
  }

  function All(cm: Matrix, K: nat): int
    requires IsSquare(cm, K)
  {
    Sum(RowSums(cm, K))
  }

  function Trace(cm: Matrix, K: nat): int
    requires IsSquare(cm, K)
  {
    Sum(Diagonal(cm, K))
  }

  /** The column sums of the first n rows. */
  function PartColumns(cm: Matrix, K: nat, n: nat): (v: seq<int>)
    requires IsSquare(cm, K) && n <= K
    ensures |v| == K
  {
    seq(K, c requires 0 <= c < K => Sum(Column(cm, K, c)[..n]))
  }

  /** Adding up by rows or by columns gives the same. */
  lemma {:induction false} RowsAreColumns(cm: Matrix, K: nat, n: nat)
    requires IsSquare(cm, K) && n <= K
    ensures Sum(RowSums(cm, K)[..n]) == Sum(PartColumns(cm, K, n))
  {
    if n == 0 {
      SumOfZeros(PartColumns(cm, K, 0));
    } else {
      RowsAreColumns(cm, K, n - 1);
      assert RowSums(cm, K)[..n][..n - 1] == RowSums(cm, K)[..n - 1];
      forall c | 0 <= c < K
        ensures PartColumns(cm, K, n)[c] == PartColumns(cm, K, n - 1)[c] + cm[n - 1][c]
      {
        assert Column(cm, K, c)[..n][..n - 1] == Column(cm, K, c)[..n - 1];
      }
      SumPlus(PartColumns(cm, K, n - 1), cm[n - 1], PartColumns(cm, K, n));
    }
  }

  lemma ColumnsAddUp(cm: Matrix, K: nat)
    requires IsSquare(cm, K)
    ensures Sum(ColumnSums(cm, K)) == All(cm, K)
  {
    RowsAreColumns(cm, K, K);
    assert RowSums(cm, K)[..K] == RowSums(cm, K);
    assert PartColumns(cm, K, K) == ColumnSums(cm, K) by {
      assert forall c :: 0 <= c < K ==> Column(cm, K, c)[..K] == Column(cm, K, c);
    }
  }

  // ---- the report ----

  function FalsePositives(cm: Matrix, K: nat, c: nat): nat
    requires IsSquare(cm, K) && c < K
  {
    EntryInSum(Column(cm, K, c), c);
    ColumnSum(cm, K, c) - cm[c][c]
  }

  function FalseNegatives(cm: Matrix, K: nat, c: nat): nat
    requires IsSquare(cm, K) && c < K
  {
    EntryInSum(cm[c], c);
    RowSum(cm, K, c) - cm[c][c]
  }

  function Ratio(a: int, b: int): real {
    if b != 0 then a as real / b as real else 0.0
  }

  function HarmonicMean(p: real, r: real): real {
    if p + r != 0.0 then 2.0 * p * r / (p + r) else 0.0
  }

  datatype ClassReport = ClassReport(support: int, precision: real, recall: real, f1: real)

  function ReportOf(cm: Matrix, K: nat, c: nat): ClassReport
    requires IsSquare(cm, K) && c < K
  {
    var tp := cm[c][c];
    var p := Ratio(tp, tp + FalsePositives(cm, K, c));
    var r := Ratio(tp, tp + FalseNegatives(cm, K, c));
    ClassReport(RowSum(cm, K, c), p, r, HarmonicMean(p, r))
  }

  function Reports(cm: Matrix, K: nat): (v: seq<ClassReport>)
    requires IsSquare(cm, K)
    ensures |v| == K
  {
    seq(K, c requires 0 <= c < K => ReportOf(cm, K, c))
  }

  function F1Sum(v: seq<ClassReport>): real {
    if v == [] then 0.0 else F1Sum(v[..|v| - 1]) + v[|v| - 1].f1
  }

  method ClassCounts(cm: Matrix, K: nat, c: nat) returns (tp: int, fp: int, fn: int, support: int)
    requires IsSquare(cm, K) && c < K
    ensures tp == cm[c][c] && fp == FalsePositives(cm, K, c) && fn == FalseNegatives(cm, K, c) && support == RowSum(cm, K, c)
  {
    tp, fp, fn, support := cm[c][c], 0, 0, 0;
    var r := 0;
    while r < K
      invariant 0 <= r <= K
      invariant fp == Sum(Column(cm, K, c)[..r]) && fn == support == Sum(cm[c][..r])
    {
      assert Column(cm, K, c)[..r + 1][..r] == Column(cm, K, c)[..r] && cm[c][..r + 1][..r] == cm[c][..r];
      fp := fp + cm[r][c];
      fn := fn + cm[c][r];
      support := support + cm[c][r];
      r := r + 1;
    }
    assert Column(cm, K, c)[..K] == Column(cm, K, c) && cm[c][..K] == cm[c];
    fp := fp - tp;
    fn := fn - tp;
  }

  method ReportClass(cm: Matrix, K: nat, c: nat) returns (line: ClassReport)
    requires IsSquare(cm, K) && c < K
    ensures line == ReportOf(cm, K, c)
  {
    var tp, fp, fn, support := ClassCounts(cm, K, c);
    var prec := if tp + fp != 0 then tp as real / (tp + fp) as real else 0.0;
    var rec := if tp + fn != 0 then tp as real / (tp + fn) as real else 0.0;
    var f1 := if prec + rec != 0.0 then 2.0 * prec * rec / (prec + rec) else 0.0;
    assert prec == Ratio(tp, tp + fp) && rec == Ratio(tp, tp + fn) && f1 == HarmonicMean(prec, rec);
    line := ClassReport(support, prec, rec, f1);
  }

  method Report(cm: Matrix, K: nat) returns (lines: seq<ClassReport>, macroF1: real)
    requires IsSquare(cm, K) && K > 0
    ensures lines == Reports(cm, K)
    ensures macroF1 == F1Sum(Reports(cm, K)) / K as real
  {
    lines, macroF1 := [], 0.0;
    var c := 0;
    while c < K
      invariant 0 <= c <= K && lines == Reports(cm, K)[..c]
      invariant macroF1 == F1Sum(Reports(cm, K)[..c])
    {
      assert Reports(cm, K)[..c + 1][..c] == Reports(cm, K)[..c];
      var line := ReportClass(cm, K, c);
      macroF1 := macroF1 + line.f1;
      lines := lines + [line];
      assert lines[c] == Reports(cm, K)[c];
      c := c + 1;
    }
    assert Reports(cm, K)[..K] == Reports(cm, K);
    macroF1 := macroF1 / K as real;
  }
}
