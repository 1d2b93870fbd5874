/** Counting predictions against labels, as both the replay tool and the oracle do. */
module Tally {

  type Matrix = seq<seq<nat>>

  /** cm is indexed by true class, then by prediction. */
  datatype Counts = Counts(cm: Matrix, total: nat, correct: nat, bad: nat, unlabeled: nat, gidx: nat)

  /** A dumped row: running index, true class (-1 without a label, -2 out of range) and prediction. */
  datatype Dumped = Dumped(index: nat, truth: int, pred: int)

  datatype Progress = Progress(counts: Counts, dumped: seq<Dumped>)

  predicate IsSquare(cm: Matrix, K: nat) {
    |cm| == K && forall r :: 0 <= r < K ==> |cm[r]| == K
  }

  function Zero(K: nat): Counts {
    Counts(seq(K, _ => seq(K, _ => 0)), 0, 0, 0, 0, 0)
  }

  function Bump(cm: Matrix, r: nat, c: nat): Matrix
    requires r < |cm| && c < |cm[r]|
  {
    cm[r := cm[r][c := cm[r][c] + 1]]
  }

  function Bad(p: Progress): Progress {
    p.(counts := p.counts.(bad := p.counts.bad + 1))
  }

  /** A row that was predicted. */
  function Predicted(p: Progress, truth: int, pred: int, K: nat): Progress
    requires IsSquare(p.counts.cm, K) && 0 <= pred < K && -2 <= truth < K
  {
    var c := p.counts.(gidx := p.counts.gidx + 1);
    Progress(if truth == -1 then c.(unlabeled := c.unlabeled + 1)
             else if truth == -2 then c.(bad := c.bad + 1)
             else c.(cm := Bump(c.cm, truth, pred), total := c.total + 1, correct := c.correct + if pred == truth then 1 else 0),
             p.dumped + [Dumped(c.gidx, truth, pred)])
  }

  class Tally {
    const K: nat
    var cm: Matrix
    var total: nat
    var correct: nat
    var bad: nat
    var unlabeled: nat
    var gidx: nat
    /** What has been printed, were the rows dumped. */
    var dumped: seq<Dumped>

    function View(): Progress
      reads this
    {
      Progress(Counts(cm, total, correct, bad, unlabeled, gidx), dumped)
    }

    predicate Valid()
      reads this
    {
      IsSquare(cm, K)
    }

    constructor (K: nat)
      ensures Valid() && this.K == K && View() == Progress(Zero(K), [])
    {
      this.K := K;
      cm := seq(K, _ => seq(K, _ => 0));
      total, correct, bad, unlabeled, gidx := 0, 0, 0, 0, 0;
      dumped := [];
    }

    method Skip()
      requires Valid()
      modifies this
      ensures Valid() && View() == Bad(old(View()))
    {
      bad := bad + 1;
    }

    method Record(truth: int, pred: int)
      requires Valid() && 0 <= pred < K && -2 <= truth < K
      modifies this
      ensures Valid() && View() == Predicted(old(View()), truth, pred, K)
    {
      gidx := gidx + 1;
      dumped := dumped + [Dumped(gidx, truth, pred)];
      if truth == -1 {
        unlabeled := unlabeled + 1;
      } else if truth == -2 {
        bad := bad + 1;
      } else {
        cm := cm[truth := cm[truth][pred := cm[truth][pred] + 1]];
        total := total + 1;
        if pred == truth {
          correct := correct + 1;
        }
      }
    }
  }
}
