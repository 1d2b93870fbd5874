/** The debouncer against the declarative account of episodes as maximal blocks of windows. */
module DebouncerProofs {
  import opened Debouncer

  lemma {:induction false} StreakIsBlock(r: Rule, h: seq<Window>)
    requires h != []
    ensures Streak(r, h) == 0 <==> !Alarming(r, h[|h| - 1])
    ensures Streak(r, h) > 0 ==> StartsBlock(r, h, |h| - Streak(r, h), |h|)
    ensures forall a :: IsBlock(r, h, a, |h|) ==> |h| - a <= Streak(r, h)
    decreases |h|
  {
    var n, before := |h| - 1, h[..|h| - 1];
    if Alarming(r, h[n]) && before != [] {
      StreakIsBlock(r, before);
      forall a | IsBlock(r, h, a, |h|) && a < n
        ensures IsBlock(r, before, a, n) && h[n].cls == before[n - 1].cls
      {
      }
      var s := |h| - Streak(r, h);
      assert IsBlock(r, h, s, |h|);
    }
  }

  /** A block of a prefix is a block of the whole. */
  lemma PrefixBlocks(r: Rule, h: seq<Window>, a: int, b: int, n: nat)
    requires b <= n <= |h|
    ensures IsBlock(r, h[..n], a, b) <==> IsBlock(r, h, a, b)
  {
  }

  lemma SuffixBlock(r: Rule, h: seq<Window>, a: int, c: int, b: int)
    requires IsBlock(r, h, a, b) && a <= c < b
    ensures IsBlock(r, h, c, b)
  {
  }

  /** An alert at window i means that the block ending there has just reached the needed length, and conversely. */
  lemma FiresOnCompletedBlock(r: Rule, h: seq<Window>, i: nat)
    requires i < |h|
    ensures Fires(r, h, i) <==> StartsBlock(r, h, i + 1 - Needed(r), i + 1)
  {
    var p := h[..i + 1];
    var a := i + 1 - Needed(r);
    StreakIsBlock(r, p);
    PrefixBlocks(r, h, a, i + 1, i + 1);
    PrefixBlocks(r, h, a - 1, i + 1, i + 1);
    if Streak(r, p) > Needed(r) {
      SuffixBlock(r, p, |p| - Streak(r, p), a - 1, |p|);
    }
  }

  /** The same without the words of this model: the last windows, as many as are required but at least one, alarm for one class, and the window before them does not. */
  lemma AlertMeaning(r: Rule, h: seq<Window>, i: nat)
    requires i < |h|
    ensures var n := if r.required < 1 then 1 else r.required;
            Fires(r, h, i) <==>
              && n <= i + 1
              && (forall k :: i + 1 - n <= k <= i ==> h[k].cls == h[i].cls && h[k].cls != r.normal && h[k].confidence >= r.minConfidence)
              && (n <= i ==> h[i - n].cls != h[i].cls || h[i - n].confidence < r.minConfidence)
  {
    FiresOnCompletedBlock(r, h, i);
    var a := i + 1 - Needed(r);
    if 0 < a && IsBlock(r, h, a, i + 1) && Alarming(r, h[a - 1]) && h[a - 1].cls == h[i].cls {
      assert IsBlock(r, h, a - 1, i + 1);
    }
  }

  // ---- counting ----

  function Firings(r: Rule, h: seq<Window>): set<int> {
    set i | 0 <= i < |h| && Fires(r, h, i)
  }

  lemma FiresInPrefix(r: Rule, h: seq<Window>, n: nat, i: nat)
    requires i < n <= |h|
    ensures Fires(r, h[..n], i) <==> Fires(r, h, i)
  {
    assert h[..n][..i + 1] == h[..i + 1];
  }

  lemma FiringsNext(r: Rule, h: seq<Window>)
    requires h != []
    ensures Firings(r, h) == Firings(r, h[..|h| - 1]) + if Fires(r, h, |h| - 1) then {|h| - 1} else {}
  {
    forall i | 0 <= i < |h| - 1
      ensures Fires(r, h[..|h| - 1], i) <==> Fires(r, h, i)
    {
      FiresInPrefix(r, h, |h| - 1, i);
    }
  }

  lemma {:induction false} AlertsCountFirings(r: Rule, h: seq<Window>)
    ensures Alerts(r, h) == |Firings(r, h)|
  {
    if h != [] {
      AlertsCountFirings(r, h[..|h| - 1]);
      FiringsNext(r, h);
      assert h[..|h| - 1 + 1] == h;
    }
  }

  /** The maximal blocks that last at least as long as needed. */
  function Episodes(r: Rule, h: seq<Window>): set<(int, int)> {
    set a, b | 0 <= a < |h| && 0 < b <= |h| && IsMaximalBlock(r, h, a, b) && b - a >= Needed(r) :: (a, b)
  }

  /** The window on which an episode is confirmed. */
  function Confirmation(r: Rule, e: (int, int)): int {
    e.0 + Needed(r) - 1
  }

  function Confirmations(r: Rule, s: set<(int, int)>): set<int> {
    set e | e in s :: Confirmation(r, e)
  }

  lemma {:induction false} ConfirmationsSize(r: Rule, s: set<(int, int)>)
    requires forall e, f :: e in s && f in s && Confirmation(r, e) == Confirmation(r, f) ==> e == f
    ensures |Confirmations(r, s)| == |s|
    decreases |s|
  {
    if s != {} {
      var e :| e in s;
      ConfirmationsSize(r, s - {e});
      assert Confirmations(r, s) == Confirmations(r, s - {e}) + {Confirmation(r, e)};
    }
  }

  /** Any block extends to the right as far as its class goes on. */
  lemma {:induction false} ExtendBlock(r: Rule, h: seq<Window>, a: int, b: int) returns (end: int)
    requires IsBlock(r, h, a, b)
    ensures b <= end <= |h| && IsBlock(r, h, a, end) && !IsBlock(r, h, a, end + 1)
    decreases |h| - b
  {
    if IsBlock(r, h, a, b + 1) {
      end := ExtendBlock(r, h, a, b + 1);
    } else {
      end := b;
    }
  }

  lemma StartIsMaximal(r: Rule, h: seq<Window>, a: int, b: int, end: int)
    requires StartsBlock(r, h, a, b) && b <= end <= |h| && IsBlock(r, h, a, end) && !IsBlock(r, h, a, end + 1)
    ensures IsMaximalBlock(r, h, a, end)
  {
  }

  lemma EpisodeConfirmed(r: Rule, h: seq<Window>, a: int, b: int)
    requires IsMaximalBlock(r, h, a, b) && b - a >= Needed(r)
    ensures Confirmation(r, (a, b)) in Firings(r, h)
  {
    var i := Confirmation(r, (a, b));
    assert IsBlock(r, h, a - 1, i + 1) ==> IsBlock(r, h, a - 1, b);
    assert StartsBlock(r, h, a, i + 1);
    FiresOnCompletedBlock(r, h, i);
  }

  lemma SameStartSameBlock(r: Rule, h: seq<Window>, a: int, b: int, c: int)
    requires IsMaximalBlock(r, h, a, b) && IsMaximalBlock(r, h, a, c)
    ensures b == c
  {
  }

  /** There is exactly one alert for every episode. */
  lemma OneAlertPerEpisode(r: Rule, h: seq<Window>)
    ensures Alerts(r, h) == |Episodes(r, h)|
  {
    AlertsCountFirings(r, h);
    var s, t := Episodes(r, h), Firings(r, h);
    forall e, f | e in s && f in s && Confirmation(r, e) == Confirmation(r, f)
      ensures e == f
    {
      SameStartSameBlock(r, h, e.0, e.1, f.1);
    }
    forall e | e in s
      ensures Confirmation(r, e) in t
    {
      EpisodeConfirmed(r, h, e.0, e.1);
    }
    forall i | i in t
      ensures i in Confirmations(r, s)
    {
      FiresOnCompletedBlock(r, h, i);
      var a := i + 1 - Needed(r);
      var end := ExtendBlock(r, h, a, i + 1);
      StartIsMaximal(r, h, a, i + 1, end);
      assert (a, end) in s && Confirmation(r, (a, end)) == i;
    }
    assert t == Confirmations(r, s);
    ConfirmationsSize(r, s);
  }

  /** Windows of the current block not yet spent on an alert. */
  function Pending(r: Rule, h: seq<Window>): nat {
    if Streak(r, h) < Needed(r) then Streak(r, h) else Streak(r, h) - Needed(r)
  }

  lemma {:induction false} AlertsSpendWindows(r: Rule, h: seq<Window>)
    ensures Alerts(r, h) * Needed(r) + Pending(r, h) <= |h|
  {
    if h != [] {
      var before, w := h[..|h| - 1], h[|h| - 1];
      AlertsSpendWindows(r, before);
      assert before + [w] == h;
      StreakNext(r, before, w);
      assert (Alerts(r, before) + 1) * Needed(r) == Alerts(r, before) * Needed(r) + Needed(r);
    }
  }

  /** No more alerts than the windows can pay for. */
  lemma AlertsBounded(r: Rule, h: seq<Window>)
    ensures Alerts(r, h) * Needed(r) <= |h|
  {
    AlertsSpendWindows(r, h);
  }

  // ---- the streak as an int ----

  const MAX_INT := 0x7FFF_FFFF

  /** The streak would leave the range of an int exactly when the last 2^31 windows are one block. */
  lemma StreakOverflowsWhen(r: Rule, h: seq<Window>)
    ensures Streak(r, h) > MAX_INT <==> IsBlock(r, h, |h| - (MAX_INT + 1), |h|)
  {
    if h != [] {
      StreakIsBlock(r, h);
    }
  }

  /** Such a history: one alarming window, 2^31 times. */
  lemma StreakOverflows(r: Rule, w: Window)
    requires Alarming(r, w)
    ensures Streak(r, seq(MAX_INT + 1, _ => w)) > MAX_INT
  {
    var h := seq(MAX_INT + 1, _ => w);
    assert IsBlock(r, h, 0, |h|);
    StreakOverflowsWhen(r, h);
  }
}
