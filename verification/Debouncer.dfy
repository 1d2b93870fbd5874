/**
  The debouncer, and what it is for: one alert for every maximal block of consecutive windows of one
  alarming class that lasts long enough.
 */
module Debouncer {

  /** One window's verdict: the predicted class and its confidence. */
  datatype Window = Window(cls: int, confidence: real)

  datatype Rule = Rule(normal: int, required: int, minConfidence: real)

  /** The number of windows that confirm an episode: never less than one. */
  function Needed(r: Rule): (n: nat)
    ensures n >= 1
  {
    if r.required < 1 then 1 else r.required
  }

  predicate Alarming(r: Rule, w: Window) {
    w.cls != r.normal && w.confidence >= r.minConfidence
  }

  /** Windows a to b - 1 are alarming and of one class. */
  predicate IsBlock(r: Rule, h: seq<Window>, a: int, b: int) {
    0 <= a < b <= |h| && forall i :: a <= i < b ==> Alarming(r, h[i]) && h[i].cls == h[a].cls
  }

  /** A block that the window before it does not continue. */
  predicate StartsBlock(r: Rule, h: seq<Window>, a: int, b: int) {
    IsBlock(r, h, a, b) && !IsBlock(r, h, a - 1, b)
  }

  /** A block that cannot be made longer at either end. */
  predicate IsMaximalBlock(r: Rule, h: seq<Window>, a: int, b: int) {
    StartsBlock(r, h, a, b) && !IsBlock(r, h, a, b + 1)
  }

  /** The length of the longest block that ends with the last window. */
  function Streak(r: Rule, h: seq<Window>): (n: nat)
    ensures n <= |h|
  {
    if h == [] || !Alarming(r, h[|h| - 1]) then 0
    else
      var before := h[..|h| - 1];
      if before != [] && before[|before| - 1].cls == h[|h| - 1].cls then 1 + Streak(r, before) else 1
  }

  lemma StreakNext(r: Rule, before: seq<Window>, w: Window)
    ensures Streak(r, before + [w]) ==
            if !Alarming(r, w) then 0
            else if before != [] && before[|before| - 1].cls == w.cls then 1 + Streak(r, before)
            else 1
  {
    assert (before + [w])[..|before|] == before;
  }

  /** Whether the window i of a history confirms an episode. */
  predicate Fires(r: Rule, h: seq<Window>, i: int)
    requires 0 <= i < |h|
  {
    Streak(r, h[..i + 1]) == Needed(r)
  }

  function Alerts(r: Rule, h: seq<Window>): nat {
    if h == [] then 0 else Alerts(r, h[..|h| - 1]) + if Streak(r, h) == Needed(r) then 1 else 0
  }

  class Debouncer {
    const normal: int
    const required: int
    const minConf: real
    var cur: int
    var streak: int
    var armed: bool
    ghost var history: seq<Window>
    ghost const rule: Rule

    ghost predicate Valid()
      reads this
    {
      && rule.normal == normal && rule.minConfidence == minConf && Needed(rule) == required
      && streak == Streak(rule, history)
      && (streak > 0 ==> cur == history[|history| - 1].cls)
      && (streak == 0 ==> history == [] || cur == normal)
      && (armed <==> streak < required)
    }

    constructor (normalClass: int, required: int, minConfidence: real)
      ensures Valid() && history == [] && rule == Rule(normalClass, required, minConfidence)
    {
      normal := normalClass;
      this.required := if required < 1 then 1 else required;
      minConf := minConfidence;
      cur, streak, armed := -1, 0, true;
      history := [];
      rule := Rule(normalClass, required, minConfidence);
    }

    /** True exactly on the window that confirms a new episode. */
    method Update(cls: int, confidence: real) returns (fired: bool)
      requires Valid()
      modifies this
      ensures Valid() && history == old(history) + [Window(cls, confidence)]
      ensures fired <==> Fires(rule, history, |history| - 1)
    {
      ghost var before := history;
      history := history + [Window(cls, confidence)];
      StreakNext(rule, before, Window(cls, confidence));
      assert history[..|history| - 1 + 1] == history;
      if cls == normal || confidence < minConf {
        cur := normal;
        streak := 0;
        armed := true;
        return false;
      }
      if cls == cur {
        streak := streak + 1;
      } else {
        cur := cls;
        streak := 1;
        armed := true;
      }
      if armed && streak >= required {
        armed := false;
        return true;
      }
      return false;
    }
  }
}
