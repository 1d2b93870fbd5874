/** What the events of a run say, in terms of the collectors' readings, the model and the settings. */
module DetectionMeaning {
  import opened Bytes
  import opened Vectors
  import opened Mlp
  import opened Softmax
  import opened Debouncer
  import opened DetectionEvent
  import opened Routing
  import opened Aggregator
  import opened Detection
  import opened Counters
  import B = DebouncerProofs
  import D = ProcCollector
  import K = DiskMeaning
  import P = PerfCollector
  import R = DetectionProofs

  // ---- the verdict of the model ----

  lemma EventVerdict(st: Setting, p: Params<real>, exp: real -> real, past: seq<Window>, raw: Vector, timestamp: string)
    requires Infers(st, p, exp) && IsExp(exp) && WellSized(p) && |raw| == p.nIn && |st.classes| == p.nOut
    ensures var e := EventOf(st, past, raw, timestamp);
            IsScaled(p, raw, e.features) && IsVerdict(p, exp, st.classes, e) && e.host == st.cfg.host && e.timestamp == timestamp
  {
    assert InfersAt(st, p, exp, raw);
    var z := Logits(p, Scaled(p, raw));
    ConfidenceIsProbability(exp, z, FirstMax(z));
  }

  lemma {:induction false} EventAt(st: Setting, g: Gauges, past: seq<Window>, rs: seq<Reading>, k: nat) returns (before: seq<Window>)
    requires AllFit(g, rs) && k < |rs|
    ensures Detect(st, g, past, rs)[k] == EventOf(st, before, R.RawAt(st, g, rs, k), rs[k].timestamp)
    decreases |rs|
  {
    var e := EventOf(st, past, R.RawAt(st, g, rs, 0), rs[0].timestamp);
    R.DetectSplit(st, g, past, rs);
    if k == 0 {
      before := past;
    } else {
      R.GaugesShift(st, g, rs, k - 1);
      before := EventAt(st, Advance(st, g, rs[0]), past + [WindowOf(e)], rs[1..], k - 1);
    }
  }

  /** The k-th event carries the scaled raw vector of window k and the model's verdict on it, under the host's name and the window's time. */
  lemma EventMeaning(st: Setting, p: Params<real>, exp: real -> real, g: Gauges, past: seq<Window>, rs: seq<Reading>, k: nat)
    requires Infers(st, p, exp) && IsExp(exp) && WellSized(p) && |st.order| == p.nIn && |st.classes| == p.nOut
    requires AllFit(g, rs) && k < |rs|
    ensures var e := Detect(st, g, past, rs)[k];
            && IsScaled(p, R.RawAt(st, g, rs, k), e.features) && IsVerdict(p, exp, st.classes, e)
            && e.host == st.cfg.host && e.timestamp == rs[k].timestamp
  {
    var before := EventAt(st, g, past, rs, k);
    EventVerdict(st, p, exp, before, R.RawAt(st, g, rs, k), rs[k].timestamp);
  }

  // ---- the alerts ----

  /** Over a run from a fresh debouncer, an event alerts exactly when the last windows, as many as the streak asks for but at least one, show one class that is not class 0 with enough confidence, and the window before them does not. */
  lemma AlertMeaning(st: Setting, g: Gauges, rs: seq<Reading>, k: nat)
    requires AllFit(g, rs) && k < |rs|
    ensures var events := Detect(st, g, [], rs); var n := if st.cfg.alertStreak < 1 then 1 else st.cfg.alertStreak;
            events[k].alert <==>
              && n <= k + 1
              && (forall i :: k + 1 - n <= i <= k ==>
                    events[i].classIdx == events[k].classIdx && events[i].classIdx != 0 && events[i].confidence >= st.cfg.minConfidence)
              && (n <= k ==> events[k - n].classIdx != events[k].classIdx || events[k - n].confidence < st.cfg.minConfidence)
  {
    var events := Detect(st, g, [], rs);
    R.VerdictsAreFirings(st, g, [], rs);
    R.JudgedAfresh(RuleOf(st.cfg), events, Windows(events));
    JudgedMeaning(RuleOf(st.cfg), events, k);
  }

  lemma JudgedMeaning(r: Rule, events: seq<Event>, k: nat)
    requires R.JudgedBy(r, Windows(events), 0, events) && k < |events|
    ensures var n := if r.required < 1 then 1 else r.required;
            events[k].alert <==>
              && n <= k + 1
              && (forall i :: k + 1 - n <= i <= k ==>
                    events[i].classIdx == events[k].classIdx && events[i].classIdx != r.normal && events[i].confidence >= r.minConfidence)
              && (n <= k ==> events[k - n].classIdx != events[k].classIdx || events[k - n].confidence < r.minConfidence)
  {
    var h, n := Windows(events), if r.required < 1 then 1 else r.required;
    assert events[k].alert <==> Fires(r, h, 0 + k);
    B.AlertMeaning(r, h, k);
    assert forall i :: 0 <= i < |events| ==> h[i] == WindowOf(events[i]);
  }

  // ---- the features ----

  /** What a feature's collector makes of the reading before and the reading now. */
  ghost predicate IsMeasured(st: Setting, g: Gauges, name: string, before: Reading, now: Reading, v: real)
    requires Fits(g, before) && Fits(g, now)
  {
    if name in K.NAMES then
      K.IsDiskValue(name, D.DiskTotals(before.lines, before.disks), D.DiskTotals(now.lines, now.disks),
                    K.TimeSince(before.diskTime, now.diskTime), v)
    else if name == "seconds_RES_data" then v == now.resourceTime - st.start
    else exists j :: 0 <= j < |g.counters| && g.counters[j].feature == name && K.Gained(P.Group(before.perf[j]), P.Group(now.perf[j]), v)
  }

  /** The reading before window k: the priming one, or that of window k - 1. */
  function ReadingBefore(prime: Reading, rs: seq<Reading>, k: nat): Reading
    requires k < |rs|
  {
    if k == 0 then prime else rs[k - 1]
  }

  /** What the collectors remember when window k is sampled. */
  predicate Remembers(st: Setting, g: Gauges, before: Reading, h: Gauges)
    requires Fits(g, before)
  {
    && (st.wiring.perf ==> |h.counters| == |g.counters| && forall j :: 0 <= j < |g.counters| ==>
          h.counters[j].feature == g.counters[j].feature && h.counters[j].prev == P.Group(before.perf[j]))
    && (st.wiring.disk ==> h.disk == D.State(D.DiskTotals(before.lines, before.disks), true, before.diskTime))
  }

  lemma AdvanceRemembers(st: Setting, g: Gauges, h: Gauges, before: Reading)
    requires Fits(g, before) && Fits(h, before) && |h.counters| == |g.counters|
    requires forall j :: 0 <= j < |g.counters| ==> h.counters[j].feature == g.counters[j].feature
    ensures Remembers(st, g, before, Advance(st, h, before))
  {
  }

  /** A run keeps the counters' number and names. */
  predicate SameNames(g: Gauges, h: Gauges) {
    |h.counters| == |g.counters| && forall j :: 0 <= j < |g.counters| ==> h.counters[j].feature == g.counters[j].feature
  }

  lemma {:induction false} NamesKept(st: Setting, g: Gauges, rs: seq<Reading>, k: nat)
    requires AllFit(g, rs) && k <= |rs|
    ensures SameNames(g, R.GaugesAt(st, g, rs, k))
  {
    if k > 0 {
      NamesKept(st, g, rs, k - 1);
    }
  }

  lemma RemembersAt(st: Setting, g: Gauges, prime: Reading, rs: seq<Reading>, k: nat)
    requires Fits(g, prime) && AllFit(g, rs) && k < |rs|
    ensures AllFit(Advance(st, g, prime), rs) && Fits(g, ReadingBefore(prime, rs, k))
    ensures Remembers(st, g, ReadingBefore(prime, rs, k), R.GaugesAt(st, Advance(st, g, prime), rs, k))
  {
    AllStillFit(st, g, prime, rs);
    var primed := Advance(st, g, prime);
    if k == 0 {
      AdvanceRemembers(st, g, g, prime);
      assert R.GaugesAt(st, primed, rs, 0) == primed;
    } else {
      NamesKept(st, primed, rs, k - 1);
      AdvanceRemembers(st, g, R.GaugesAt(st, primed, rs, k - 1), rs[k - 1]);
    }
  }

  lemma GainIsDelta(before: Word64, now: Word64)
    ensures K.Gained(before, now, Delta(before, now) as real)
  {
  }

  lemma PerfMeasured(st: Setting, g: Gauges, h: Gauges, before: Reading, now: Reading, i: nat)
    requires R.Wired(st, h) && Fits(h, now) && Fits(g, before) && Fits(g, now) && Remembers(st, g, before, h)
    requires i < |st.order| && Serves(st.order[i]) == Perf && st.wiring.perf
    ensures IsMeasured(st, g, st.order[i], before, now, Assembled(st.order, Merged(st, h, now))[i])
  {
    var j := R.PerfEntry(st, h, now, i);
    GainIsDelta(P.Group(before.perf[j]), P.Group(now.perf[j]));
    NotElsewhere(st.order[i]);
    assert g.counters[j].feature == st.order[i];
  }

  lemma NotElsewhere(name: string)
    requires Serves(name) == Perf
    ensures name !in {"write_merge", "iowrite", "write_kbs", "iowritetime", "util", "seconds_RES_data"}
  {
  }

  lemma DiskMeasured(st: Setting, g: Gauges, h: Gauges, before: Reading, now: Reading, i: nat)
    requires R.Wired(st, h) && Fits(h, now) && Fits(g, before) && Fits(g, now) && Remembers(st, g, before, h)
    requires i < |st.order| && Serves(st.order[i]) == Disk
    ensures IsMeasured(st, g, st.order[i], before, now, Assembled(st.order, Merged(st, h, now))[i])
  {
    R.DiskEntry(st, h, now, i);
    DiskNames(st.order[i]);
    K.SampleReports(h.disk, D.DiskTotals(now.lines, now.disks), now.diskTime, st.order[i]);
  }

  lemma DiskNames(name: string)
    requires Serves(name) == Disk
    ensures name in K.NAMES
  {
  }

  lemma ResourceMeasured(st: Setting, g: Gauges, h: Gauges, before: Reading, now: Reading, i: nat)
    requires R.Wired(st, h) && Fits(h, now) && Fits(g, before) && Fits(g, now)
    requires i < |st.order| && Serves(st.order[i]) == Resource
    ensures IsMeasured(st, g, st.order[i], before, now, Assembled(st.order, Merged(st, h, now))[i])
  {
    R.VectorEntry(st, h, now, i);
    assert st.order[i] == "seconds_RES_data";
  }

  lemma Measured(st: Setting, g: Gauges, h: Gauges, before: Reading, now: Reading, i: nat)
    requires R.Wired(st, h) && Fits(h, now) && Fits(g, before) && Fits(g, now) && Remembers(st, g, before, h) && i < |st.order|
    ensures IsMeasured(st, g, st.order[i], before, now, Assembled(st.order, Merged(st, h, now))[i])
  {
    match Serves(st.order[i])
    case Perf =>
      R.PerfIsWired(st, i);
      PerfMeasured(st, g, h, before, now, i);
    case Disk => DiskMeasured(st, g, h, before, now, i);
    case Resource => ResourceMeasured(st, g, h, before, now, i);
  }

  /**
    Feature i of the k-th event after the priming sample is, scaled, what its collector measured from the reading
    before to the reading of window k; nothing read before the priming sample has a part in it.
   */
  lemma PrimedFeature(st: Setting, p: Params<real>, exp: real -> real, g: Gauges, past: seq<Window>, prime: Reading, rs: seq<Reading>, k: nat, i: nat)
    returns (v: real)
    requires Infers(st, p, exp) && IsExp(exp) && WellSized(p) && |st.order| == p.nIn && |st.classes| == p.nOut
    requires R.Wired(st, g) && Fits(g, prime) && AllFit(g, rs) && k < |rs| && i < |st.order|
    ensures |DetectPrimed(st, g, past, prime, rs)[k].features| == p.nIn
    ensures DetectPrimed(st, g, past, prime, rs)[k].features[i] == Scale(v, p.featureMin[i], p.featureMax[i])
    ensures Fits(g, ReadingBefore(prime, rs, k)) && IsMeasured(st, g, st.order[i], ReadingBefore(prime, rs, k), rs[k], v)
  {
    AllStillFit(st, g, prime, rs);
    var primed := Advance(st, g, prime);
    EventMeaning(st, p, exp, primed, past, rs, k);
    v := R.RawAt(st, primed, rs, k)[i];
    R.AdvanceWired(st, g, prime);
    R.WiredAt(st, primed, rs, k);
    RemembersAt(st, g, prime, rs, k);
    Measured(st, g, R.GaugesAt(st, primed, rs, k), ReadingBefore(prime, rs, k), rs[k], i);
  }
}
