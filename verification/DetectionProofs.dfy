/** What the service's detection and its publishing mean over whole runs. */
module DetectionProofs {
  import opened Bytes
  import opened Vectors
  import opened Mlp
  import opened Debouncer
  import opened DebouncerProofs
  import opened DetectionEvent
  import opened MqttWire
  import opened Routing
  import opened Aggregator
  import opened Counters
  import opened Sums
  import opened Detection
  import P = PerfCollector
  import D = ProcCollector

  // ---- alerts ----

  /** Each event's verdict is the debouncer's on a history in which it is one of the last. */
  predicate JudgedBy(r: Rule, history: seq<Window>, before: nat, events: seq<Event>)
    requires before + |events| <= |history|
  {
    forall i :: 0 <= i < |events| ==> (events[i].alert <==> Fires(r, history, before + i))
  }

  predicate Judged(r: Rule, past: seq<Window>, events: seq<Event>) {
    JudgedBy(r, past + Windows(events), |past|, events)
  }

  lemma HistoryNext(past: seq<Window>, e: Event, later: seq<Event>)
    ensures past + Windows([e] + later) == past + [WindowOf(e)] + Windows(later)
    ensures (past + [WindowOf(e)] + Windows(later))[..|past| + 1] == past + [WindowOf(e)]
  {
  }

  lemma JudgedOneMore(r: Rule, h: seq<Window>, before: nat, e: Event, later: seq<Event>)
    requires before + 1 + |later| <= |h|
    requires (e.alert <==> Fires(r, h, before)) && JudgedBy(r, h, before + 1, later)
    ensures JudgedBy(r, h, before, [e] + later)
  {
    var events := [e] + later;
    forall i | 0 <= i < |events|
      ensures events[i].alert <==> Fires(r, h, before + i)
    {
      if i > 0 {
        assert events[i] == later[i - 1];
        assert later[i - 1].alert <==> Fires(r, h, before + 1 + (i - 1));
      }
    }
  }

  lemma JudgedNext(r: Rule, past: seq<Window>, e: Event, later: seq<Event>)
    requires e.alert <==> Fires(r, past + [WindowOf(e)], |past|)
    requires Judged(r, past + [WindowOf(e)], later)
    ensures Judged(r, past, [e] + later)
  {
    var h := past + [WindowOf(e)] + Windows(later);
    HistoryNext(past, e, later);
    FiresInPrefix(r, h, |past| + 1, |past|);
    JudgedOneMore(r, h, |past|, e, later);
  }

  lemma EventJudged(st: Setting, past: seq<Window>, raw: Vector, timestamp: string)
    ensures var e := EventOf(st, past, raw, timestamp); e.alert <==> Fires(RuleOf(st.cfg), past + [WindowOf(e)], |past|)
  {
  }

  lemma {:induction false} VerdictsAreFirings(st: Setting, g: Gauges, past: seq<Window>, rs: seq<Reading>)
    requires AllFit(g, rs)
    ensures Judged(RuleOf(st.cfg), past, Detect(st, g, past, rs))
    decreases |rs|
  {
    if rs != [] {
      var raw := Assembled(st.order, Merged(st, g, rs[0]));
      var e := EventOf(st, past, raw, rs[0].timestamp);
      EventJudged(st, past, raw, rs[0].timestamp);
      RestFits(st, g, rs);
      VerdictsAreFirings(st, Advance(st, g, rs[0]), past + [WindowOf(e)], rs[1..]);
      JudgedNext(RuleOf(st.cfg), past, e, Detect(st, Advance(st, g, rs[0]), past + [WindowOf(e)], rs[1..]));
    }
  }

  lemma RestFits(st: Setting, g: Gauges, rs: seq<Reading>)
    requires AllFit(g, rs) && rs != []
    ensures AllFit(Advance(st, g, rs[0]), rs[1..])
  {
  }

  function AlertCount(events: seq<Event>): nat {
    if events == [] then 0 else AlertCount(events[..|events| - 1]) + if events[|events| - 1].alert then 1 else 0
  }

  lemma {:induction false} AlertCountIsAlerts(r: Rule, events: seq<Event>)
    requires JudgedBy(r, Windows(events), 0, events)
    ensures AlertCount(events) == Alerts(r, Windows(events))
  {
    if events != [] {
      var n, w := |events| - 1, Windows(events);
      assert w[..n] == Windows(events[..n]) && w[..n + 1] == w;
      forall i | 0 <= i < n
        ensures events[..n][i].alert <==> Fires(r, w[..n], i)
      {
        FiresInPrefix(r, w, n, i);
      }
      AlertCountIsAlerts(r, events[..n]);
      assert events[n].alert <==> Fires(r, w, n);
    }
  }

  lemma JudgedAfresh(r: Rule, events: seq<Event>, w: seq<Window>)
    requires Judged(r, [], events) && w == Windows(events)
    ensures JudgedBy(r, w, 0, events)
  {
    assert [] + w == w;
  }

  lemma EpisodesOf(r: Rule, events: seq<Event>)
    requires Judged(r, [], events)
    ensures AlertCount(events) == |Episodes(r, Windows(events))|
    ensures AlertCount(events) * Needed(r) <= |events|
  {
    JudgedAfresh(r, events, Windows(events));
    AlertCountIsAlerts(r, events);
    OneAlertPerEpisode(r, Windows(events));
    AlertsBounded(r, Windows(events));
  }

  /** Over a run from a fresh debouncer the alerts are as many as the episodes, and no more than the windows pay for. */
  lemma AlertsAreEpisodes(st: Setting, g: Gauges, rs: seq<Reading>)
    requires AllFit(g, rs)
    ensures var events := Detect(st, g, [], rs); var r := RuleOf(st.cfg);
            && AlertCount(events) == |Episodes(r, Windows(events))|
            && AlertCount(events) * Needed(r) <= |rs|
  {
    VerdictsAreFirings(st, g, [], rs);
    EpisodesOf(RuleOf(st.cfg), Detect(st, g, [], rs));
  }

  // ---- publish attempts ----

  function OnTopic(ms: seq<Message>, topic: seq<byte>): nat {
    if ms == [] then 0 else OnTopic(ms[..|ms| - 1], topic) + if ms[|ms| - 1].topic == topic then 1 else 0
  }

  lemma {:induction false} OnTopicConcat(a: seq<Message>, b: seq<Message>, topic: seq<byte>)
    ensures OnTopic(a + b, topic) == OnTopic(a, topic) + OnTopic(b, topic)
    decreases |b|
  {
    if b == [] {
      assert a + b == a;
    } else {
      OnTopicConcat(a, b[..|b| - 1], topic);
      assert (a + b)[..|a + b| - 1] == a + b[..|b| - 1];
    }
  }

  lemma TopicsDiffer(cfg: Config)
    ensures ToBytes(EventsTopic(cfg)) != ToBytes(AlertsTopic(cfg))
  {
    var e, a := EventsTopic(cfg), AlertsTopic(cfg);
    assert |e| == |a| + 0;
    assert e[|e| - 1] == 's' && e[|e| - 2] == 't' && a[|a| - 2] == 't';
    assert e[|e| - 6] == 'e' && a[|a| - 6] == 'a';
    assert ToBytes(e)[|e| - 6] == 'e' as int % 256 && ToBytes(a)[|a| - 6] == 'a' as int % 256;
  }

  lemma OnTopicOne(m: Message, topic: seq<byte>)
    ensures OnTopic([m], topic) == if m.topic == topic then 1 else 0
  {
  }

  lemma OnTopicOptional(a: bool, x: Message, b: bool, y: Message, topic: seq<byte>)
    ensures OnTopic((if a then [x] else []) + (if b then [y] else []), topic)
            == (if a && x.topic == topic then 1 else 0) + (if b && y.topic == topic then 1 else 0)
  {
    OnTopicConcat(if a then [x] else [], if b then [y] else [], topic);
    OnTopicOne(x, topic);
    OnTopicOne(y, topic);
  }

  lemma WindowCounts(st: Setting, e: Event)
    ensures OnTopic(WindowMessages(st, e), ToBytes(EventsTopic(st.cfg))) == if st.cfg.publishEveryWindow then 1 else 0
    ensures OnTopic(WindowMessages(st, e), ToBytes(AlertsTopic(st.cfg))) == if e.alert then 1 else 0
  {
    TopicsDiffer(st.cfg);
    OnTopicOptional(st.cfg.publishEveryWindow, EventMessage(st, e), e.alert, AlertMessage(st, e), ToBytes(EventsTopic(st.cfg)));
    OnTopicOptional(st.cfg.publishEveryWindow, EventMessage(st, e), e.alert, AlertMessage(st, e), ToBytes(AlertsTopic(st.cfg)));
  }

  lemma PerWindowPrefix(st: Setting, events: seq<Event>)
    requires events != []
    ensures PerWindow(st, events)[..|events| - 1] == PerWindow(st, events[..|events| - 1])
  {
  }

  /** One attempt on the events topic per window if so configured, and one on the alerts topic per alert. */
  lemma {:induction false} AttemptCounts(st: Setting, events: seq<Event>)
    ensures OnTopic(Attempts(st, events), ToBytes(EventsTopic(st.cfg))) == if st.cfg.publishEveryWindow then |events| else 0
    ensures OnTopic(Attempts(st, events), ToBytes(AlertsTopic(st.cfg))) == AlertCount(events)
  {
    if events != [] {
      var n := |events| - 1;
      AttemptCounts(st, events[..n]);
      PerWindowPrefix(st, events);
      WindowCounts(st, events[n]);
      OnTopicConcat(Attempts(st, events[..n]), WindowMessages(st, events[n]), ToBytes(EventsTopic(st.cfg)));
      OnTopicConcat(Attempts(st, events[..n]), WindowMessages(st, events[n]), ToBytes(AlertsTopic(st.cfg)));
    }
  }

  lemma {:induction false} ConcatPrefix(parts: seq<seq<Message>>, i: nat)
    requires i < |parts|
    ensures Concat(parts[..i]) + parts[i] <= Concat(parts)
    decreases |parts|
  {
    var n := |parts| - 1;
    if i < n {
      ConcatPrefix(parts[..n], i);
      assert parts[..n][..i] == parts[..i];
    }
  }

  /** A window's attempts follow those of all earlier windows: its event if every window is published, and right after it its alert if it has one. */
  lemma AttemptsInWindowOrder(st: Setting, events: seq<Event>, i: nat)
    requires i < |events|
    ensures var all, n := Attempts(st, events), |Attempts(st, events[..i])|; var m := n + if st.cfg.publishEveryWindow then 1 else 0;
            && Attempts(st, events[..i]) <= all
            && (st.cfg.publishEveryWindow ==> n < |all| && all[n] == EventMessage(st, events[i]))
            && (events[i].alert ==> m < |all| && all[m] == AlertMessage(st, events[i]))
  {
    ConcatPrefix(PerWindow(st, events), i);
    assert PerWindow(st, events)[..i] == PerWindow(st, events[..i]);
    OwnAttempts(Attempts(st, events[..i]), WindowMessages(st, events[i]), Attempts(st, events));
  }

  lemma OwnAttempts(before: seq<Message>, own: seq<Message>, all: seq<Message>)
    requires before + own <= all
    ensures before <= all && |before| + |own| <= |all| && forall k :: 0 <= k < |own| ==> all[|before| + k] == own[k]
  {
    assert forall k :: 0 <= k < |own| ==> (before + own)[|before| + k] == own[k];
  }

  // ---- the raw vector ----

  /** What the collectors keep before window k. */
  function GaugesAt(st: Setting, g: Gauges, rs: seq<Reading>, k: nat): (h: Gauges)
    requires AllFit(g, rs) && k <= |rs|
    ensures AllFit(h, rs)
  {
    if k == 0 then g
    else
      var before := GaugesAt(st, g, rs, k - 1);
      AllStillFit(st, before, rs[k - 1], rs);
      Advance(st, before, rs[k - 1])
  }

  /** The raw vector of window k. */
  function RawAt(st: Setting, g: Gauges, rs: seq<Reading>, k: nat): (v: Vector)
    requires AllFit(g, rs) && k < |rs|
    ensures |v| == |st.order|
  {
    Assembled(st.order, Merged(st, GaugesAt(st, g, rs, k), rs[k]))
  }

  lemma {:induction false} GaugesShift(st: Setting, g: Gauges, rs: seq<Reading>, k: nat)
    requires AllFit(g, rs) && rs != [] && k < |rs|
    ensures AllFit(Advance(st, g, rs[0]), rs[1..])
    ensures GaugesAt(st, Advance(st, g, rs[0]), rs[1..], k) == GaugesAt(st, g, rs, k + 1)
  {
    RestFits(st, g, rs);
    if k > 0 {
      GaugesShift(st, g, rs, k - 1);
    } else {
      assert GaugesAt(st, g, rs, 0) == g;
    }
  }

  lemma EventFeatures(st: Setting, p: Params<real>, exp: real -> real, past: seq<Window>, raw: Vector, timestamp: string)
    requires Infers(st, p, exp) && WellSized(p) && |raw| == p.nIn
    ensures EventOf(st, past, raw, timestamp).features == Scaled(p, raw)
  {
    assert InfersAt(st, p, exp, raw);
  }

  lemma DetectSplit(st: Setting, g: Gauges, past: seq<Window>, rs: seq<Reading>)
    requires AllFit(g, rs) && rs != []
    ensures AllFit(Advance(st, g, rs[0]), rs[1..])
    ensures var e := EventOf(st, past, RawAt(st, g, rs, 0), rs[0].timestamp);
            Detect(st, g, past, rs) == [e] + Detect(st, Advance(st, g, rs[0]), past + [WindowOf(e)], rs[1..])
  {
    RestFits(st, g, rs);
    assert GaugesAt(st, g, rs, 0) == g;
  }

  /** The features an event carries are the scaled raw values of its window. */
  lemma {:induction false} FeaturesAreScaledRaws(st: Setting, p: Params<real>, exp: real -> real, g: Gauges, past: seq<Window>,
                                                 rs: seq<Reading>, k: nat)
    requires Infers(st, p, exp) && WellSized(p) && |st.order| == p.nIn
    requires AllFit(g, rs) && k < |rs|
    ensures Detect(st, g, past, rs)[k].features == Scaled(p, RawAt(st, g, rs, k))
    decreases |rs|
  {
    var raw := RawAt(st, g, rs, 0);
    var e := EventOf(st, past, raw, rs[0].timestamp);
    DetectSplit(st, g, past, rs);
    if k == 0 {
      EventFeatures(st, p, exp, past, raw, rs[0].timestamp);
    } else {
      GaugesShift(st, g, rs, k - 1);
      FeaturesAreScaledRaws(st, p, exp, Advance(st, g, rs[0]), past + [WindowOf(e)], rs[1..], k - 1);
    }
  }

  /** Setup gave every tracepoint feature a counter of its own, in order. */
  predicate Wired(st: Setting, g: Gauges) {
    && Distinct(st.order) && st.wiring == WiringOf(st.order)
    && |g.counters| == |Select(st.order, Perf)|
    && forall j :: 0 <= j < |g.counters| ==> g.counters[j].feature == Select(st.order, Perf)[j]
  }

  lemma PerfKeys(st: Setting, g: Gauges, r: Reading, name: string)
    requires Wired(st, g) && Fits(g, r)
    ensures name in PerfPart(st, g, r) <==> name in st.order && Serves(name) == Perf
  {
    P.SampleWritesNames(map[], g.counters, r.perf, name);
    SelectServes(st.order, Perf, name);
  }

  lemma DiskKeys(st: Setting, g: Gauges, r: Reading, name: string)
    ensures name in DiskPart(st, g, r) <==> st.wiring.disk && name in DISK
  {
  }

  lemma NamesSeparate(name: string)
    ensures name in DISK ==> name !in RESOURCE
    ensures Serves(name) == Perf ==> name !in DISK && name !in RESOURCE
  {
  }

  lemma PartsDisjointAt(st: Setting, g: Gauges, r: Reading, name: string)
    requires Wired(st, g) && Fits(g, r)
    ensures name in PerfPart(st, g, r) ==> name !in DiskPart(st, g, r) && name !in ResourcePart(st, r)
    ensures name in DiskPart(st, g, r) ==> name !in ResourcePart(st, r)
  {
    NamesSeparate(name);
    PerfKeys(st, g, r, name);
    DiskKeys(st, g, r, name);
    assert name in ResourcePart(st, r) ==> name in RESOURCE;
  }

  /** The collectors write disjoint sets of names. */
  lemma PartsDisjoint(st: Setting, g: Gauges, r: Reading)
    requires Wired(st, g) && Fits(g, r)
    ensures PerfPart(st, g, r).Keys !! DiskPart(st, g, r).Keys
    ensures PerfPart(st, g, r).Keys !! ResourcePart(st, r).Keys
    ensures DiskPart(st, g, r).Keys !! ResourcePart(st, r).Keys
  {
    forall name
      ensures name in PerfPart(st, g, r) ==> name !in DiskPart(st, g, r) && name !in ResourcePart(st, r)
      ensures name in DiskPart(st, g, r) ==> name !in ResourcePart(st, r)
    {
      PartsDisjointAt(st, g, r, name);
    }
  }

  /** So it does not matter in which order the collectors sample. */
  lemma AnySamplingOrder(st: Setting, g: Gauges, r: Reading)
    requires Wired(st, g) && Fits(g, r)
    ensures var a, b, c := PerfPart(st, g, r), DiskPart(st, g, r), ResourcePart(st, r);
            Merged(st, g, r) == a + c + b == b + a + c == b + c + a == c + a + b == c + b + a
  {
    PartsDisjoint(st, g, r);
    var a, b, c := PerfPart(st, g, r), DiskPart(st, g, r), ResourcePart(st, r);
    Commutes(a, b);
    Commutes(a, c);
    Commutes(b, c);
    Associates(a, b, c);
    Associates(a, c, b);
    Associates(b, a, c);
    Associates(b, c, a);
    Associates(c, a, b);
    Associates(c, b, a);
  }

  lemma Commutes(a: map<string, real>, b: map<string, real>)
    requires a.Keys !! b.Keys
    ensures a + b == b + a
  {
  }

  lemma Associates(a: map<string, real>, b: map<string, real>, c: map<string, real>)
    ensures a + b + c == a + (b + c)
  {
  }

  lemma CounterOf(st: Setting, g: Gauges, i: nat) returns (j: nat)
    requires Wired(st, g) && i < |st.order| && Serves(st.order[i]) == Perf
    ensures j < |g.counters| && g.counters[j].feature == st.order[i]
  {
    SelectServes(st.order, Perf, st.order[i]);
    j :| 0 <= j < |Select(st.order, Perf)| && Select(st.order, Perf)[j] == st.order[i];
  }

  lemma CountersDistinct(st: Setting, g: Gauges)
    requires Wired(st, g)
    ensures P.DistinctNames(g.counters)
  {
    SelectDistinct(st.order, Perf);
    forall i, j | 0 <= i < j < |g.counters|
      ensures g.counters[i].feature != g.counters[j].feature
    {
      assert Select(st.order, Perf)[i] != Select(st.order, Perf)[j];
    }
  }

  /** Entry i of the raw vector is what the collector responsible for feature i reported. */
  lemma VectorEntry(st: Setting, g: Gauges, r: Reading, i: nat)
    requires Wired(st, g) && Fits(g, r) && i < |st.order|
    ensures var name := st.order[i]; var v := Assembled(st.order, Merged(st, g, r))[i];
            match Serves(name)
            case Perf => exists j :: 0 <= j < |g.counters| && g.counters[j].feature == name
                           && v == Delta(g.counters[j].prev, P.Group(r.perf[j])) as real
            case Disk => name in DISK && v == D.Emitted(g.disk, D.DiskTotals(r.lines, r.disks), r.diskTime)[name]
            case Resource => v == r.resourceTime - st.start
  {
    var name := st.order[i];
    PartsDisjoint(st, g, r);
    SelectServes(st.order, Serves(name), name);
    assert Select(st.order, Serves(name)) != [];
    match Serves(name) {
      case Perf =>
        var j := PerfEntry(st, g, r, i);
      case Disk =>
        assert name in DISK;
        DiskKeys(st, g, r, name);
        assert name in DiskPart(st, g, r);
      case Resource =>
        assert name in ResourcePart(st, r);
    }
  }

  lemma PerfEntry(st: Setting, g: Gauges, r: Reading, i: nat) returns (j: nat)
    requires Wired(st, g) && Fits(g, r) && i < |st.order| && Serves(st.order[i]) == Perf
    ensures j < |g.counters| && g.counters[j].feature == st.order[i]
    ensures Assembled(st.order, Merged(st, g, r))[i] == Delta(g.counters[j].prev, P.Group(r.perf[j])) as real
  {
    var name := st.order[i];
    j := CounterOf(st, g, i);
    CountersDistinct(st, g);
    PartsDisjoint(st, g, r);
    P.SampleWritesDelta(map[], g.counters, r.perf, j);
    assert Select(st.order, Perf) != [];
    assert name in PerfPart(st, g, r);
  }

  // ---- conservation over a run of the service ----

  /** The group totals of counter j, window by window. */
  function GroupTotals(rs: seq<Reading>, j: nat): (t: seq<int>)
    requires forall k :: 0 <= k < |rs| ==> j < |rs[k].perf|
    ensures |t| == |rs|
  {
    seq(|rs|, k requires 0 <= k < |rs| => P.Group(rs[k].perf[j]))
  }

  lemma WiredAt(st: Setting, g: Gauges, rs: seq<Reading>, k: nat)
    requires Wired(st, g) && AllFit(g, rs) && k <= |rs|
    ensures Wired(st, GaugesAt(st, g, rs, k))
  {
    if k > 0 {
      WiredAt(st, g, rs, k - 1);
      AdvanceWired(st, GaugesAt(st, g, rs, k - 1), rs[k - 1]);
    }
  }

  lemma AdvanceWired(st: Setting, g: Gauges, r: Reading)
    requires Wired(st, g) && Fits(g, r)
    ensures Wired(st, Advance(st, g, r))
  {
  }

  /** Between windows a counter keeps its last total. */
  lemma CounterAt(st: Setting, g: Gauges, rs: seq<Reading>, j: nat, k: nat)
    requires st.wiring.perf && AllFit(g, rs) && k < |rs| && j < |g.counters|
    ensures var h := GaugesAt(st, g, rs, k);
            j < |h.counters| && h.counters[j].prev == Before(g.counters[j].prev, GroupTotals(rs, j), k)
  {
  }

  /** In window k, entry i of the vector is the k-th delta of its counter. */
  lemma EntriesAreDeltas(st: Setting, g: Gauges, rs: seq<Reading>, i: nat, j: nat, k: nat)
    requires Wired(st, g) && st.wiring.perf && AllFit(g, rs) && k < |rs|
    requires i < |st.order| && Serves(st.order[i]) == Perf
    requires j < |g.counters| && g.counters[j].feature == st.order[i]
    ensures RawAt(st, g, rs, k)[i] == Deltas(g.counters[j].prev, GroupTotals(rs, j))[k] as real
  {
    var h := GaugesAt(st, g, rs, k);
    WiredAt(st, g, rs, k);
    CounterAt(st, g, rs, j, k);
    CountersDistinct(st, h);
    var jj := PerfEntry(st, h, rs[k], i);
    assert jj == j;
  }

  /** A feature's values over a run, as the whole numbers they are. */
  function Reported(st: Setting, g: Gauges, rs: seq<Reading>, i: nat): (v: seq<real>)
    requires AllFit(g, rs) && i < |st.order|
    ensures |v| == |rs|
  {
    seq(|rs|, k requires 0 <= k < |rs| => RawAt(st, g, rs, k)[i])
  }


  lemma {:induction false} RealSumOfInts(xs: seq<real>, ns: seq<int>)
    requires |xs| == |ns| && forall k :: 0 <= k < |xs| ==> xs[k] == ns[k] as real
    ensures RealSum(xs) == Sum(ns) as real
  {
    if xs != [] {
      RealSumOfInts(xs[..|xs| - 1], ns[..|ns| - 1]);
    }
  }

  /**
    Conservation, after priming: what a tracepoint feature reports over a run adds up to the last total
    less the primed one, plus what was reached each time the total fell back.
   */
  lemma FeatureConserved(st: Setting, g: Gauges, prime: Reading, rs: seq<Reading>, i: nat, j: nat)
    requires Wired(st, g) && Fits(g, prime) && AllFit(g, rs)
    requires i < |st.order| && Serves(st.order[i]) == Perf
    requires j < |g.counters| && g.counters[j].feature == st.order[i]
    ensures AllFit(Advance(st, g, prime), rs)
    ensures var base, totals := P.Group(prime.perf[j]), GroupTotals(rs, j);
            RealSum(Reported(st, Advance(st, g, prime), rs, i)) == (Last(base, totals) - base + Sum(Drops(base, totals))) as real
  {
    AllStillFit(st, g, prime, rs);
    var h, base, totals := Advance(st, g, prime), P.Group(prime.perf[j]), GroupTotals(rs, j);
    PerfIsWired(st, i);
    assert Wired(st, h) && h.counters[j].prev == base;
    forall k | 0 <= k < |rs|
      ensures Reported(st, h, rs, i)[k] == Deltas(base, totals)[k] as real
    {
      EntriesAreDeltas(st, h, rs, i, j, k);
    }
    RealSumOfInts(Reported(st, h, rs, i), Deltas(base, totals));
    DeltasConserve(base, totals);
  }

  lemma PerfIsWired(st: Setting, i: nat)
    requires i < |st.order| && Serves(st.order[i]) == Perf && st.wiring == WiringOf(st.order)
    ensures st.wiring.perf
  {
    SelectServes(st.order, Perf, st.order[i]);
  }

  // ---- conservation of the disk counters ----

  /** The counter behind a feature, and what one unit of it is worth. */
  function DiskCounter(name: string, t: D.Totals): int {
    if name == "write_merge" then t.writesMerged else if name == "iowrite" then t.sectorsWritten else t.msWriting
  }

  predicate InSectors(name: string) {
    name == "iowrite"
  }

  /** A number of the units in which a counter counts: 512-byte sectors, or what the feature reports as it is. */
  function Worth(sectors: bool, n: int): real {
    if sectors then n as real * 512.0 else n as real
  }

  const DISK_COUNTERS: set<string> := {"write_merge", "iowrite", "iowritetime"}

  function DiskReading(r: Reading, name: string): int {
    DiskCounter(name, D.DiskTotals(r.lines, r.disks))
  }

  function DiskReadings(rs: seq<Reading>, name: string): (v: seq<int>)
    ensures |v| == |rs|
  {
    seq(|rs|, k requires 0 <= k < |rs| => DiskReading(rs[k], name))
  }

  lemma RateOfCounter(prev: D.Totals, cur: D.Totals, elapsed: real, name: string)
    requires elapsed > 0.0 && name in DISK_COUNTERS
    ensures name in D.Rates(prev, cur, elapsed)
    ensures D.Rates(prev, cur, elapsed)[name] == Worth(InSectors(name), Delta(DiskCounter(name, prev), DiskCounter(name, cur)))
  {
  }

  lemma DiskPrimed(st: Setting, g: Gauges, prime: Reading, name: string)
    requires st.wiring.disk && Fits(g, prime)
    ensures var h := Advance(st, g, prime);
            h.disk.havePrev && DiskCounter(name, h.disk.prev) == DiskReading(prime, name)
  {
  }

  /** After priming, the disk collector remembers the totals of the window before. */
  lemma DiskAt(st: Setting, g: Gauges, rs: seq<Reading>, name: string, k: nat)
    requires st.wiring.disk && g.disk.havePrev && AllFit(g, rs) && k < |rs|
    ensures var d := GaugesAt(st, g, rs, k).disk;
            d.havePrev && DiskCounter(name, d.prev) == Before(DiskCounter(name, g.disk.prev), DiskReadings(rs, name), k)
  {
  }

  lemma DiskEntry(st: Setting, g: Gauges, r: Reading, i: nat)
    requires Wired(st, g) && Fits(g, r) && i < |st.order| && Serves(st.order[i]) == Disk
    ensures st.wiring.disk && st.order[i] in DiskPart(st, g, r)
    ensures Assembled(st.order, Merged(st, g, r))[i] == DiskPart(st, g, r)[st.order[i]]
  {
    var name := st.order[i];
    PartsDisjoint(st, g, r);
    SelectServes(st.order, Disk, name);
    DiskKeys(st, g, r, name);
  }

  /** In window k, a disk feature is the k-th delta of its counter, in its unit. */
  lemma DiskEntriesAreDeltas(st: Setting, g: Gauges, rs: seq<Reading>, i: nat, k: nat)
    requires Wired(st, g) && g.disk.havePrev && AllFit(g, rs) && k < |rs|
    requires i < |st.order| && st.order[i] in DISK_COUNTERS && Serves(st.order[i]) == Disk
    ensures var name := st.order[i];
            EntryIs(st, g, rs, i, k, Worth(InSectors(name), Deltas(DiskCounter(name, g.disk.prev), DiskReadings(rs, name))[k]))
  {
    var name, h := st.order[i], GaugesAt(st, g, rs, k);
    WiredAt(st, g, rs, k);
    DiskEntry(st, h, rs[k], i);
    DiskAt(st, g, rs, name, k);
    RateOfCounter(h.disk.prev, D.DiskTotals(rs[k].lines, rs[k].disks), D.Elapsed(h.disk.prevTime, rs[k].diskTime), name);
  }

  function Worths(sectors: bool, ns: seq<int>): (v: seq<real>)
    ensures |v| == |ns|
  {
    seq(|ns|, k requires 0 <= k < |ns| => Worth(sectors, ns[k]))
  }

  lemma {:induction false} SumOfWorths(sectors: bool, ns: seq<int>)
    ensures RealSum(Worths(sectors, ns)) == Worth(sectors, Sum(ns))
  {
    if ns != [] {
      var n := |ns| - 1;
      SumOfWorths(sectors, ns[..n]);
      assert Worths(sectors, ns)[..n] == Worths(sectors, ns[..n]);
    }
  }

  /** Entry i of the vector in window k. */
  predicate EntryIs(st: Setting, g: Gauges, rs: seq<Reading>, i: nat, k: nat, value: real)
    requires AllFit(g, rs) && i < |st.order| && k < |rs|
  {
    RawAt(st, g, rs, k)[i] == value
  }

  lemma ReportedIs(st: Setting, g: Gauges, rs: seq<Reading>, i: nat, values: seq<real>)
    requires AllFit(g, rs) && i < |st.order| && |values| == |rs|
    requires forall k :: 0 <= k < |rs| ==> EntryIs(st, g, rs, i, k, values[k])
    ensures Reported(st, g, rs, i) == values
  {
  }

  /** A disk feature over a run from a primed collector. */
  lemma DiskReports(st: Setting, g: Gauges, rs: seq<Reading>, i: nat, values: seq<real>)
    requires Wired(st, g) && g.disk.havePrev && AllFit(g, rs)
    requires i < |st.order| && st.order[i] in DISK_COUNTERS && Serves(st.order[i]) == Disk
    requires values == Worths(InSectors(st.order[i]), Deltas(DiskCounter(st.order[i], g.disk.prev), DiskReadings(rs, st.order[i])))
    ensures Reported(st, g, rs, i) == values
  {
    forall k | 0 <= k < |rs|
      ensures EntryIs(st, g, rs, i, k, values[k])
    {
      DiskEntriesAreDeltas(st, g, rs, i, k);
    }
    ReportedIs(st, g, rs, i, values);
  }

  /** The values add up to the counter's increase, plus what was reached each time it fell back. */
  predicate Conserves(xs: seq<real>, sectors: bool, base: int, totals: seq<int>) {
    RealSum(xs) == Worth(sectors, Last(base, totals) - base + Sum(Drops(base, totals)))
  }

  lemma WorthConserved(sectors: bool, base: int, totals: seq<int>)
    ensures Conserves(Worths(sectors, Deltas(base, totals)), sectors, base, totals)
  {
    SumOfWorths(sectors, Deltas(base, totals));
    DeltasConserve(base, totals);
  }

  lemma DiskRunConserved(st: Setting, g: Gauges, rs: seq<Reading>, i: nat, base: int, totals: seq<int>)
    requires Wired(st, g) && g.disk.havePrev && AllFit(g, rs)
    requires i < |st.order| && st.order[i] in DISK_COUNTERS && Serves(st.order[i]) == Disk
    requires base == DiskCounter(st.order[i], g.disk.prev) && totals == DiskReadings(rs, st.order[i])
    ensures Conserves(Reported(st, g, rs, i), InSectors(st.order[i]), base, totals)
  {
    DiskReports(st, g, rs, i, Worths(InSectors(st.order[i]), Deltas(base, totals)));
    WorthConserved(InSectors(st.order[i]), base, totals);
  }

  lemma DiskIsWired(st: Setting, i: nat)
    requires i < |st.order| && Serves(st.order[i]) == Disk && st.wiring == WiringOf(st.order)
    ensures st.wiring.disk
  {
    SelectServes(st.order, Disk, st.order[i]);
  }

  /** Conservation for the merged writes, the bytes and the milliseconds written, after the priming sample. */
  lemma DiskFeatureConserved(st: Setting, g: Gauges, prime: Reading, rs: seq<Reading>, i: nat)
    requires Wired(st, g) && Fits(g, prime) && AllFit(g, rs)
    requires i < |st.order| && st.order[i] in DISK_COUNTERS && Serves(st.order[i]) == Disk
    ensures AllFit(Advance(st, g, prime), rs)
    ensures Conserves(Reported(st, Advance(st, g, prime), rs, i), InSectors(st.order[i]),
                      DiskReading(prime, st.order[i]), DiskReadings(rs, st.order[i]))
  {
    AllStillFit(st, g, prime, rs);
    AdvanceWired(st, g, prime);
    DiskIsWired(st, i);
    DiskPrimed(st, g, prime, st.order[i]);
    DiskRunConserved(st, Advance(st, g, prime), rs, i, DiskReading(prime, st.order[i]), DiskReadings(rs, st.order[i]));
  }
}
