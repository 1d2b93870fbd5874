/** The service: what setup builds, and the per-window loop. */
module HidsService {
  import opened Bytes
  import opened Vectors
  import opened Mlp
  import opened Softmax
  import opened Debouncer
  import opened DetectionEvent
  import opened MqttWire
  import opened Routing
  import opened Aggregator
  import opened Detection
  import Counters
  import F = ModelFile
  import L = ModelLoader
  import V = ModelFileValues
  import M = Model
  import N = Network
  import P = PerfCollector
  import D = ProcCollector
  import Q = MqttPublisher
  import S = MqttSession

  datatype SetupError = BadModel(error: F.Error) | InputMismatch | OutputMismatch

  /** The calls that publish some messages. */
  function PublishCalls(ms: seq<Message>): (ops: seq<S.Op>)
    ensures |ops| == |ms|
  {
    seq(|ms|, i requires 0 <= i < |ms| => S.DoPublish(ms[i]))
  }

  class HidsService {
    const setting: Setting
    const exp: real -> real
    const model: M.Model
    const perf: P.PerfCollector?
    const disk: D.ProcCollector?
    const agg: WindowAggregator
    const deb: Debouncer
    const mqtt: Q.Publisher

    ghost function State(): Gauges
      reads this, perf, disk
    {
      Gauges(if perf == null then [] else perf.counters, if disk == null then D.State(D.ZERO, false, 0.0) else disk.View())
    }

    /** The settings agree with the parts that setup built from them. */
    ghost predicate Valid()
      reads this, model, perf, disk, deb, mqtt, mqtt.kernel
    {
      && model.Valid() && IsExp(exp) && Infers(setting, model.Content(), exp)
      && model.nIn == |setting.order| && model.nOut == |setting.classes|
      && (perf != null <==> setting.wiring.perf) && (disk != null <==> setting.wiring.disk)
      && agg.order == setting.order
      && deb.Valid() && deb.rule == RuleOf(setting.cfg)
      && mqtt.Valid()
    }

    /** What the service remembers: its collectors' readings and the windows judged so far. */
    ghost predicate StandsAt(g: Gauges, past: seq<Window>)
      reads this, model, perf, disk, deb, mqtt, mqtt.kernel
    {
      Valid() && State() == g && deb.history == past
    }

    constructor (setting: Setting, exp: real -> real, model: M.Model, perf: P.PerfCollector?, disk: D.ProcCollector?, deb: Debouncer, mqtt: Q.Publisher)
      ensures this.setting == setting && this.exp == exp && this.model == model && this.perf == perf && this.disk == disk
      ensures this.deb == deb && this.mqtt == mqtt && agg.order == setting.order
    {
      this.setting, this.exp, this.model := setting, exp, model;
      this.perf, this.disk, this.deb, this.mqtt := perf, disk, deb, mqtt;
      agg := new WindowAggregator(setting.order);
    }

    /** The service as setup leaves it: nothing read, nothing seen, nothing sent. */
    ghost predicate Fresh(openings: seq<P.Opening>)
      requires |openings| == |Select(setting.order, Perf)|
      reads this, model, perf, disk, deb, mqtt, mqtt.kernel
    {
      && Valid() && S.Initial(mqtt.State()) && deb.history == []
      && State() == Gauges(P.FreshCounters(Select(setting.order, Perf), openings), D.State(D.ZERO, false, 0.0))
    }

    /** Routes the features and makes the collectors that serve any. */
    static method Wire(order: seq<string>, openings: seq<P.Opening>)
      returns (wiring: Wiring, perf: P.PerfCollector?, disk: D.ProcCollector?)
      requires |openings| == |Select(order, Perf)|
      ensures wiring == WiringOf(order)
      ensures perf != null <==> wiring.perf
      ensures disk != null <==> wiring.disk
      ensures perf != null ==> fresh(perf) && perf.counters == P.FreshCounters(Select(order, Perf), openings)
      ensures disk != null ==> fresh(disk) && disk.View() == D.State(D.ZERO, false, 0.0)
    {
      var routes := RouteFeatures(order);
      perf, disk := null, null;
      assert PerfNames(routes) == Select(order, Perf);
      if routes.perf != [] {
        perf := new P.PerfCollector(PerfNames(routes), openings);
      }
      if routes.disk != [] {
        disk := new D.ProcCollector();
      }
      wiring := Wiring(routes.perf != [], routes.disk != [], routes.resource != []);
    }

    /**
      Loads the model, checks it against the feature and class lists, and builds the parts. `openings` is
      what the kernel offers for the routed tracepoints. A model that loads only because a product wrapped is
      taken like any other; inference then has no arrays of the right sizes to run on.
     */
    static method Setup(cfg: Config, order: seq<string>, classes: seq<string>, opt: Options, kernel: N.Kernel,
                        file: Option<seq<byte>>, sizeMod: nat, val: F.Word -> real,
                        openings: seq<P.Opening>, exp: real -> real, fmt: Format, start: real)
      returns (failure: Option<SetupError>, service: HidsService?)
      requires F.IsSizeMod(sizeMod) && IsExp(exp) && kernel.net.sockets == []
      requires |openings| == |Select(order, Perf)|
      ensures match failure
              case Some(BadModel(error)) =>
                if file.None? then error == F.CannotOpen else F.Parse(file.value, sizeMod) == F.Failed(error)
              case Some(InputMismatch) =>
                file.Some? && F.Parse(file.value, sizeMod).Ok? && F.Parse(file.value, sizeMod).value.nIn != |order|
              case Some(OutputMismatch) =>
                && file.Some? && F.Parse(file.value, sizeMod).Ok? && F.Parse(file.value, sizeMod).value.nIn == |order|
                && F.Parse(file.value, sizeMod).value.nOut != |classes|
              case None =>
                && file.Some? && F.Parse(file.value, sizeMod).Ok? && F.Parse(file.value, sizeMod).value.nIn == |order|
                && F.Parse(file.value, sizeMod).value.nOut == |classes|
      ensures failure.None? ==>
                && service != null && fresh(service) && service.mqtt.kernel == kernel && service.mqtt.opt == opt
                && service.setting == Setting(cfg, order, WiringOf(order), classes, service.setting.infer, fmt, start)
                && service.exp == exp && service.model.Content() == V.ParamValues(F.Parse(file.value, sizeMod).value, val)
                && V.LoadedFrom(service.model.Content(), file.value, sizeMod, val)
                && (WellSized(F.Parse(file.value, sizeMod).value) ==> service.Fresh(openings))
    {
      service := null;
      var loaded := L.Load(file, sizeMod, val);
      if loaded.Failed? {
        return Some(BadModel(loaded.error)), null;
      }
      var model := loaded.value;
      if model.nIn != |order| {
        return Some(InputMismatch), null;
      }
      if model.nOut != |classes| {
        return Some(OutputMismatch), null;
      }
      var wiring, perf, disk := Wire(order, openings);
      var deb := new Debouncer(0, cfg.alertStreak, cfg.minConfidence);
      var mqtt := new Q.Publisher(opt, kernel);
      var setting := Setting(cfg, order, wiring, classes, Engine(model.Content(), exp), fmt, start);
      EngineInfers(setting, model.Content(), exp);
      service := new HidsService(setting, exp, model, perf, disk, deb, mqtt);
      failure := None;
    }

    /** All collectors sample into one map. */
    method Collect(r: Reading) returns (merged: map<string, real>)
      requires Valid() && Fits(State(), r)
      modifies perf, disk
      ensures merged == Merged(setting, old(State()), r)
      ensures State() == Advance(setting, old(State()), r)
    {
      ghost var g := State();
      var sink := new Counters.Sink();
      if perf != null {
        perf.Sample(sink, r.perf);
      }
      assert sink.values == PerfPart(setting, g, r);
      if disk != null {
        disk.Sample(sink, r.lines, r.disks, r.diskTime);
      }
      assert sink.values == PerfPart(setting, g, r) + DiskPart(setting, g, r);
      if setting.wiring.resource {
        Counters.PutIsUnion(sink.values, "seconds_RES_data", r.resourceTime - setting.start);
        sink.Put("seconds_RES_data", r.resourceTime - setting.start);
      } else {
        Counters.UnionWithNothing(sink.values);
      }
      merged := sink.values;
    }

    /** Normalize, then classify. */
    method Infer(raw: array<real>) returns (r: Inference)
      requires Valid() && raw.Length == |setting.order|
      ensures r == setting.infer(raw[..])
      ensures IsScaled(model.Content(), raw[..], r.normalized)
      ensures IsWinner(model.Content(), exp, r.normalized, r.classIdx, r.confidence)
    {
      var x := new real[model.nIn];
      model.Normalize(raw, x);
      var classIdx, confidence := model.Predict(x, exp);
      r := Inference(classIdx, confidence, x[..]);
      ghost var z := Logits(model.Content(), x[..]);
      FirstMaxUnique(z, classIdx, FirstMax(z));
      ConfidenceIsProbability(exp, z, classIdx);
      assert InfersAt(setting, model.Content(), exp, raw[..]);
    }

    /** Collect, aggregate, infer. */
    method Look(r: Reading) returns (res: Inference)
      requires Valid() && Fits(State(), r)
      modifies perf, disk
      ensures Valid() && State() == Advance(setting, old(State()), r)
      ensures res == setting.infer(Assembled(setting.order, Merged(setting, old(State()), r)))
      ensures IsWinner(model.Content(), exp, res.normalized, res.classIdx, res.confidence)
    {
      var merged := Collect(r);
      var raw := agg.Assemble(merged);
      res := Infer(raw);
    }

    /** One window: the event, with the debouncer's verdict. */
    method Observe(r: Reading) returns (e: Event)
      requires Valid() && Fits(State(), r)
      modifies perf, disk, deb
      ensures Valid() && State() == Advance(setting, old(State()), r)
      ensures e == EventOf(setting, old(deb.history), Assembled(setting.order, Merged(setting, old(State()), r)), r.timestamp)
      ensures deb.history == old(deb.history) + [WindowOf(e)]
      ensures IsVerdict(model.Content(), exp, setting.classes, e)
    {
      var res := Look(r);
      var alert := deb.Update(res.classIdx, res.confidence);
      e := Event(r.timestamp, res.classIdx, ClassName(setting.classes, res.classIdx), res.confidence, setting.cfg.host, alert,
                 res.normalized);
    }

    /** The window's publish calls; what they return is not looked at. */
    method Report(e: Event)
      requires Valid()
      modifies mqtt, mqtt.kernel
      ensures Valid() && mqtt.State() == S.Run(mqtt.opt, old(mqtt.State()), PublishCalls(WindowMessages(setting, e)))
    {
      ghost var calls := PublishCalls(WindowMessages(setting, e));
      if setting.cfg.publishEveryWindow {
        var json := EventToJson(e, setting.cfg.includeFeatures, setting.fmt);
        var sent := mqtt.Publish(Message(ToBytes(EventsTopic(setting.cfg)), ToBytes(json), false));
        assert calls[0] == S.DoPublish(EventMessage(setting, e));
      }
      if e.alert {
        var json := EventToJson(e, setting.cfg.includeFeatures, setting.fmt);
        var sent := mqtt.Publish(Message(ToBytes(AlertsTopic(setting.cfg)), ToBytes(json), false));
        assert calls[|calls| - 1] == S.DoPublish(AlertMessage(setting, e));
      }
      RunOfTwo(mqtt.opt, old(mqtt.State()), calls);
    }

    /** The body of the loop. */
    method HandleWindow(r: Reading) returns (e: Event)
      requires Valid() && Fits(State(), r)
      modifies perf, disk, deb, mqtt, mqtt.kernel
      ensures Valid() && State() == Advance(setting, old(State()), r)
      ensures e == EventOf(setting, old(deb.history), Assembled(setting.order, Merged(setting, old(State()), r)), r.timestamp)
      ensures deb.history == old(deb.history) + [WindowOf(e)]
      ensures mqtt.State() == S.Run(mqtt.opt, old(mqtt.State()), PublishCalls(WindowMessages(setting, e)))
    {
      e := Observe(r);
      Report(e);
    }

    method Loop(rs: seq<Reading>) returns (events: seq<Event>)
      requires Valid() && AllFit(State(), rs)
      modifies perf, disk, deb, mqtt, mqtt.kernel
      ensures Valid()
      ensures events == Detect(setting, old(State()), old(deb.history), rs)
      ensures mqtt.State() == S.Run(mqtt.opt, old(mqtt.State()), PublishCalls(Attempts(setting, events)))
    {
      ghost var start := Standing(State(), deb.history, mqtt.State());
      ghost var now := start;
      events := [];
      HalfwayStart(setting, mqtt.opt, start, rs);
      for i := 0 to |rs|
        invariant Valid() && now == Standing(State(), deb.history, mqtt.State())
        invariant Halfway(setting, mqtt.opt, start, rs, i, events, now)
      {
        HalfwayFits(setting, mqtt.opt, start, rs, i, events, now);
        var e := HandleWindow(rs[i]);
        HalfwayNext(setting, mqtt.opt, start, rs, i, events, now, e);
        now := Standing(State(), deb.history, mqtt.State());
        events := events + [e];
      }
      HalfwayEnd(setting, mqtt.opt, start, rs, events, now);
    }

    /**
      Connects, primes the collectors with one discarded sample, then handles the windows one by one
      until asked to stop, and disconnects. Returns the events it made.
     */
    method Run(prime: Reading, rs: seq<Reading>) returns (events: seq<Event>)
      requires Valid() && Fits(State(), prime) && AllFit(State(), rs)
      modifies perf, disk, deb, mqtt, mqtt.kernel
      ensures Valid()
      ensures events == DetectPrimed(setting, old(State()), old(deb.history), prime, rs)
      ensures mqtt.State() == WholeSession(mqtt.opt, old(mqtt.State()), Attempts(setting, events))
    {
      ghost var g := State();
      var connected := mqtt.Connect();
      var discard := Collect(prime);
      AllStillFit(setting, g, prime, rs);
      events := Loop(rs);
      mqtt.Disconnect();
    }
  }

  /** Two services with no part in common. */
  ghost predicate Apart(a: HidsService, b: HidsService)
    reads a.mqtt, b.mqtt
  {
    && a.deb != b.deb && a.mqtt != b.mqtt && a.mqtt.kernel != b.mqtt.kernel
    && (a.perf != b.perf || a.perf == null) && (a.disk != b.disk || a.disk == null)
  }

  /** Running one service leaves another where it stands. */
  method RunBeside(a: HidsService, b: HidsService, prime: Reading, rs: seq<Reading>, ghost g: Gauges, ghost past: seq<Window>)
    returns (events: seq<Event>)
    requires a.StandsAt(g, past) && b.StandsAt(g, past) && Apart(a, b)
    requires Fits(g, prime) && AllFit(g, rs)
    modifies a.perf, a.disk, a.deb, a.mqtt, a.mqtt.kernel
    ensures events == DetectPrimed(a.setting, g, past, prime, rs)
    ensures b.StandsAt(g, past) == old(b.StandsAt(g, past))
  {
    events := a.Run(prime, rs);
  }

  /**
    Telemetry never affects detection: two services with the same settings, standing at the same point and
    given the same readings, each with a broker and a network of its own that may behave in any way, make
    the same events.
   */
  method TwoBrokers(a: HidsService, b: HidsService, prime: Reading, rs: seq<Reading>, ghost g: Gauges, ghost past: seq<Window>)
    returns (first: seq<Event>, second: seq<Event>)
    requires a.StandsAt(g, past) && b.StandsAt(g, past) && a.setting == b.setting && Apart(a, b)
    requires Fits(g, prime) && AllFit(g, rs)
    modifies a.perf, a.disk, a.deb, a.mqtt, a.mqtt.kernel, b.perf, b.disk, b.deb, b.mqtt, b.mqtt.kernel
    ensures first == second
  {
    first := RunBeside(a, b, prime, rs, g, past);
    second := b.Run(prime, rs);
  }

  /** What a run of the service does to its session: connect, publish each message, disconnect. */
  function WholeSession(opt: Options, s: S.Session, ms: seq<Message>): S.Session
    requires S.Usable(s)
  {
    S.HangUp(S.Run(opt, S.Connect(opt, s).0, PublishCalls(ms)), S.Asked)
  }

  /** What the loop has changed so far, as values. */
  datatype Standing = Standing(gauges: Gauges, past: seq<Window>, session: S.Session)

  /** The loop before its i-th window: these events are made and sent, and the rest will be. */
  ghost predicate Halfway(st: Setting, opt: Options, start: Standing, rs: seq<Reading>, i: nat, events: seq<Event>, now: Standing)
    requires AllFit(start.gauges, rs) && S.Usable(start.session)
  {
    && i <= |rs| && AllFit(now.gauges, rs[i..])
    && events + Detect(st, now.gauges, now.past, rs[i..]) == Detect(st, start.gauges, start.past, rs)
    && now.session == S.Run(opt, start.session, PublishCalls(Attempts(st, events)))
  }

  lemma HalfwayStart(st: Setting, opt: Options, start: Standing, rs: seq<Reading>)
    requires AllFit(start.gauges, rs) && S.Usable(start.session)
    ensures Halfway(st, opt, start, rs, 0, [], start)
  {
  }

  lemma HalfwayFits(st: Setting, opt: Options, start: Standing, rs: seq<Reading>, i: nat, events: seq<Event>, now: Standing)
    requires AllFit(start.gauges, rs) && S.Usable(start.session)
    requires Halfway(st, opt, start, rs, i, events, now) && i < |rs|
    ensures Fits(now.gauges, rs[i])
  {
  }

  lemma HalfwayNext(st: Setting, opt: Options, start: Standing, rs: seq<Reading>, i: nat, events: seq<Event>, now: Standing, e: Event)
    requires AllFit(start.gauges, rs) && S.Usable(start.session)
    requires Halfway(st, opt, start, rs, i, events, now) && i < |rs| && S.Usable(now.session)
    requires Fits(now.gauges, rs[i])
    requires e == EventOf(st, now.past, Assembled(st.order, Merged(st, now.gauges, rs[i])), rs[i].timestamp)
    ensures Halfway(st, opt, start, rs, i + 1, events + [e],
                    Standing(Advance(st, now.gauges, rs[i]), now.past + [WindowOf(e)],
                             S.Run(opt, now.session, PublishCalls(WindowMessages(st, e)))))
  {
    assert rs[i..][0] == rs[i] && rs[i..][1..] == rs[i + 1..];
    var later := Advance(st, now.gauges, rs[i]);
    AllStillFit(st, now.gauges, rs[i], rs[i + 1..]);
    var rest := Detect(st, later, now.past + [WindowOf(e)], rs[i + 1..]);
    assert Detect(st, now.gauges, now.past, rs[i..]) == [e] + rest;
    assert events + [e] + rest == events + ([e] + rest);
    OneMoreWindow(opt, start.session, st, events, e);
  }

  lemma HalfwayEnd(st: Setting, opt: Options, start: Standing, rs: seq<Reading>, events: seq<Event>, now: Standing)
    requires AllFit(start.gauges, rs) && S.Usable(start.session)
    requires Halfway(st, opt, start, rs, |rs|, events, now)
    ensures events == Detect(st, start.gauges, start.past, rs)
    ensures now.session == S.Run(opt, start.session, PublishCalls(Attempts(st, events)))
  {
  }

  lemma {:induction false} RunConcat(opt: Options, s: S.Session, a: seq<S.Op>, b: seq<S.Op>)
    requires S.Usable(s)
    ensures S.Run(opt, s, a + b) == S.Run(opt, S.Run(opt, s, a), b)
    decreases |a|
  {
    if a == [] {
      assert a + b == b;
    } else {
      var t := S.Step(opt, s, a[0]);
      RunConcat(opt, t, a[1..], b);
      assert (a + b)[0] == a[0] && (a + b)[1..] == a[1..] + b;
    }
  }

  lemma CallsConcat(a: seq<Message>, b: seq<Message>)
    ensures PublishCalls(a + b) == PublishCalls(a) + PublishCalls(b)
  {
  }

  lemma OneMoreWindow(opt: Options, s: S.Session, st: Setting, events: seq<Event>, e: Event)
    requires S.Usable(s)
    ensures S.Run(opt, s, PublishCalls(Attempts(st, events + [e])))
            == S.Run(opt, S.Run(opt, s, PublishCalls(Attempts(st, events))), PublishCalls(WindowMessages(st, e)))
  {
    AttemptsNext(st, events, e);
    var a, b := Attempts(st, events), WindowMessages(st, e);
    CallsConcat(a, b);
    RunConcat(opt, s, PublishCalls(a), PublishCalls(b));
  }

  /** The inference engine as a function. */
  function Engine(p: Params<real>, exp: real -> real): Vector -> Inference {
    raw => InferenceOf(p, exp, raw)
  }

  lemma EngineInfers(st: Setting, p: Params<real>, exp: real -> real)
    requires st.infer == Engine(p, exp)
    ensures Infers(st, p, exp)
  {
  }

  lemma RunOfTwo(opt: Options, s: S.Session, ops: seq<S.Op>)
    requires S.Usable(s) && |ops| <= 2
    ensures |ops| == 0 ==> S.Run(opt, s, ops) == s
    ensures |ops| == 1 ==> S.Run(opt, s, ops) == S.Step(opt, s, ops[0])
    ensures |ops| == 2 ==> S.Run(opt, s, ops) == S.Step(opt, S.Step(opt, s, ops[0]), ops[1])
  {
    if |ops| == 2 {
      assert ops[1..][0] == ops[1] && ops[1..][1..] == [];
      assert S.Run(opt, S.Step(opt, s, ops[0]), ops[1..]) == S.Run(opt, S.Step(opt, S.Step(opt, s, ops[0]), ops[1]), []);
    } else if |ops| == 1 {
      assert ops[1..] == [];
    }
  }
}
