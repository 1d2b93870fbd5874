/**
  What the service detects, as a function of its settings and of what its collectors read. Nothing
  here mentions a network.
 */
module Detection {
  import opened Bytes
  import opened Vectors
  import opened Mlp
  import opened Softmax
  import opened Debouncer
  import opened DetectionEvent
  import opened MqttWire
  import opened Routing
  import opened Aggregator
  import P = PerfCollector
  import D = ProcCollector

  datatype Config = Config(host: string, topicPrefix: string, publishEveryWindow: bool, includeFeatures: bool,
                           alertStreak: int, minConfidence: real)

  /** Which collectors setup makes: those that serve some feature. */
  datatype Wiring = Wiring(perf: bool, disk: bool, resource: bool)

  function WiringOf(order: seq<string>): Wiring {
    Wiring(Select(order, Perf) != [], Select(order, Disk) != [], Select(order, Resource) != [])
  }

  /** What the inference engine makes of a raw vector. */
  datatype Inference = Inference(classIdx: int, confidence: real, normalized: Vector)

  /** The engine for a model: scale, run the layers, take the winner. */
  function InferenceOf(p: Params<real>, exp: real -> real, raw: Vector): Inference {
    if WellSized(p) && |raw| == p.nIn then
      var x := Scaled(p, raw);
      var z := Logits(p, x);
      Inference(FirstMax(z), Confidence(exp, z, FirstMax(z)), x)
    else Inference(0, 0.0, [])
  }

  /** All that setup fixes; `start` is when the resource collector was made. */
  datatype Setting = Setting(cfg: Config, order: seq<string>, wiring: Wiring, classes: seq<string>,
                             infer: Vector -> Inference, fmt: Format, start: real)

  predicate InfersAt(st: Setting, p: Params<real>, exp: real -> real, raw: Vector) {
    st.infer(raw) == InferenceOf(p, exp, raw)
  }

  /** The setting's engine is that of the given model. */
  ghost predicate Infers(st: Setting, p: Params<real>, exp: real -> real) {
    forall raw :: InfersAt(st, p, exp, raw)
  }

  /** What the collectors read in one window, and the clock's text. */
  datatype Reading = Reading(perf: seq<P.GroupRead>, lines: seq<D.Line>, disks: set<string>, diskTime: real,
                             resourceTime: real, timestamp: string)

  /** What the collectors keep between windows. */
  datatype Gauges = Gauges(counters: seq<P.Counter>, disk: D.State)

  predicate Fits(g: Gauges, r: Reading) {
    P.ReadsFit(g.counters, r.perf)
  }

  function PerfPart(st: Setting, g: Gauges, r: Reading): map<string, real>
    requires Fits(g, r)
  {
    if st.wiring.perf then P.Emitted(map[], g.counters, r.perf) else map[]
  }

  function DiskPart(st: Setting, g: Gauges, r: Reading): map<string, real> {
    if st.wiring.disk then D.Emitted(g.disk, D.DiskTotals(r.lines, r.disks), r.diskTime) else map[]
  }

  function ResourcePart(st: Setting, r: Reading): map<string, real> {
    if st.wiring.resource then map["seconds_RES_data" := r.resourceTime - st.start] else map[]
  }

  /** The merged map: the collectors write in the order in which setup made them. */
  function Merged(st: Setting, g: Gauges, r: Reading): map<string, real>
    requires Fits(g, r)
  {
    PerfPart(st, g, r) + DiskPart(st, g, r) + ResourcePart(st, r)
  }

  function Advance(st: Setting, g: Gauges, r: Reading): (h: Gauges)
    requires Fits(g, r)
  {
    Gauges(if st.wiring.perf then P.Sampled(g.counters, r.perf) else g.counters,
           if st.wiring.disk then D.State(D.DiskTotals(r.lines, r.disks), true, r.diskTime) else g.disk)
  }

  predicate AllFit(g: Gauges, rs: seq<Reading>) {
    forall i :: 0 <= i < |rs| ==> Fits(g, rs[i])
  }

  lemma AllStillFit(st: Setting, g: Gauges, r: Reading, rs: seq<Reading>)
    requires Fits(g, r) && AllFit(g, rs)
    ensures AllFit(Advance(st, g, r), rs)
  {
  }

  function RuleOf(cfg: Config): Rule {
    Rule(0, cfg.alertStreak, cfg.minConfidence)
  }

  function ClassName(classes: seq<string>, cls: int): string {
    if 0 <= cls < |classes| then classes[cls] else "?"
  }

  /** The event of one window, after the windows of `past`. */
  function EventOf(st: Setting, past: seq<Window>, raw: Vector, timestamp: string): Event {
    var r := st.infer(raw);
    Event(timestamp, r.classIdx, ClassName(st.classes, r.classIdx), r.confidence, st.cfg.host,
          Fires(RuleOf(st.cfg), past + [Window(r.classIdx, r.confidence)], |past|), r.normalized)
  }

  /** Entry by entry the scaled raw value. */
  predicate IsScaled(p: Params<real>, raw: Vector, x: Vector) {
    && |raw| == |x| == |p.featureMin| == |p.featureMax|
    && forall i :: 0 <= i < |x| ==> x[i] == Scale(raw[i], p.featureMin[i], p.featureMax[i])
  }

  /** The class of the first largest logit, and its probability. */
  predicate IsWinner(p: Params<real>, exp: real -> real, x: Vector, classIdx: int, confidence: real)
    requires WellSized(p)
  {
    && |x| == p.nIn && IsFirstMax(Logits(p, x), classIdx)
    && confidence == Probability(exp, Logits(p, x), classIdx)
  }

  /** The event names the winner on its features. */
  predicate IsVerdict(p: Params<real>, exp: real -> real, classes: seq<string>, e: Event)
    requires WellSized(p) && |classes| == p.nOut
  {
    IsWinner(p, exp, e.features, e.classIdx, e.confidence) && e.className == classes[e.classIdx]
  }

  function WindowOf(e: Event): Window {
    Window(e.classIdx, e.confidence)
  }

  function Windows(events: seq<Event>): (w: seq<Window>)
    ensures |w| == |events|
  {
    seq(|events|, i requires 0 <= i < |events| => WindowOf(events[i]))
  }

  /** The events of a run of windows. */
  function Detect(st: Setting, g: Gauges, past: seq<Window>, rs: seq<Reading>): (events: seq<Event>)
    requires AllFit(g, rs)
    ensures |events| == |rs|
    decreases |rs|
  {
    if rs == [] then []
    else
      var e := EventOf(st, past, Assembled(st.order, Merged(st, g, rs[0])), rs[0].timestamp);
      AllStillFit(st, g, rs[0], rs[1..]);
      [e] + Detect(st, Advance(st, g, rs[0]), past + [WindowOf(e)], rs[1..])
  }

  /** The events after one priming sample, which is thrown away. */
  function DetectPrimed(st: Setting, g: Gauges, past: seq<Window>, prime: Reading, rs: seq<Reading>): (events: seq<Event>)
    requires Fits(g, prime) && AllFit(g, rs)
    ensures |events| == |rs|
  {
    AllStillFit(st, g, prime, rs);
    Detect(st, Advance(st, g, prime), past, rs)
  }

  // ---- what is published ----

  function ToBytes(s: string): (b: seq<byte>)
    ensures |b| == |s|
  {
    seq(|s|, i requires 0 <= i < |s| => s[i] as int % 256)
  }

  function EventsTopic(cfg: Config): string {
    cfg.topicPrefix + "/" + cfg.host + "/events"
  }

  function AlertsTopic(cfg: Config): string {
    cfg.topicPrefix + "/" + cfg.host + "/alerts"
  }

  function EventMessage(st: Setting, e: Event): Message {
    Message(ToBytes(EventsTopic(st.cfg)), ToBytes(ToJson(e, st.cfg.includeFeatures, st.fmt)), false)
  }

  function AlertMessage(st: Setting, e: Event): Message {
    Message(ToBytes(AlertsTopic(st.cfg)), ToBytes(ToJson(e, st.cfg.includeFeatures, st.fmt)), false)
  }

  /** One window's publish calls, in order. */
  function WindowMessages(st: Setting, e: Event): seq<Message> {
    (if st.cfg.publishEveryWindow then [EventMessage(st, e)] else []) + if e.alert then [AlertMessage(st, e)] else []
  }

  function PerWindow(st: Setting, events: seq<Event>): (m: seq<seq<Message>>)
    ensures |m| == |events|
  {
    seq(|events|, i requires 0 <= i < |events| => WindowMessages(st, events[i]))
  }

  function Concat(parts: seq<seq<Message>>): seq<Message> {
    if parts == [] then [] else Concat(parts[..|parts| - 1]) + parts[|parts| - 1]
  }

  /** The publish calls of a run, window after window. */
  function Attempts(st: Setting, events: seq<Event>): seq<Message> {
    Concat(PerWindow(st, events))
  }

  lemma AttemptsNext(st: Setting, events: seq<Event>, e: Event)
    ensures Attempts(st, events + [e]) == Attempts(st, events) + WindowMessages(st, e)
  {
    assert PerWindow(st, events + [e])[..|events|] == PerWindow(st, events);
  }
}
