/** End to end: what a run of the service puts on the wire. */
module ServiceProofs {
  import opened Bytes
  import opened MqttWire
  import opened MqttDecoder
  import opened MqttFrameProofs
  import opened MqttStreamProofs
  import opened MqttSessionProofs
  import opened MqttRunProofs
  import opened Detection
  import opened DetectionMeaning
  import opened DetectionProofs
  import opened HidsService
  import opened Routing
  import P = PerfCollector
  import S = MqttSession

  function SessionCalls(ms: seq<Message>): seq<S.Op> {
    [S.DoConnect] + PublishCalls(ms) + [S.DoDisconnect]
  }

  /** A run of the service is a run of the session machine. */
  lemma WholeSessionIsRun(opt: Options, s: S.Session, ms: seq<Message>)
    requires S.Usable(s)
    ensures WholeSession(opt, s, ms) == S.Run(opt, s, SessionCalls(ms))
  {
    RunConcat(opt, s, [S.DoConnect] + PublishCalls(ms), [S.DoDisconnect]);
    RunConcat(opt, s, [S.DoConnect], PublishCalls(ms));
    RunOfTwo(opt, s, [S.DoConnect]);
    RunOfTwo(opt, S.Run(opt, s, [S.DoConnect] + PublishCalls(ms)), [S.DoDisconnect]);
  }

  lemma {:induction false} CallsRequested(ms: seq<Message>, rest: seq<S.Op>)
    ensures Requested(PublishCalls(ms) + rest) == ms + Requested(rest)
    decreases |ms|
  {
    if ms == [] {
      assert PublishCalls(ms) + rest == rest;
    } else {
      CallsRequested(ms[1..], rest);
      assert (PublishCalls(ms) + rest)[1..] == PublishCalls(ms[1..]) + rest;
      assert (PublishCalls(ms) + rest)[0] == S.DoPublish(ms[0]);
      assert ms == [ms[0]] + ms[1..];
    }
  }

  lemma SessionRequests(ms: seq<Message>)
    ensures Requested(SessionCalls(ms)) == ms
  {
    var rest := PublishCalls(ms) + [S.DoDisconnect];
    assert SessionCalls(ms) == [S.DoConnect] + rest && ([S.DoConnect] + rest)[1..] == rest;
    CallsRequested(ms, [S.DoDisconnect]);
    assert Requested([S.DoDisconnect]) == [];
  }

  /**
    After a run that makes these events, the record holds the publish attempts they call for, in order; every
    socket is closed; and from each a receiver reads the CONNECT and then those attempts that returned true on
    it, in order, but for what may follow a send that stopped short.
   */
  lemma ServiceOnTheWire(st: Setting, opt: Options, s: S.Session, events: seq<DetectionEvent.Event>, c: int)
    requires S.Initial(s) && OptionsFit(opt) && MqttStreamProofs.AllFit(Attempts(st, events))
    requires 0 <= c < |WholeSession(opt, s, Attempts(st, events)).net.sockets|
    ensures var t := WholeSession(opt, s, Attempts(st, events));
            && Logged(t.log) == Attempts(st, events)
            && !t.net.sockets[c].open && t.net.sockets[c].closes == 1
            && |t.endings| == |t.net.sockets| && EndingInLog(opt, t.log, t.endings[c])
            && ReadsAs(opt, t.log, c, t.endings[c], ReadStream(t.net.sockets[c].accepted))
  {
    var ms := Attempts(st, events);
    WholeSessionIsRun(opt, s, ms);
    SessionRequests(ms);
    RunLogsEveryCall(opt, s, SessionCalls(ms));
    assert Logged(s.log) + ms == ms;
    RunFraming(opt, s, SessionCalls(ms), c);
    OneSocketOpen(opt, s, SessionCalls(ms), c);
  }

  /** What setup leaves is what the results about detection start from, and the priming sample keeps it so. */
  lemma SetupWires(service: HidsService, openings: seq<P.Opening>, prime: Reading)
    requires |openings| == |Select(service.setting.order, Perf)| && service.Fresh(openings)
    requires service.setting.wiring == WiringOf(service.setting.order) && Distinct(service.setting.order)
    ensures Wired(service.setting, service.State())
    ensures Fits(service.State(), prime) ==> Wired(service.setting, Advance(service.setting, service.State(), prime))
  {
    if Fits(service.State(), prime) {
      AdvanceWired(service.setting, service.State(), prime);
    }
  }

  /** Every event of a primed run of the service is its model's verdict on the features it carries. */
  lemma ServiceVerdicts(service: HidsService, prime: Reading, rs: seq<Reading>, k: nat)
    requires service.Valid() && Fits(service.State(), prime) && Detection.AllFit(service.State(), rs) && k < |rs|
    ensures var e := DetectPrimed(service.setting, service.State(), service.deb.history, prime, rs)[k];
            IsVerdict(service.model.Content(), service.exp, service.setting.classes, e)
  {
    AllStillFit(service.setting, service.State(), prime, rs);
    EventMeaning(service.setting, service.model.Content(), service.exp, Advance(service.setting, service.State(), prime),
                 service.deb.history, rs, k);
  }
}
