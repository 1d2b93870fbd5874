/** The main results about the publisher: statements about every run, every script and every socket. */
module MqttRunProofs {
  import opened Bytes
  import opened MqttWire
  import opened MqttDecoder
  import opened MqttFrameProofs
  import opened MqttStreamProofs
  import opened MqttCutFrames
  import opened MqttCutProofs
  import opened Network
  import opened MqttSession
  import opened MqttSessionProofs

  // ---- what a script lets through ----

  /** The bytes a send script takes before its first failure; interruptions do not matter. */
  function Offer(sends: seq<SendAnswer>): nat {
    if sends == [] || sends[0] == SendFails || sends[0] == Takes(0) then 0
    else (if sends[0].Takes? then sends[0].n else 0) + Offer(sends[1..])
  }

  /** The bytes a receive script delivers before its first failure or close. */
  function Speech(recvs: seq<RecvAnswer>): seq<byte> {
    if recvs == [] || recvs[0] == RecvFails || recvs[0] == Gives([]) then []
    else (if recvs[0].Gives? then recvs[0].data else []) + Speech(recvs[1..])
  }

  lemma {:induction false} SendTakesOffer(sends: seq<SendAnswer>, n: nat)
    ensures SendPlan(sends, n).taken == Min(n, Offer(sends))
    decreases |sends|
  {
    if n > 0 && sends != [] {
      match sends[0]
      case SendInterrupted => SendTakesOffer(sends[1..], n);
      case SendFails =>
      case Takes(k) =>
        if k > 0 {
          SendTakesOffer(sends[1..], n - Min(k, n));
        }
    }
  }

  lemma {:induction false} RecvHearsSpeech(recvs: seq<RecvAnswer>, n: nat)
    ensures RecvPlan(recvs, n).data == Speech(recvs)[..Min(n, |Speech(recvs)|)]
    decreases |recvs|
  {
    if n > 0 && recvs != [] {
      match recvs[0]
      case RecvInterrupted => RecvHearsSpeech(recvs[1..], n);
      case RecvFails =>
      case Gives(d) =>
        if d != [] {
          RecvHearsSpeech(recvs[1..], n - Min(|d|, n));
        }
    }
  }

  /** The send loop appends all of its bytes when it succeeds, and a proper prefix of them when it fails. */
  lemma SendAllAppends(net: Net, fd: int, p: seq<byte>)
    requires IsOpen(net, fd)
    ensures SendsAll(net, p) <==> Offer(net.sends) >= |p|
    ensures var sent := SendAll(net, fd, p);
            && sent.sockets[fd].accepted == net.sockets[fd].accepted + p[..Min(|p|, Offer(net.sends))]
            && (SendsAll(net, p) ==> sent.sockets[fd].accepted == net.sockets[fd].accepted + p)
            && (forall c :: 0 <= c < |net.sockets| && c != fd ==> sent.sockets[c] == net.sockets[c])
  {
    SendTakesOffer(net.sends, |p|);
    assert p[..|p|] == p;
  }

  /**
    Connecting succeeds exactly when an address answers, the whole CONNECT goes out, and what the peer says
    first is read as an acknowledgement with return code 0. An old session is hung up before.
   */
  lemma ConnectSucceedsWhen(opt: Options, s: Session)
    requires Usable(s)
    ensures MqttSession.Connect(opt, s).1 <==>
              && s.net.lookups != [] && s.net.lookups[0].Resolved? && Reachable in s.net.lookups[0].addresses
              && Offer(HangUp(s, Asked).net.sends) >= |ConnectFrame(opt)|
              && IsAcceptance(Speech(s.net.recvs)[..Min(4, |Speech(s.net.recvs)|)])
  {
    AcceptingIsRead(RecvPlan(s.net.recvs, 4).data);
    if s.net.lookups != [] && s.net.lookups[0].Resolved? {
      DialledShape(s.net.lookups[0].addresses);
    }
    var hung := HangUp(s, Asked);
    SendTakesOffer(hung.net.sends, |ConnectFrame(opt)|);
    RecvHearsSpeech(s.net.recvs, 4);
    var dialled := Dial(hung);
    assert hung.net.lookups == s.net.lookups && hung.net.recvs == s.net.recvs;
    assert dialled.net.sends == hung.net.sends && dialled.net.recvs == s.net.recvs;
    if dialled.fd >= 0 {
      assert SendAll(dialled.net, dialled.fd, ConnectFrame(opt)).recvs == s.net.recvs;
    }
  }

  lemma NonzeroIsRefusal(flags: byte, code: byte)
    requires code != 0
    ensures !IsAcceptance([0x20, 0x02, flags, code])
  {
    assert [0x20, 0x02, flags, code][1..] == [0x02, flags, code] && [0x02, flags, code][1..] == [flags, code];
    assert ReadDigits([0x02, flags, code], 4) == Got(2, [flags, code]);
  }

  /** A broker that answers with any other return code gets no session: connect fails and leaves no socket open. */
  lemma RefusalHangsUp(opt: Options, s: Session, flags: byte, code: byte)
    requires Consistent(opt, s) && code != 0 && |Speech(s.net.recvs)| >= 4
    requires Speech(s.net.recvs)[..4] == [0x20, 0x02, flags, code]
    ensures var (t, ok) := MqttSession.Connect(opt, s);
            !ok && t.fd < 0 && forall c :: 0 <= c < |t.net.sockets| ==> !t.net.sockets[c].open
  {
    var t := MqttSession.Connect(opt, s).0;
    NonzeroIsRefusal(flags, code);
    ConnectSucceedsWhen(opt, s);
    ConnectKeeps(opt, s);
    forall c | 0 <= c < |t.net.sockets|
      ensures !t.net.sockets[c].open
    {
      assert SocketFits(opt, t, c);
    }
  }

  /** Connect never goes on with an old socket: that one is closed, and a session runs on a new one. */
  lemma ConnectStartsAfresh(opt: Options, s: Session)
    requires Consistent(opt, s)
    ensures var (t, ok) := MqttSession.Connect(opt, s);
            && |s.net.sockets| <= |t.net.sockets| && (ok ==> t.fd >= |s.net.sockets|)
            && forall c :: 0 <= c < |s.net.sockets| ==> !t.net.sockets[c].open
  {
    var t := MqttSession.Connect(opt, s).0;
    ConnectKeeps(opt, s);
    ConnectsOnNewSocket(opt, s);
    forall c | 0 <= c < |s.net.sockets|
      ensures !t.net.sockets[c].open
    {
      assert SocketFits(opt, t, c);
    }
  }

  lemma ConnectsOnNewSocket(opt: Options, s: Session)
    requires Usable(s)
    ensures var (t, ok) := MqttSession.Connect(opt, s);
            |s.net.sockets| <= |t.net.sockets| && (ok ==> t.fd >= |s.net.sockets|)
  {
    var hung := HangUp(s, Asked);
    if hung.net.lookups != [] && hung.net.lookups[0].Resolved? {
      DialledShape(hung.net.lookups[0].addresses);
    }
  }

  /** Publishing over a live session succeeds exactly when the whole frame goes out. */
  lemma PublishSucceedsWhen(opt: Options, s: Session, m: Message)
    requires Usable(s) && s.fd >= 0
    ensures MqttSession.Publish(opt, s, m).1 <==> Offer(s.net.sends) >= |PublishFrame(m)|
  {
    SendTakesOffer(s.net.sends, |PublishFrame(m)|);
  }

  lemma GreetLeaves(opt: Options, s: Session)
    requires Usable(s) && s.fd >= 0 && Greet(opt, s).1
    ensures Greet(opt, s).0.net.sends == SendPlan(s.net.sends, |ConnectFrame(opt)|).left
  {
  }

  /** Without a session, exactly when a new one comes up first and the frame goes out on it. */
  lemma PublishReconnects(opt: Options, s: Session, m: Message)
    requires Usable(s) && s.fd < 0
    ensures MqttSession.Publish(opt, s, m).1 <==>
              && MqttSession.Connect(opt, s).1
              && Offer(SendPlan(s.net.sends, |ConnectFrame(opt)|).left) >= |PublishFrame(m)|
  {
    if MqttSession.Connect(opt, s).1 {
      assert HangUp(s, Asked) == s && Dial(s).net.sends == s.net.sends;
      GreetLeaves(opt, Dial(s));
      PublishSucceedsWhen(opt, MqttSession.Connect(opt, s).0, m);
    }
  }

  // ---- the call record ----

  function Requested(ops: seq<Op>): seq<Message> {
    if ops == [] then []
    else (if ops[0].DoPublish? then [ops[0].msg] else []) + Requested(ops[1..])
  }

  function Logged(log: seq<Call>): seq<Message> {
    seq(|log|, i requires 0 <= i < |log| => log[i].msg)
  }

  lemma LoggedNext(log: seq<Call>, call: Call)
    ensures Logged(log + [call]) == Logged(log) + [call.msg]
  {
  }

  lemma ConnectLogsNothing(opt: Options, s: Session)
    requires Usable(s)
    ensures MqttSession.Connect(opt, s).0.log == s.log
  {
  }

  lemma TransmitLogs(s: Session, m: Message)
    requires Usable(s) && s.fd >= 0
    ensures Logged(Transmit(s, m).0.log) == Logged(s.log) + [m]
  {
    LoggedNext(s.log, Call(m, SendsAll(s.net, PublishFrame(m)), s.fd));
  }

  lemma PublishLogs(opt: Options, s: Session, m: Message)
    requires Usable(s)
    ensures Logged(MqttSession.Publish(opt, s, m).0.log) == Logged(s.log) + [m]
  {
    ConnectLogsNothing(opt, s);
    if s.fd >= 0 {
      TransmitLogs(s, m);
    } else if MqttSession.Connect(opt, s).1 {
      TransmitLogs(MqttSession.Connect(opt, s).0, m);
    } else {
      LoggedNext(s.log, Call(m, false, -1));
    }
  }

  lemma StepLogs(opt: Options, s: Session, op: Op)
    requires Usable(s)
    ensures Logged(Step(opt, s, op).log) == Logged(s.log) + if op.DoPublish? then [op.msg] else []
  {
    match op
    case DoConnect => ConnectLogsNothing(opt, s);
    case DoPublish(m) => PublishLogs(opt, s, m);
    case DoDisconnect =>
  }

  /** Every publish call is recorded once, in call order. */
  lemma {:induction false} RunLogsEveryCall(opt: Options, s: Session, ops: seq<Op>)
    requires Usable(s)
    ensures Logged(Run(opt, s, ops).log) == Logged(s.log) + Requested(ops)
    decreases |ops|
  {
    if ops != [] {
      var t := Step(opt, s, ops[0]);
      StepLogs(opt, s, ops[0]);
      RunLogsEveryCall(opt, t, ops[1..]);
      var first: seq<Message> := if ops[0].DoPublish? then [ops[0].msg] else [];
      assert Logged(s.log) + first + Requested(ops[1..]) == Logged(s.log) + (first + Requested(ops[1..]));
    }
  }

  lemma {:induction false} DeliveredWereLogged(log: seq<Call>, c: int, m: Message)
    requires m in Delivered(log, c)
    ensures m in Logged(log)
  {
    var last := log[|log| - 1];
    if m in Delivered(log[..|log| - 1], c) {
      DeliveredWereLogged(log[..|log| - 1], c, m);
      var i :| 0 <= i < |log| - 1 && Logged(log[..|log| - 1])[i] == m;
      assert Logged(log)[i] == m;
    } else {
      assert Logged(log)[|log| - 1] == m;
    }
  }

  // ---- whole-run framing ----

  /** DISCONNECT bytes after complete packets are a packet, or an incomplete one. */
  function Farewell(disc: nat): Stream
    requires disc <= 2
  {
    if disc == 2 then Stream([Disconnect], [], false) else Stream([], DISCONNECT[..disc], false)
  }

  /** What a receiver must read from the bytes of socket c, given how the socket ended. */
  predicate ReadsAs(opt: Options, log: seq<Call>, c: int, e: Ending, d: Stream)
    requires EndingInLog(opt, log, e)
  {
    var session := [ConnectPacket(opt)] + PublishPackets(Delivered(log, c));
    match e
    case Live => d == Stream(session, [], false)
    case NeverUp => d == Stream([], [], false)
    case Over(Asked, disc) => d == Prepend(session, Farewell(disc))
    case Over(NotAccepted, disc) => d == Prepend([ConnectPacket(opt)], Farewell(disc))
    case Over(ConnectCut(taken), disc) => d.packets == ConnectLeftover(opt, taken, disc)
    case Over(PublishCut(k, taken), disc) => d.packets == session + PublishLeftover(log[k].msg, taken, disc)
  }

  lemma NothingToRead()
    ensures ReadStream([]) == Stream([], [], false)
  {
  }

  lemma PrependNothing(ps: seq<Packet>)
    ensures Prepend(ps, Stream([], [], false)) == Stream(ps, [], false)
  {
  }

  lemma GreetedReads(opt: Options, log: seq<Call>, c: int, tail: seq<byte>)
    requires OptionsFit(opt) && AllFit(Delivered(log, c))
    ensures ReadStream(Greeted(opt, log, c) + tail)
            == Prepend([ConnectPacket(opt)] + PublishPackets(Delivered(log, c)), ReadStream(tail))
  {
    SessionRead(opt, Delivered(log, c), tail);
  }

  lemma PublishCutReads(opt: Options, log: seq<Call>, c: int, k: nat, taken: nat, disc: nat)
    requires OptionsFit(opt) && AllFit(Delivered(log, c))
    requires k < |log| && MessageFits(log[k].msg)
    requires EndingInLog(opt, log, Over(PublishCut(k, taken), disc))
    ensures ReadsAs(opt, log, c, Over(PublishCut(k, taken), disc), ReadStream(Wire(opt, log, c, Over(PublishCut(k, taken), disc))))
  {
    var m := log[k].msg;
    var tail := PublishFrame(m)[..taken] + DISCONNECT[..disc];
    AppendTail(Greeted(opt, log, c), PublishFrame(m)[..taken], DISCONNECT[..disc]);
    GreetedReads(opt, log, c, tail);
    CutPublishRead(m, taken, disc);
  }

  lemma ConnectCutReads(opt: Options, log: seq<Call>, c: int, taken: nat, disc: nat)
    requires OptionsFit(opt)
    requires EndingInLog(opt, log, Over(ConnectCut(taken), disc))
    ensures ReadsAs(opt, log, c, Over(ConnectCut(taken), disc), ReadStream(Wire(opt, log, c, Over(ConnectCut(taken), disc))))
  {
    CutConnectRead(opt, taken, disc);
  }

  lemma WireReads(opt: Options, log: seq<Call>, c: int, e: Ending)
    requires OptionsFit(opt) && AllFit(Delivered(log, c)) && EndingInLog(opt, log, e)
    requires e.Over? && e.cause.PublishCut? ==> MessageFits(log[e.cause.call].msg)
    ensures ReadsAs(opt, log, c, e, ReadStream(Wire(opt, log, c, e)))
  {
    NothingToRead();
    match e
    case Live =>
      GreetedReads(opt, log, c, []);
      PrependNothing([ConnectPacket(opt)] + PublishPackets(Delivered(log, c)));
    case NeverUp =>
      assert Wire(opt, log, c, e) == [];
    case Over(Asked, disc) =>
      GreetedReads(opt, log, c, DISCONNECT[..disc]);
      DisconnectRead(disc);
    case Over(NotAccepted, disc) =>
      ConnectRead(opt, DISCONNECT[..disc]);
      DisconnectRead(disc);
    case Over(ConnectCut(taken), disc) =>
      ConnectCutReads(opt, log, c, taken, disc);
    case Over(PublishCut(k, taken), disc) =>
      PublishCutReads(opt, log, c, k, taken, disc);
  }

  /** What a consistent session's sockets read as. */
  lemma SessionFraming(opt: Options, t: Session, c: int)
    requires Consistent(opt, t) && OptionsFit(opt) && AllFit(Logged(t.log)) && 0 <= c < |t.endings|
    ensures EndingInLog(opt, t.log, t.endings[c])
    ensures ReadsAs(opt, t.log, c, t.endings[c], ReadStream(t.net.sockets[c].accepted))
  {
    assert SocketFits(opt, t, c);
    forall m | m in Delivered(t.log, c)
      ensures MessageFits(m)
    {
      DeliveredWereLogged(t.log, c, m);
    }
    var e := t.endings[c];
    if e.Over? && e.cause.PublishCut? {
      assert Logged(t.log)[e.cause.call] == t.log[e.cause.call].msg;
    }
    WireReads(opt, t.log, c, e);
  }

  /**
    Over every run: what a receiver reads from any one socket is the CONNECT and then exactly the publishes
    that returned true on it, in call order. Anything else follows a send loop that stopped short, and is what
    the cut frame and the DISCONNECT bytes after it make together.
   */
  lemma RunFraming(opt: Options, s: Session, ops: seq<Op>, c: int)
    requires Initial(s) && OptionsFit(opt) && AllFit(Requested(ops))
    requires 0 <= c < |Run(opt, s, ops).net.sockets|
    ensures var t := Run(opt, s, ops);
            && Consistent(opt, t) && EndingInLog(opt, t.log, t.endings[c])
            && ReadsAs(opt, t.log, c, t.endings[c], ReadStream(t.net.sockets[c].accepted))
  {
    RunKeeps(opt, s, ops);
    RunLogsEveryCall(opt, s, ops);
    assert Logged(s.log) + Requested(ops) == Requested(ops);
    SessionFraming(opt, Run(opt, s, ops), c);
  }

  // ---- sockets ----

  /** Between calls at most one socket is open, the current one, and its CONNACK was an accepting one. */
  lemma OneSocketOpen(opt: Options, s: Session, ops: seq<Op>, c: int)
    requires Initial(s)
    requires 0 <= c < |Run(opt, s, ops).net.sockets|
    ensures var t := Run(opt, s, ops); var socket := t.net.sockets[c];
            && (socket.open <==> c == t.fd)
            && (socket.open ==> IsAcceptance(socket.received) && socket.closes == 0)
            && (!socket.open ==> socket.closes == 1)
  {
    RunKeeps(opt, s, ops);
    assert SocketFits(opt, Run(opt, s, ops), c);
  }

  /** Destroying the publisher after any run leaves every socket it ever opened closed exactly once. */
  lemma EverySocketClosedOnce(opt: Options, s: Session, ops: seq<Op>)
    requires Initial(s)
    ensures var t := HangUp(Run(opt, s, ops), Asked);
            forall c :: 0 <= c < |t.net.sockets| ==> !t.net.sockets[c].open && t.net.sockets[c].closes == 1
  {
    RunKeeps(opt, s, ops);
    AskedKeeps(opt, Run(opt, s, ops));
    var t := HangUp(Run(opt, s, ops), Asked);
    forall c | 0 <= c < |t.net.sockets|
      ensures !t.net.sockets[c].open && t.net.sockets[c].closes == 1
    {
      assert SocketFits(opt, t, c);
    }
  }
}
