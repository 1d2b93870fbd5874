/**
  What every step of the session machine keeps, for all scripts: each socket has accepted exactly the
  bytes that its part of the call record and its ending account for.
 */
module MqttSessionProofs {
  import opened Bytes
  import opened MqttWire
  import opened Network
  import opened MqttSession
  import opened MqttStreamProofs
  import R = MqttDecoder

  /** The messages whose publish calls returned true on socket c, in call order. */
  function Delivered(log: seq<Call>, c: int): seq<Message> {
    if log == [] then []
    else
      var last := log[|log| - 1];
      Delivered(log[..|log| - 1], c) + if last.ok && last.conn == c then [last.msg] else []
  }

  function Greeted(opt: Options, log: seq<Call>, c: int): seq<byte> {
    ConnectFrame(opt) + PublishFrames(Delivered(log, c))
  }

  /** The bytes a socket accepted before any DISCONNECT bytes. */
  function Body(opt: Options, log: seq<Call>, c: int, e: Ending): seq<byte>
    requires EndingInLog(opt, log, e)
  {
    match e
    case Live => Greeted(opt, log, c)
    case NeverUp => []
    case Over(Asked, _) => Greeted(opt, log, c)
    case Over(ConnectCut(taken), _) => ConnectFrame(opt)[..taken]
    case Over(NotAccepted, _) => ConnectFrame(opt)
    case Over(PublishCut(k, taken), _) => Greeted(opt, log, c) + PublishFrame(log[k].msg)[..taken]
  }

  function Wire(opt: Options, log: seq<Call>, c: int, e: Ending): seq<byte>
    requires EndingInLog(opt, log, e)
  {
    Body(opt, log, c, e) + if e.Over? then DISCONNECT[..e.disc] else []
  }

  /** A frame counts as cut only when some of it is missing. */
  predicate EndingInLog(opt: Options, log: seq<Call>, e: Ending) {
    e.Over? ==>
      && e.disc <= 2
      && (e.cause.ConnectCut? ==> e.cause.taken < |ConnectFrame(opt)|)
      && (e.cause.PublishCut? ==> e.cause.call < |log| && e.cause.taken < |PublishFrame(log[e.cause.call].msg)|)
  }

  predicate Unused(log: seq<Call>, from: nat, c: int) {
    forall j :: from <= j < |log| ==> log[j].conn != c
  }

  /** Which CONNACK bytes and which calls go with an ending. */
  predicate EndingFits(log: seq<Call>, c: int, e: Ending, received: seq<byte>) {
    match e
    case Live => R.IsAcceptance(received)
    case NeverUp => received == [] && Unused(log, 0, c)
    case Over(Asked, _) => R.IsAcceptance(received)
    case Over(ConnectCut(_), _) => received == [] && Unused(log, 0, c)
    case Over(NotAccepted, _) => !R.IsAcceptance(received) && Unused(log, 0, c)
    case Over(PublishCut(k, _), _) =>
      R.IsAcceptance(received) && k < |log| && !log[k].ok && log[k].conn == c && Unused(log, k + 1, c)
  }

  predicate SocketFits(opt: Options, s: Session, c: int)
    requires 0 <= c < |s.endings| == |s.net.sockets|
  {
    var socket, e := s.net.sockets[c], s.endings[c];
    && EndingInLog(opt, s.log, e) && EndingFits(s.log, c, e, socket.received)
    && socket.accepted == Wire(opt, s.log, c, e)
    && (e.Live? <==> c == s.fd)
    && socket.open == (c == s.fd) && socket.closes == if c == s.fd then 0 else 1
  }

  /** A call that returned true was sent on some socket; one that returned false cut its socket, or had none. */
  predicate CallFits(s: Session, k: int)
    requires 0 <= k < |s.log|
  {
    var call := s.log[k];
    && -1 <= call.conn < |s.endings|
    && (call.ok ==> call.conn >= 0)
    && (!call.ok && call.conn >= 0 ==>
          var e := s.endings[call.conn]; e.Over? && e.cause.PublishCut? && e.cause.call == k)
  }

  ghost predicate Consistent(opt: Options, s: Session) {
    && Usable(s) && -1 <= s.fd
    && (forall c :: 0 <= c < |s.endings| ==> SocketFits(opt, s, c))
    && (forall k :: 0 <= k < |s.log| ==> CallFits(s, k))
  }

  /** The client's test of the four bytes it waits for is the standard's reading of an acknowledgement. */
  lemma AcceptingIsRead(ack: seq<byte>)
    requires |ack| <= 4
    ensures Accepting(ack) <==> R.IsAcceptance(ack)
  {
    if |ack| >= 2 && ack[0] == 0x20 {
      LengthOfTwo(ack[1..]);
    }
  }

  /** In three bytes a length of 2 is followed by its two bytes only if it is the first. */
  lemma LengthOfTwo(s: seq<byte>)
    requires 1 <= |s| <= 3
    ensures var r := R.ReadLength(s);
            r.Got? && r.value == 2 && |r.rest| >= 2 <==> |s| == 3 && s[0] == 2
    ensures |s| == 3 && s[0] == 2 ==> R.ReadLength(s).rest == s[1..]
  {
    if s[0] >= 128 {
      assert R.ReadDigits(s[1..], 3).Got? ==> |R.ReadDigits(s[1..], 3).rest| <= 1;
    }
  }

  // ---- facts about the record ----

  lemma {:induction false} DeliveredNone(log: seq<Call>, c: int)
    requires Unused(log, 0, c)
    ensures Delivered(log, c) == []
  {
    if log != [] {
      DeliveredNone(log[..|log| - 1], c);
    }
  }

  lemma DeliveredNext(log: seq<Call>, call: Call, c: int)
    ensures Delivered(log + [call], c) == Delivered(log, c) + if call.ok && call.conn == c then [call.msg] else []
  {
    assert (log + [call])[..|log|] == log;
  }

  /** A call made elsewhere, or not sent at all, changes nothing about how socket c ended. */
  lemma EndingElsewhere(opt: Options, log: seq<Call>, call: Call, c: int, e: Ending, received: seq<byte>)
    requires call.conn != c && EndingInLog(opt, log, e) && EndingFits(log, c, e, received)
    ensures EndingInLog(opt, log + [call], e) && EndingFits(log + [call], c, e, received)
  {
    if e.Over? && e.cause.PublishCut? {
      assert (log + [call])[e.cause.call] == log[e.cause.call];
    }
  }

  /** A longer log with the same messages delivered on socket c calls for the same bytes. */
  lemma SameWire(opt: Options, log: seq<Call>, longer: seq<Call>, c: int, e: Ending)
    requires log <= longer && Delivered(longer, c) == Delivered(log, c)
    requires EndingInLog(opt, log, e) && EndingInLog(opt, longer, e)
    ensures Wire(opt, longer, c, e) == Wire(opt, log, c, e)
  {
  }

  lemma DeliveredElsewhere(log: seq<Call>, call: Call, c: int)
    requires call.conn != c
    ensures Delivered(log + [call], c) == Delivered(log, c)
  {
    DeliveredNext(log, call, c);
  }

  // ---- the steps ----

  predicate FailedOn(s: Session, k: nat, cause: Cause) {
    k < |s.log| && !s.log[k].ok && s.log[k].conn == s.fd && cause.PublishCut? && cause.call == k
  }

  lemma HangUpKeeps(opt: Options, s: Session, cause: Cause)
    requires Usable(s) && s.fd >= 0
    requires forall c :: 0 <= c < |s.endings| && c != s.fd ==> SocketFits(opt, s, c)
    requires EndingInLog(opt, s.log, Over(cause, 0))
    requires EndingFits(s.log, s.fd, Over(cause, 0), s.net.sockets[s.fd].received)
    requires s.net.sockets[s.fd].accepted == Body(opt, s.log, s.fd, Over(cause, 0))
    requires s.net.sockets[s.fd].closes == 0
    requires forall k :: 0 <= k < |s.log| ==> CallFits(s, k) || FailedOn(s, k, cause)
    requires forall k :: 0 <= k < |s.log| && s.log[k].conn == s.fd && !s.log[k].ok ==> FailedOn(s, k, cause)
    ensures Consistent(opt, HangUp(s, cause))
  {
    var t := HangUp(s, cause);
    forall c | 0 <= c < |t.endings|
      ensures SocketFits(opt, t, c)
    {
      if c != s.fd {
        assert SocketFits(opt, s, c);
        assert t.net.sockets[c] == s.net.sockets[c] && t.endings[c] == s.endings[c];
      }
    }
    forall k | 0 <= k < |t.log|
      ensures CallFits(t, k)
    {
      assert CallFits(s, k) || FailedOn(s, k, cause);
    }
  }

  lemma AskedKeeps(opt: Options, s: Session)
    requires Consistent(opt, s)
    ensures Consistent(opt, HangUp(s, Asked))
  {
    if s.fd >= 0 {
      assert SocketFits(opt, s, s.fd);
      forall k | 0 <= k < |s.log| && s.log[k].conn == s.fd
        ensures s.log[k].ok
      {
        assert CallFits(s, k);
      }
      HangUpKeeps(opt, s, Asked);
    }
  }

  /** A dialled session: as before, except for a socket that is open but has not spoken yet. */
  ghost predicate Dialling(opt: Options, s: Session) {
    && Usable(s) && -1 <= s.fd
    && (forall c :: 0 <= c < |s.endings| && c != s.fd ==> SocketFits(opt, s, c))
    && (forall k :: 0 <= k < |s.log| ==> CallFits(s, k))
    && (s.fd >= 0 ==> s.net.sockets[s.fd] == FRESH_SOCKET && s.endings[s.fd] == Live && Unused(s.log, 0, s.fd))
  }

  lemma DialKeeps(opt: Options, s: Session)
    requires Consistent(opt, s) && s.fd < 0
    ensures Dialling(opt, Dial(s))
  {
    var t := Dial(s);
    if s.net.lookups != [] && s.net.lookups[0].Resolved? {
      DialledShape(s.net.lookups[0].addresses);
    }
    forall k | 0 <= k < |t.log|
      ensures CallFits(t, k) && s.log[k].conn < |s.endings|
    {
      assert CallFits(s, k);
    }
    forall c | 0 <= c < |t.endings| && c != t.fd
      ensures SocketFits(opt, t, c)
    {
      if c < |s.endings| {
        assert SocketFits(opt, s, c);
        assert t.net.sockets[c] == s.net.sockets[c] && t.endings[c] == s.endings[c];
      } else {
        assert t.net.sockets[c] == DEAD_SOCKET && t.endings[c] == NeverUp;
      }
    }
  }

  lemma GreetKeeps(opt: Options, s: Session)
    requires Dialling(opt, s) && s.fd >= 0
    ensures Consistent(opt, Greet(opt, s).0)
  {
    var frame := ConnectFrame(opt);
    var taken := SendPlan(s.net.sends, |frame|).taken;
    var sent := s.(net := SendAll(s.net, s.fd, frame));
    assert sent.net.sockets[s.fd].accepted == frame[..taken];
    DeliveredNone(s.log, s.fd);
    AcceptingIsRead(RecvPlan(sent.net.recvs, 4).data);
    if taken < |frame| {
      OthersKeep(opt, s, sent);
      HangUpKeeps(opt, sent, ConnectCut(taken));
    } else {
      var heard := RecvPlan(sent.net.recvs, 4);
      var answered := sent.(net := Deliver(sent.net, s.fd, heard.data, heard.left));
      assert answered.net.sockets[s.fd].received == heard.data;
      OthersKeep(opt, s, answered);
      if Accepting(heard.data) {
        assert frame + PublishFrames([]) == frame == frame[..taken];
        assert SocketFits(opt, answered, s.fd);
      } else {
        HangUpKeeps(opt, answered, NotAccepted);
      }
    }
  }

  /** Traffic on the current socket leaves the others and the call record alone. */
  lemma OthersKeep(opt: Options, s: Session, t: Session)
    requires Usable(s) && Usable(t) && s.fd >= 0
    requires t.fd == s.fd && t.log == s.log && t.endings == s.endings
    requires forall c :: 0 <= c < |s.endings| && c != s.fd ==> t.net.sockets[c] == s.net.sockets[c]
    requires forall c :: 0 <= c < |s.endings| && c != s.fd ==> SocketFits(opt, s, c)
    requires forall k :: 0 <= k < |s.log| ==> CallFits(s, k)
    ensures forall c :: 0 <= c < |t.endings| && c != t.fd ==> SocketFits(opt, t, c)
    ensures forall k :: 0 <= k < |t.log| ==> CallFits(t, k)
  {
    forall c | 0 <= c < |t.endings| && c != t.fd
      ensures SocketFits(opt, t, c)
    {
      assert SocketFits(opt, s, c);
    }
    forall k | 0 <= k < |t.log|
      ensures CallFits(t, k)
    {
      assert CallFits(s, k);
    }
  }

  lemma ConnectKeeps(opt: Options, s: Session)
    requires Consistent(opt, s)
    ensures Consistent(opt, Connect(opt, s).0)
  {
    AskedKeeps(opt, s);
    DialKeeps(opt, HangUp(s, Asked));
    var dialled := Dial(HangUp(s, Asked));
    if dialled.fd >= 0 {
      GreetKeeps(opt, dialled);
    }
  }

  /** Recording a call on the current socket, or on none, leaves the other sockets as they were. */
  lemma LogKeeps(opt: Options, s: Session, t: Session, call: Call)
    requires Consistent(opt, s) && Usable(t)
    requires t.fd == s.fd && t.endings == s.endings && t.log == s.log + [call]
    requires call.conn == -1 || call.conn == s.fd
    requires forall c :: 0 <= c < |s.endings| && c != s.fd ==> t.net.sockets[c] == s.net.sockets[c]
    ensures forall c :: 0 <= c < |t.endings| && c != t.fd ==> SocketFits(opt, t, c)
    ensures forall k :: 0 <= k < |s.log| ==> CallFits(t, k) && (t.log[k].conn == t.fd && t.fd >= 0 ==> t.log[k].ok)
  {
    forall c | 0 <= c < |t.endings| && c != t.fd
      ensures SocketFits(opt, t, c)
    {
      assert SocketFits(opt, s, c);
      EndingElsewhere(opt, s.log, call, c, s.endings[c], s.net.sockets[c].received);
      DeliveredElsewhere(s.log, call, c);
      SameWire(opt, s.log, t.log, c, s.endings[c]);
    }
    if s.fd >= 0 {
      assert SocketFits(opt, s, s.fd);
    }
    forall k | 0 <= k < |s.log|
      ensures CallFits(t, k) && (t.log[k].conn == t.fd && t.fd >= 0 ==> t.log[k].ok)
    {
      assert CallFits(s, k) && t.log[k] == s.log[k];
    }
  }

  /** A publish call with a connection, after its frame was offered: recorded, and still connected. */
  function Sent(s: Session, m: Message): (t: Session)
    requires Usable(s) && s.fd >= 0
  {
    var frame := PublishFrame(m);
    s.(net := SendAll(s.net, s.fd, frame), log := s.log + [Call(m, SendsAll(s.net, frame), s.fd)])
  }

  lemma SentAppends(opt: Options, s: Session, m: Message)
    requires Consistent(opt, s) && s.fd >= 0
    ensures Sent(s, m).net.sockets[s.fd].accepted
            == Greeted(opt, s.log, s.fd) + PublishFrame(m)[..SendPlan(s.net.sends, |PublishFrame(m)|).taken]
  {
    assert SocketFits(opt, s, s.fd);
  }

  lemma TransmitKeeps(opt: Options, s: Session, m: Message)
    requires Consistent(opt, s) && s.fd >= 0
    ensures Consistent(opt, Transmit(s, m).0)
  {
    var frame := PublishFrame(m);
    var taken, ok := SendPlan(s.net.sends, |frame|).taken, SendsAll(s.net, frame);
    var call, sent := Call(m, ok, s.fd), Sent(s, m);
    assert SocketFits(opt, s, s.fd);
    LogKeeps(opt, s, sent, call);
    DeliveredNext(s.log, call, s.fd);
    SentAppends(opt, s, m);
    if ok {
      DeliveredBytes(opt, s.log, call);
      assert SocketFits(opt, sent, s.fd);
    } else {
      assert Delivered(sent.log, s.fd) == Delivered(s.log, s.fd);
      HangUpKeeps(opt, sent, PublishCut(|s.log|, taken));
    }
  }

  lemma DeliveredBytes(opt: Options, log: seq<Call>, call: Call)
    requires call.ok
    ensures Greeted(opt, log + [call], call.conn) == Greeted(opt, log, call.conn) + PublishFrame(call.msg)
  {
    DeliveredNext(log, call, call.conn);
    PublishFramesAppend(Delivered(log, call.conn), call.msg);
    AppendTail(ConnectFrame(opt), PublishFrames(Delivered(log, call.conn)), PublishFrame(call.msg));
  }

  lemma PublishKeeps(opt: Options, s: Session, m: Message)
    requires Consistent(opt, s)
    ensures Consistent(opt, Publish(opt, s, m).0)
  {
    if s.fd < 0 {
      ConnectKeeps(opt, s);
    }
    var (up, ok) := if s.fd >= 0 then (s, true) else Connect(opt, s);
    if ok {
      TransmitKeeps(opt, up, m);
    } else {
      LogKeeps(opt, up, Publish(opt, s, m).0, Call(m, false, -1));
    }
  }

  lemma StepKeeps(opt: Options, s: Session, op: Op)
    requires Consistent(opt, s)
    ensures Consistent(opt, Step(opt, s, op))
  {
    match op
    case DoConnect => ConnectKeeps(opt, s);
    case DoPublish(m) => PublishKeeps(opt, s, m);
    case DoDisconnect => AskedKeeps(opt, s);
  }

  /** Every run, whatever the calls and whatever the scripts, ends in a consistent state. */
  lemma {:induction false} RunKeeps(opt: Options, s: Session, ops: seq<Op>)
    requires Consistent(opt, s)
    ensures Consistent(opt, Run(opt, s, ops))
    decreases |ops|
  {
    if ops != [] {
      StepKeeps(opt, s, ops[0]);
      RunKeeps(opt, Step(opt, s, ops[0]), ops[1..]);
    }
  }
}
