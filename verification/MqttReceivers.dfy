/**
  What the receivers of all sockets of a run read together, call by call: a call that returned true is read
  once, and a call that returned false at most once, and then only because DISCONNECT bytes completed its frame.
 */
module MqttReceivers {
  import opened Bytes
  import opened MqttWire
  import opened MqttDecoder
  import opened MqttFrameProofs
  import opened MqttStreamProofs
  import opened MqttCutFrames
  import opened MqttCutProofs
  import opened Network
  import opened MqttSession
  import opened MqttSessionProofs
  import opened MqttRunProofs

  // ---- publishes among packets ----

  function PublishesOf(ps: seq<Packet>): seq<Packet> {
    if ps == [] then []
    else
      var n := |ps| - 1;
      PublishesOf(ps[..n]) + if ps[n].Publish? then [ps[n]] else []
  }

  lemma {:induction false} PublishesOfSum(a: seq<Packet>, b: seq<Packet>)
    ensures PublishesOf(a + b) == PublishesOf(a) + PublishesOf(b)
    decreases |b|
  {
    if b == [] {
      assert a + b == a;
    } else {
      var n := |b| - 1;
      PublishesOfSum(a, b[..n]);
      assert (a + b)[..|a + b| - 1] == a + b[..n];
    }
  }

  lemma PublishesOfOne(p: Packet)
    ensures PublishesOf([p]) == if p.Publish? then [p] else []
  {
    assert [p][..0] == [];
  }

  lemma {:induction false} PublishPacketsAppend(ms: seq<Message>, m: Message)
    ensures PublishPackets(ms + [m]) == PublishPackets(ms) + [PublishPacket(m)]
  {
    if ms == [] {
      assert [m][1..] == [];
    } else {
      PublishPacketsAppend(ms[1..], m);
      assert (ms + [m])[1..] == ms[1..] + [m];
    }
  }

  lemma {:induction false} PublishesOfPublishes(ms: seq<Message>)
    ensures PublishesOf(PublishPackets(ms)) == PublishPackets(ms)
  {
    if ms != [] {
      PublishesOfPublishes(ms[1..]);
      PublishesOfSum([PublishPacket(ms[0])], PublishPackets(ms[1..]));
      PublishesOfOne(PublishPacket(ms[0]));
    }
  }

  /** A CONNECT, some publishes and what comes after them. */
  lemma PublishesOfSession(opt: Options, ms: seq<Message>, after: seq<Packet>)
    ensures PublishesOf([ConnectPacket(opt)] + PublishPackets(ms) + after) == PublishPackets(ms) + PublishesOf(after)
  {
    PublishesOfOne(ConnectPacket(opt));
    PublishesOfSum([ConnectPacket(opt)], PublishPackets(ms));
    PublishesOfPublishes(ms);
    PublishesOfSum([ConnectPacket(opt)] + PublishPackets(ms), after);
  }

  // ---- sums over calls and over sockets ----

  function Flat(xs: seq<seq<Packet>>): seq<Packet> {
    if xs == [] then [] else Flat(xs[..|xs| - 1]) + xs[|xs| - 1]
  }

  /** The parts that belong to socket c, one after another. */
  function Group(xs: seq<seq<Packet>>, conns: seq<int>, c: int): seq<Packet>
    requires |xs| == |conns|
  {
    if xs == [] then []
    else
      var n := |xs| - 1;
      Group(xs[..n], conns[..n], c) + if conns[n] == c then xs[n] else []
  }

  /** The parts of sockets 0 to n - 1. */
  function Gather(xs: seq<seq<Packet>>, conns: seq<int>, n: nat): multiset<Packet>
    requires |xs| == |conns|
  {
    if n == 0 then multiset{} else Gather(xs, conns, n - 1) + multiset(Group(xs, conns, n - 1))
  }

  lemma {:induction false} GatherNext(xs: seq<seq<Packet>>, conns: seq<int>, n: nat)
    requires |xs| == |conns| > 0
    ensures var m := |xs| - 1;
            Gather(xs, conns, n) == Gather(xs[..m], conns[..m], n) + if 0 <= conns[m] < n then multiset(xs[m]) else multiset{}
  {
    if n > 0 {
      GatherNext(xs, conns, n - 1);
    }
  }

  lemma {:induction false} GatherNothing(n: nat)
    ensures Gather([], [], n) == multiset{}
  {
    if n > 0 {
      GatherNothing(n - 1);
    }
  }

  /** Adding up by socket or by call gives the same. */
  lemma {:induction false} GatherAll(xs: seq<seq<Packet>>, conns: seq<int>, n: nat)
    requires |xs| == |conns| && forall k :: 0 <= k < |xs| ==> conns[k] < n && (conns[k] < 0 ==> xs[k] == [])
    ensures Gather(xs, conns, n) == multiset(Flat(xs))
    decreases |xs|
  {
    if xs == [] {
      GatherNothing(n);
    } else {
      GatherAll(xs[..|xs| - 1], conns[..|xs| - 1], n);
      GatherNext(xs, conns, n);
    }
  }

  lemma {:induction false} GatherParts(parts: seq<seq<Packet>>, xs: seq<seq<Packet>>, conns: seq<int>)
    requires |xs| == |conns| && forall c :: 0 <= c < |parts| ==> parts[c] == Group(xs, conns, c)
    ensures multiset(Flat(parts)) == Gather(xs, conns, |parts|)
    decreases |parts|
  {
    if parts != [] {
      GatherParts(parts[..|parts| - 1], xs, conns);
    }
  }

  lemma {:induction false} GroupUnused(xs: seq<seq<Packet>>, conns: seq<int>, c: int, m: nat)
    requires m <= |xs| == |conns| && forall j :: m <= j < |xs| ==> conns[j] != c
    ensures Group(xs, conns, c) == Group(xs[..m], conns[..m], c)
    decreases |xs|
  {
    if m < |xs| {
      var n := |xs| - 1;
      GroupUnused(xs[..n], conns[..n], c, m);
      assert xs[..n][..m] == xs[..m] && conns[..n][..m] == conns[..m];
    } else {
      assert xs[..m] == xs && conns[..m] == conns;
    }
  }

  // ---- what is read of one call ----

  /** The call's frame was cut, and this is where and with how many DISCONNECT bytes after it. */
  predicate WasCut(t: Session, k: nat)
    requires k < |t.log|
  {
    var call := t.log[k];
    && !call.ok && 0 <= call.conn < |t.endings|
    && var e := t.endings[call.conn];
       e.Over? && e.cause.PublishCut? && e.disc <= 2 && e.cause.taken < |PublishFrame(call.msg)|
  }

  /** The publishes that some receiver reads because of call k. */
  function ReadOf(t: Session, k: nat): seq<Packet>
    requires k < |t.log|
  {
    var call := t.log[k];
    if call.ok then [PublishPacket(call.msg)]
    else if WasCut(t, k) then
      var e := t.endings[call.conn];
      PublishesOf(PublishLeftover(call.msg, e.cause.taken, e.disc))
    else []
  }

  function Reads(t: Session): (r: seq<seq<Packet>>)
    ensures |r| == |t.log|
  {
    seq(|t.log|, k requires 0 <= k < |t.log| => ReadOf(t, k))
  }

  function Conns(log: seq<Call>): (r: seq<int>)
    ensures |r| == |log|
  {
    seq(|log|, k requires 0 <= k < |log| => log[k].conn)
  }

  /** All publishes read from the bytes of socket c. */
  function SocketPublishes(t: Session, c: nat): seq<Packet>
    requires c < |t.net.sockets|
  {
    PublishesOf(ReadStream(t.net.sockets[c].accepted).packets)
  }

  /** The same for every socket. */
  function Received(t: Session): (r: seq<seq<Packet>>)
    ensures |r| == |t.net.sockets|
  {
    seq(|t.net.sockets|, c requires 0 <= c < |t.net.sockets| => SocketPublishes(t, c))
  }

  // ---- socket by socket ----

  lemma {:induction false} GroupOfTrue(t: Session, c: int, m: nat)
    requires m <= |t.log| && forall j :: 0 <= j < m && t.log[j].conn == c ==> t.log[j].ok
    ensures Group(Reads(t)[..m], Conns(t.log)[..m], c) == PublishPackets(Delivered(t.log[..m], c))
    decreases m
  {
    if m > 0 {
      var n := m - 1;
      GroupOfTrue(t, c, n);
      assert Reads(t)[..m][..n] == Reads(t)[..n] && Conns(t.log)[..m][..n] == Conns(t.log)[..n];
      assert t.log[..m] == t.log[..n] + [t.log[n]];
      DeliveredNext(t.log[..n], t.log[n], c);
      if t.log[n].conn == c {
        PublishPacketsAppend(Delivered(t.log[..n], c), t.log[n].msg);
      } else {
        assert Delivered(t.log[..m], c) == Delivered(t.log[..n], c);
      }
    }
  }

  lemma {:induction false} DeliveredUnused(log: seq<Call>, c: int, m: nat)
    requires m <= |log| && Unused(log, m, c)
    ensures Delivered(log, c) == Delivered(log[..m], c)
    decreases |log|
  {
    if m < |log| {
      DeliveredUnused(log[..|log| - 1], c, m);
      assert log[..|log| - 1][..m] == log[..m];
    } else {
      assert log[..m] == log;
    }
  }

  /** A socket that was not cut in a PUBLISH carried only calls that returned true. */
  lemma WholeSocketGroup(opt: Options, t: Session, c: nat)
    requires Consistent(opt, t) && c < |t.endings|
    requires t.endings[c].Over? ==> !t.endings[c].cause.PublishCut?
    ensures Group(Reads(t), Conns(t.log), c) == PublishPackets(Delivered(t.log, c))
  {
    forall j | 0 <= j < |t.log| && t.log[j].conn == c
      ensures t.log[j].ok
    {
      assert CallFits(t, j);
    }
    GroupOfTrue(t, c, |t.log|);
    assert Reads(t)[..|t.log|] == Reads(t) && Conns(t.log)[..|t.log|] == Conns(t.log) && t.log[..|t.log|] == t.log;
  }

  lemma GroupUpTo(xs: seq<seq<Packet>>, conns: seq<int>, c: int, k: nat)
    requires k < |xs| == |conns| && conns[k] == c && forall j :: k < j < |xs| ==> conns[j] != c
    ensures Group(xs, conns, c) == Group(xs[..k], conns[..k], c) + xs[k]
  {
    GroupUnused(xs, conns, c, k + 1);
    assert xs[..k + 1][..k] == xs[..k] && conns[..k + 1][..k] == conns[..k];
  }

  lemma DeliveredUpTo(log: seq<Call>, c: int, k: nat)
    requires k < |log| && !log[k].ok && Unused(log, k + 1, c)
    ensures Delivered(log, c) == Delivered(log[..k], c)
  {
    DeliveredUnused(log, c, k + 1);
    assert log[..k + 1] == log[..k] + [log[k]];
    DeliveredNext(log[..k], log[k], c);
  }

  /** The cut call is the last on its socket, and the only one there that returned false. */
  lemma CutIsLast(opt: Options, t: Session, c: nat)
    requires Consistent(opt, t) && c < |t.endings| && t.endings[c].Over? && t.endings[c].cause.PublishCut?
    ensures var k := t.endings[c].cause.call;
            && k < |t.log| && t.log[k].conn == c && WasCut(t, k) && Unused(t.log, k + 1, c)
            && forall j :: 0 <= j < k && t.log[j].conn == c ==> t.log[j].ok
  {
    var k := t.endings[c].cause.call;
    assert SocketFits(opt, t, c);
    forall j | 0 <= j < k && t.log[j].conn == c
      ensures t.log[j].ok
    {
      assert CallFits(t, j);
    }
  }

  lemma CutSocketGroup(opt: Options, t: Session, c: nat)
    requires Consistent(opt, t) && c < |t.endings| && t.endings[c].Over? && t.endings[c].cause.PublishCut?
    ensures t.endings[c].cause.call < |t.log|
    ensures Group(Reads(t), Conns(t.log), c) == PublishPackets(Delivered(t.log, c)) + ReadOf(t, t.endings[c].cause.call)
  {
    var k := t.endings[c].cause.call;
    CutIsLast(opt, t, c);
    GroupOfTrue(t, c, k);
    GroupUpTo(Reads(t), Conns(t.log), c, k);
    DeliveredUpTo(t.log, c, k);
  }

  lemma FarewellPublishes(disc: nat)
    requires disc <= 2
    ensures PublishesOf(Farewell(disc).packets) == []
  {
    PublishesOfOne(Disconnect);
  }

  lemma ConnectLeftoverPublishes(opt: Options, taken: nat, disc: nat)
    requires disc <= 2 && taken < |ConnectFrame(opt)|
    ensures PublishesOf(ConnectLeftover(opt, taken, disc)) == []
  {
    var lack := |ConnectFrame(opt)| - taken;
    PublishesOfOne(Disconnect);
    if 0 < lack <= 2 && lack <= |LastField(opt)| {
      PublishesOfOne(ConnectPacket(WithLastField(opt, PatchTail(LastField(opt), lack))));
    }
  }

  /** What is read from a socket that was not cut in a PUBLISH. */
  lemma WholeSocketReads(opt: Options, t: Session, c: nat, d: Stream)
    requires Consistent(opt, t) && c < |t.endings| && EndingInLog(opt, t.log, t.endings[c])
    requires t.endings[c].Over? ==> !t.endings[c].cause.PublishCut?
    requires ReadsAs(opt, t.log, c, t.endings[c], d)
    ensures PublishesOf(d.packets) == PublishPackets(Delivered(t.log, c))
  {
    assert SocketFits(opt, t, c);
    var ms := Delivered(t.log, c);
    var session := [ConnectPacket(opt)] + PublishPackets(ms);
    match t.endings[c] {
      case Live =>
        PublishesOfSession(opt, ms, []);
        assert session + [] == session;
      case NeverUp =>
        DeliveredNone(t.log, c);
      case Over(Asked, disc) =>
        PublishesOfSession(opt, ms, Farewell(disc).packets);
        FarewellPublishes(disc);
      case Over(NotAccepted, disc) =>
        DeliveredNone(t.log, c);
        assert [ConnectPacket(opt)] + [] == [ConnectPacket(opt)];
        PublishesOfSession(opt, [], Farewell(disc).packets);
        FarewellPublishes(disc);
      case Over(ConnectCut(taken), disc) =>
        DeliveredNone(t.log, c);
        ConnectLeftoverPublishes(opt, taken, disc);
    }
  }

  lemma SocketReads(opt: Options, t: Session, c: nat)
    requires Consistent(opt, t) && c < |t.endings| && EndingInLog(opt, t.log, t.endings[c])
    requires ReadsAs(opt, t.log, c, t.endings[c], ReadStream(t.net.sockets[c].accepted))
    ensures SocketPublishes(t, c) == Group(Reads(t), Conns(t.log), c)
  {
    var e, d := t.endings[c], ReadStream(t.net.sockets[c].accepted);
    if e.Over? && e.cause.PublishCut? {
      CutSocketGroup(opt, t, c);
      CutIsLast(opt, t, c);
      PublishesOfSession(opt, Delivered(t.log, c), PublishLeftover(t.log[e.cause.call].msg, e.cause.taken, e.disc));
    } else {
      WholeSocketGroup(opt, t, c);
      WholeSocketReads(opt, t, c, d);
    }
  }

  // ---- call by call ----

  /** The DISCONNECT bytes complete the frame of a cut call: they are as many as it lacks, and its size bytes are there. */
  predicate CompletedByDisconnect(t: Session, k: nat)
    requires k < |t.log|
  {
    && WasCut(t, k)
    && var e, m := t.endings[t.log[k].conn], t.log[k].msg;
       var lack := |PublishFrame(m)| - e.cause.taken;
       e.cause.taken > 0 && lack <= e.disc && lack <= |m.topic| + |m.payload|
  }

  /** They are the very bytes it lacks. */
  predicate RestoredByDisconnect(t: Session, k: nat)
    requires k < |t.log|
  {
    && WasCut(t, k)
    && var e, frame := t.endings[t.log[k].conn], PublishFrame(t.log[k].msg);
       var lack := |frame| - e.cause.taken;
       e.cause.taken > 0 && lack <= e.disc && EndsAsDisconnect(frame, lack)
  }

  /** What is read of one call: its message, or if it returned false nothing but what DISCONNECT bytes complete. */
  predicate CallRead(t: Session, k: nat)
    requires k < |t.log|
  {
    var read, own := Reads(t)[k], [PublishPacket(t.log[k].msg)];
    if t.log[k].ok then read == own
    else
      && |read| <= 1
      && (read != [] <==> CompletedByDisconnect(t, k))
      && (read == own <==> RestoredByDisconnect(t, k))
  }

  lemma CompletedPublishes(m: Message, lack: int)
    ensures PublishesOf(CompletedPublish(m, lack)) == CompletedPublish(m, lack)
  {
    if 0 < lack <= 2 && lack <= |m.topic| + |m.payload| {
      PublishesOfOne(PublishPacket(PatchedMessage(m, lack)));
    }
  }

  lemma LeftoverRead(m: Message, taken: nat, disc: nat)
    requires disc <= 2 && taken < |PublishFrame(m)|
    ensures var read, lack := PublishesOf(PublishLeftover(m, taken, disc)), |PublishFrame(m)| - taken;
            && |read| <= 1
            && (read != [] <==> taken > 0 && lack <= disc && lack <= |m.topic| + |m.payload|)
            && (read == [PublishPacket(m)] <==> taken > 0 && lack <= disc && EndsAsDisconnect(PublishFrame(m), lack))
  {
    var lack := |PublishFrame(m)| - taken;
    PublishesOfOne(Disconnect);
    CompletedPublishes(m, lack);
    if lack <= disc {
      CompletedPublishIsItself(m, lack);
    }
  }

  lemma CallIsRead(t: Session, k: nat)
    requires k < |t.log|
    ensures CallRead(t, k)
  {
    if WasCut(t, k) {
      var e := t.endings[t.log[k].conn];
      LeftoverRead(t.log[k].msg, e.cause.taken, e.disc);
    }
  }

  // ---- the whole run ----

  lemma RunAccounted(opt: Options, s: Session, ops: seq<Op>, c: nat)
    requires Initial(s) && OptionsFit(opt) && AllFit(Requested(ops))
    requires c < |Run(opt, s, ops).net.sockets|
    ensures var t := Run(opt, s, ops); Received(t)[c] == Group(Reads(t), Conns(t.log), c)
  {
    RunFraming(opt, s, ops, c);
    SocketReads(opt, Run(opt, s, ops), c);
  }

  lemma CallsHaveSockets(opt: Options, t: Session)
    requires Consistent(opt, t)
    ensures forall k :: 0 <= k < |t.log| ==> Conns(t.log)[k] < |t.net.sockets| && (Conns(t.log)[k] < 0 ==> Reads(t)[k] == [])
  {
    forall k | 0 <= k < |t.log|
      ensures Conns(t.log)[k] < |t.net.sockets| && (Conns(t.log)[k] < 0 ==> Reads(t)[k] == [])
    {
      assert CallFits(t, k);
    }
  }

  /**
    Over every run, the publishes that the receivers of all sockets read are exactly those of the calls, each
    taken once: of a call that returned true its own message; of a call that returned false at most one, when
    DISCONNECT bytes complete its frame, and its own message exactly when they are the very bytes it lacked.
   */
  lemma EveryCallRead(opt: Options, s: Session, ops: seq<Op>)
    requires Initial(s) && OptionsFit(opt) && AllFit(Requested(ops))
    ensures var t := Run(opt, s, ops);
            && multiset(Flat(Received(t))) == multiset(Flat(Reads(t)))
            && forall k: nat :: k < |t.log| ==> CallRead(t, k)
  {
    var t := Run(opt, s, ops);
    RunKeeps(opt, s, ops);
    forall c: nat | c < |t.net.sockets|
      ensures Received(t)[c] == Group(Reads(t), Conns(t.log), c)
    {
      RunAccounted(opt, s, ops, c);
    }
    GatherParts(Received(t), Reads(t), Conns(t.log));
    CallsHaveSockets(opt, t);
    GatherAll(Reads(t), Conns(t.log), |t.net.sockets|);
    forall k: nat | k < |t.log|
      ensures CallRead(t, k)
    {
      CallIsRead(t, k);
    }
  }

  // ---- a call that returned false and was read all the same ----

  /** A single publish call that returns false, and whose message the receiver of its socket reads. */
  predicate FalseButRead(opt: Options, s: Session, m: Message)
    requires Initial(s)
  {
    var (t, ok) := MqttSession.Publish(opt, s, m);
    !ok && |t.net.sockets| > 0 && ReadStream(t.net.sockets[|t.net.sockets| - 1].accepted).packets == [ConnectPacket(opt), PublishPacket(m)]
  }

  /** A broker that accepts, and a link that takes all of the PUBLISH but `lack` bytes, fails, and takes the DISCONNECT. */
  function FailingLink(opt: Options, m: Message, lack: nat): (s: Session)
    requires lack < |PublishFrame(m)|
    ensures Initial(s)
  {
    var sends := [Takes(|ConnectFrame(opt)|), Takes(|PublishFrame(m)| - lack), SendFails, Takes(2)];
    Session(-1, Net([Resolved([Reachable])], sends, [Gives([0x20, 0x02, 0x00, 0x00])], []), [], [])
  }

  lemma TakesAll(n: nat, rest: seq<SendAnswer>)
    requires n > 0
    ensures SendPlan([Takes(n)] + rest, n) == Sent(n, rest)
  {
    assert ([Takes(n)] + rest)[1..] == rest;
  }

  lemma TakesPart(n: nat, lack: nat, rest: seq<SendAnswer>)
    requires 0 < lack < n
    ensures SendPlan([Takes(n - lack), SendFails] + rest, n) == Sent(n - lack, rest)
  {
    var sends := [Takes(n - lack), SendFails] + rest;
    assert sends[1..] == [SendFails] + rest && ([SendFails] + rest)[1..] == rest;
    assert SendPlan([SendFails] + rest, lack) == Sent(0, rest);
  }

  lemma AcceptedAtOnce(ack: seq<byte>)
    requires |ack| == 4
    ensures RecvPlan([Gives(ack)], 4) == Heard(ack, [])
  {
    assert ack[..4] == ack && ack + [] == ack;
    assert RecvPlan([], 0) == Heard([], []);
  }

  lemma LinkConnects(opt: Options, m: Message, lack: nat)
    requires lack < |PublishFrame(m)|
    ensures var (t, ok) := MqttSession.Connect(opt, FailingLink(opt, m, lack));
            && ok && t.fd == 0 && t.log == [] && |t.net.sockets| == 1
            && t.net.sends == [Takes(|PublishFrame(m)| - lack), SendFails] + [Takes(2)]
  {
    var s := FailingLink(opt, m, lack);
    var rest := [Takes(|PublishFrame(m)| - lack), SendFails] + [Takes(2)];
    assert s.net.sends == [Takes(|ConnectFrame(opt)|)] + rest;
    TakesAll(|ConnectFrame(opt)|, rest);
    AcceptedAtOnce([0x20, 0x02, 0x00, 0x00]);
    assert HangUp(s, Asked) == s;
    assert Dialled([Reachable]) == [FRESH_SOCKET];
    assert Dial(s).fd == 0;
  }

  lemma LinkCuts(s: Session, m: Message, lack: nat)
    requires Usable(s) && s.fd == 0 && s.log == [] && |s.net.sockets| == 1 && 0 < lack < |PublishFrame(m)|
    requires s.net.sends == [Takes(|PublishFrame(m)| - lack), SendFails] + [Takes(2)]
    ensures var (t, ok) := Transmit(s, m);
            && !ok && |t.net.sockets| == 1 && t.log == [Call(m, false, 0)]
            && |t.endings| == 1 && t.endings[0] == Over(PublishCut(0, |PublishFrame(m)| - lack), 2)
  {
    TakesPart(|PublishFrame(m)|, lack, [Takes(2)]);
    TakesAll(2, []);
    assert [Takes(2)] + [] == [Takes(2)];
  }

  lemma OneStep(opt: Options, s: Session, m: Message)
    requires Usable(s)
    ensures Run(opt, s, [DoPublish(m)]) == MqttSession.Publish(opt, s, m).0 && Requested([DoPublish(m)]) == [m]
  {
    assert [DoPublish(m)][1..] == [];
    assert Run(opt, s, [DoPublish(m)]) == Run(opt, Step(opt, s, DoPublish(m)), []);
  }

  lemma RestoredReads(opt: Options, m: Message, lack: nat, d: Stream)
    requires 0 < lack <= 2 && lack < |PublishFrame(m)| && EndsAsDisconnect(PublishFrame(m), lack)
    requires d.packets == [ConnectPacket(opt)] + PublishPackets([]) + PublishLeftover(m, |PublishFrame(m)| - lack, 2)
    ensures d.packets == [ConnectPacket(opt), PublishPacket(m)]
  {
    CompletedPublishIsItself(m, lack);
  }

  /** What is read from a socket that was cut in the only call. */
  lemma OnlyCallReads(opt: Options, log: seq<Call>, m: Message, taken: nat, d: Stream)
    requires log == [Call(m, false, 0)] && taken < |PublishFrame(m)|
    requires ReadsAs(opt, log, 0, Over(PublishCut(0, taken), 2), d)
    ensures d.packets == [ConnectPacket(opt)] + PublishPackets([]) + PublishLeftover(m, taken, 2)
  {
    assert Delivered(log[..0], 0) == [];
    assert Delivered(log, 0) == [];
  }

  lemma CutCallRead(opt: Options, log: seq<Call>, e: Ending, m: Message, lack: nat, d: Stream)
    requires 0 < lack <= 2 && lack < |PublishFrame(m)| && EndsAsDisconnect(PublishFrame(m), lack)
    requires log == [Call(m, false, 0)] && e == Over(PublishCut(0, |PublishFrame(m)| - lack), 2)
    requires EndingInLog(opt, log, e) && ReadsAs(opt, log, 0, e, d)
    ensures d.packets == [ConnectPacket(opt), PublishPacket(m)]
  {
    OnlyCallReads(opt, log, m, |PublishFrame(m)| - lack, d);
    RestoredReads(opt, m, lack, d);
  }

  /** Such a link delivers any message whose frame ends in the bytes of a DISCONNECT, although the call returns false. */
  lemma FailingLinkDelivers(opt: Options, m: Message, lack: nat)
    requires OptionsFit(opt) && MessageFits(m) && 0 < lack <= 2 && EndsAsDisconnect(PublishFrame(m), lack)
    ensures lack < |PublishFrame(m)| && FalseButRead(opt, FailingLink(opt, m, lack), m)
  {
    var s := FailingLink(opt, m, lack);
    LinkPublishes(opt, m, lack);
    OneStep(opt, s, m);
    RunFraming(opt, s, [DoPublish(m)], 0);
    var t := Run(opt, s, [DoPublish(m)]);
    CutCallRead(opt, t.log, t.endings[0], m, lack, ReadStream(t.net.sockets[0].accepted));
  }

  lemma LinkPublishes(opt: Options, m: Message, lack: nat)
    requires 0 < lack < |PublishFrame(m)|
    ensures var (t, ok) := MqttSession.Publish(opt, FailingLink(opt, m, lack), m);
            && !ok && |t.net.sockets| == 1 && t.log == [Call(m, false, 0)]
            && |t.endings| == 1 && t.endings[0] == Over(PublishCut(0, |PublishFrame(m)| - lack), 2)
  {
    LinkConnects(opt, m, lack);
    LinkCuts(MqttSession.Connect(opt, FailingLink(opt, m, lack)).0, m, lack);
  }

  lemma PublishesOfPair(opt: Options, m: Message)
    ensures PublishesOf([ConnectPacket(opt), PublishPacket(m)]) == [PublishPacket(m)]
  {
    PublishesOfSession(opt, [m], []);
    assert PublishPackets([m]) == [PublishPacket(m)];
    assert [ConnectPacket(opt)] + PublishPackets([m]) + [] == [ConnectPacket(opt), PublishPacket(m)];
  }

  lemma GroupOfOne(xs: seq<seq<Packet>>, conns: seq<int>, c: int)
    requires |xs| == |conns| == 1
    ensures Group(xs, conns, c) == if conns[0] == c then xs[0] else []
  {
    assert xs[..0] == [] && conns[..0] == [];
  }

  lemma OnlyCallRestored(t: Session, c: nat, m: Message)
    requires |t.log| == 1 && t.log[0].msg == m && !t.log[0].ok
    requires Group(Reads(t), Conns(t.log), c) == [PublishPacket(m)]
    ensures EndsAsDisconnect(PublishFrame(m), 1) || EndsAsDisconnect(PublishFrame(m), 2)
  {
    GroupOfOne(Reads(t), Conns(t.log), c);
    CallIsRead(t, 0);
    assert RestoredByDisconnect(t, 0);
  }

  lemma FalseButReadIsCut(opt: Options, s: Session, m: Message)
    requires Initial(s) && OptionsFit(opt) && MessageFits(m) && FalseButRead(opt, s, m)
    ensures EndsAsDisconnect(PublishFrame(m), 1) || EndsAsDisconnect(PublishFrame(m), 2)
  {
    var t := Run(opt, s, [DoPublish(m)]);
    OneStep(opt, s, m);
    RunAccounted(opt, s, [DoPublish(m)], |t.net.sockets| - 1);
    PublishesOfPair(opt, m);
    FailedCall(opt, s, m);
    OnlyCallRestored(t, |t.net.sockets| - 1, m);
  }

  lemma FailedCall(opt: Options, s: Session, m: Message)
    requires Initial(s)
    ensures var (t, ok) := MqttSession.Publish(opt, s, m); |t.log| == 1 && t.log[0].msg == m && t.log[0].ok == ok
  {
    ConnectLogsNothing(opt, s);
  }

  /** A message can be read although its call returned false exactly when its frame ends in the first bytes of a DISCONNECT. */
  lemma FalseButReadWhen(opt: Options, m: Message)
    requires OptionsFit(opt) && MessageFits(m)
    ensures (exists s :: Initial(s) && FalseButRead(opt, s, m))
            <==> EndsAsDisconnect(PublishFrame(m), 1) || EndsAsDisconnect(PublishFrame(m), 2)
  {
    if EndsAsDisconnect(PublishFrame(m), 1) {
      FailingLinkDelivers(opt, m, 1);
    } else if EndsAsDisconnect(PublishFrame(m), 2) {
      FailingLinkDelivers(opt, m, 2);
    } else {
      forall s | Initial(s)
        ensures !FalseButRead(opt, s, m)
      {
        if FalseButRead(opt, s, m) {
          FalseButReadIsCut(opt, s, m);
        }
      }
    }
  }
}
