/**
  Cut PUBLISH and CONNECT frames: exactly when the DISCONNECT bytes sent after one complete a packet, which
  packet that is, and when it is the very packet that was cut.
 */
module MqttCutProofs {
  import opened Bytes
  import opened MqttWire
  import opened MqttDecoder
  import opened MqttFrameProofs
  import opened MqttStreamProofs
  import opened MqttCutFrames

  lemma PatchAfter(a: seq<byte>, b: seq<byte>, lack: nat)
    requires lack <= 2 && lack <= |b|
    ensures PatchTail(a + b, lack) == a + PatchTail(b, lack)
  {
  }

  /** Once a size byte is replaced the size is too large for what follows. */
  lemma PatchedSize(s: seq<byte>, lack: nat)
    requires lack <= 2 <= |s| < 2 + lack && s[0] == 0
    ensures ReadString(PatchTail(s, lack)) == Incomplete
  {
  }

  lemma PatchIsSame(s: seq<byte>, lack: nat)
    requires lack <= 2 && lack <= |s|
    ensures PatchTail(s, lack) == s <==> s[|s| - lack..] == DISCONNECT[..lack]
  {
    assert s == s[..|s| - lack] + s[|s| - lack..];
  }

  // ---- a PUBLISH ----

  function PatchedMessage(m: Message, lack: nat): Message
    requires lack <= 2 && lack <= |m.topic| + |m.payload|
  {
    var t := PatchTail(m.topic + m.payload, lack);
    Message(t[..|m.topic|], t[|m.topic|..], m.retain)
  }

  /** What is read of a PUBLISH that lacked so many bytes, if they come. */
  function CompletedPublish(m: Message, lack: int): seq<Packet> {
    if 0 < lack <= 2 && lack <= |m.topic| + |m.payload| then [PublishPacket(PatchedMessage(m, lack))] else []
  }

  /** What is read of a PUBLISH of which `taken` bytes were taken, and of `disc` bytes of a DISCONNECT. */
  function PublishLeftover(m: Message, taken: nat, disc: nat): seq<Packet>
    requires disc <= 2 && taken < |PublishFrame(m)|
  {
    var lack := |PublishFrame(m)| - taken;
    Leftover(lack, taken, disc, CompletedPublish(m, lack))
  }

  lemma PatchedPublish(m: Message, lack: nat)
    requires lack <= 2 && lack <= |m.topic| + |m.payload|
    ensures PatchTail(Field(m.topic) + m.payload, lack) == Field(PatchedMessage(m, lack).topic) + PatchedMessage(m, lack).payload
  {
    var t, n := m.topic + m.payload, |m.topic|;
    assert Field(m.topic) + m.payload == BigEndian16(n) + t;
    PatchAfter(BigEndian16(n), t, lack);
    var u := PatchTail(t, lack);
    assert BigEndian16(n) + u == BigEndian16(n) + u[..n] + u[n..];
  }

  lemma PatchedPublishRead(m: Message, lack: nat)
    requires MessageFits(m) && 0 < lack <= 2
    ensures var header: byte := if m.retain then 0x31 else 0x30;
            CompletesAs(header, Field(m.topic) + m.payload, lack, CompletedPublish(m, lack))
  {
    var header: byte := if m.retain then 0x31 else 0x30;
    assert header / 16 == 3 && header % 16 == if m.retain then 1 else 0;
    if lack <= |m.topic| + |m.payload| {
      PatchedPublish(m, lack);
      PublishBodyRead(PatchedMessage(m, lack));
    } else {
      PatchedSize(Field(m.topic) + m.payload, lack);
    }
  }

  lemma PublishCompletes(m: Message, lack: nat, d: nat)
    requires MessageFits(m) && lack > 0 && d <= 2
    ensures CompletesIfEnough(if m.retain then 0x31 else 0x30, Field(m.topic) + m.payload, lack, d, CompletedPublish(m, lack))
  {
    if lack <= d {
      PatchedPublishRead(m, lack);
    }
  }

  lemma PublishFrameRead(m: Message, header: byte, body: seq<byte>, k: nat, lack: nat, d: nat)
    requires MessageFits(m) && d <= 2 && k + lack == |PublishFrame(m)| && lack > 0
    requires header == (if m.retain then 0x31 else 0x30) && body == Field(m.topic) + m.payload
    ensures ReadStream(Frame(header, body)[..k] + DISCONNECT[..d]).packets == Leftover(lack, k, d, CompletedPublish(m, lack))
  {
    PublishCompletes(m, lack, d);
    CutFrameRead(header, body, k, lack, d, CompletedPublish(m, lack));
  }

  lemma IsPublishLeftover(m: Message, k: nat, lack: nat, d: nat, packets: seq<Packet>)
    requires d <= 2 && k + lack == |PublishFrame(m)| && lack > 0
    requires packets == Leftover(lack, k, d, CompletedPublish(m, lack))
    ensures packets == PublishLeftover(m, k, d)
  {
  }

  /** A cut PUBLISH is completed exactly when the DISCONNECT bytes are enough and no size byte is missing. */
  lemma CutPublishRead(m: Message, k: nat, d: nat)
    requires MessageFits(m) && d <= 2 && k < |PublishFrame(m)|
    ensures ReadStream(PublishFrame(m)[..k] + DISCONNECT[..d]).packets == PublishLeftover(m, k, d)
  {
    var lack := |PublishFrame(m)| - k;
    PublishFrameRead(m, if m.retain then 0x31 else 0x30, Field(m.topic) + m.payload, k, lack, d);
    IsPublishLeftover(m, k, lack, d, ReadStream(PublishFrame(m)[..k] + DISCONNECT[..d]).packets);
  }

  /** The last n bytes are those of a DISCONNECT. */
  predicate EndsAsDisconnect(s: seq<byte>, n: nat) {
    n <= 2 && n <= |s| && s[|s| - n..] == DISCONNECT[..n]
  }

  lemma EndOfSum(a: seq<byte>, b: seq<byte>, n: nat)
    requires n <= |b|
    ensures EndsAsDisconnect(a + b, n) <==> EndsAsDisconnect(b, n)
  {
    assert (a + b)[|a + b| - n..] == b[|b| - n..];
  }

  /** Bytes after a size end so exactly when patching leaves them alone; a small size never does. */
  lemma SizedEnd(size: nat, s: seq<byte>, n: nat)
    requires 0 < n <= 2 && size <= |s|
    ensures EndsAsDisconnect(BigEndian16(size) + s, n) <==> n <= |s| && PatchTail(s, n) == s
  {
    var all := BigEndian16(size) + s;
    if n <= |s| {
      PatchIsSame(s, n);
      EndOfSum(BigEndian16(size), s, n);
    } else {
      assert all[|all| - n] < 2;
      assert all[|all| - n..][0] == all[|all| - n];
    }
  }

  lemma FrontOfPublish(header: byte, code: seq<byte>, size: seq<byte>, topic: seq<byte>, payload: seq<byte>)
    ensures [header] + code + (size + topic + payload) == ([header] + code) + (size + (topic + payload))
  {
  }

  lemma SameHalves(m: Message, t: seq<byte>)
    requires |t| == |m.topic| + |m.payload|
    ensures PublishPacket(Message(t[..|m.topic|], t[|m.topic|..], m.retain)) == PublishPacket(m) <==> t == m.topic + m.payload
  {
    assert t == t[..|m.topic|] + t[|m.topic|..];
    assert (m.topic + m.payload)[..|m.topic|] == m.topic && (m.topic + m.payload)[|m.topic|..] == m.payload;
  }

  lemma CompletedPublishIsItself(m: Message, lack: nat)
    requires 0 < lack <= 2
    ensures CompletedPublish(m, lack) == [PublishPacket(m)] <==> EndsAsDisconnect(PublishFrame(m), lack)
  {
    var code := RemainingLength(|Field(m.topic) + m.payload|);
    var header: byte := if m.retain then 0x31 else 0x30;
    FrontOfPublish(header, code, BigEndian16(|m.topic|), m.topic, m.payload);
    EndOfSum([header] + code, BigEndian16(|m.topic|) + (m.topic + m.payload), lack);
    SizedEnd(|m.topic|, m.topic + m.payload, lack);
    if lack <= |m.topic| + |m.payload| {
      SameHalves(m, PatchTail(m.topic + m.payload, lack));
    }
  }

  lemma PublishLeftoverWhen(m: Message, k: nat, d: nat, packets: seq<Packet>)
    requires d <= 2 && 0 < k < |PublishFrame(m)| && packets == PublishLeftover(m, k, d)
    ensures var lack := |PublishFrame(m)| - k;
            && (packets != [] <==> lack <= d && lack <= |m.topic| + |m.payload|)
            && (packets == [PublishPacket(m)] <==> lack <= d && EndsAsDisconnect(PublishFrame(m), lack))
  {
    var lack := |PublishFrame(m)| - k;
    if lack <= 2 {
      CompletedPublishIsItself(m, lack);
    }
    LeftoverWhen(lack, k, d, CompletedPublish(m, lack), |m.topic| + |m.payload|, PublishPacket(m),
                 EndsAsDisconnect(PublishFrame(m), lack));
  }

  /**
    A PUBLISH of which some bytes were taken is completed exactly when the DISCONNECT bytes are as many as it
    lacks and its size bytes are there; it is then the very packet that was cut exactly when the bytes it lacks
    are those of a DISCONNECT.
   */
  lemma CutPublishWhen(m: Message, k: nat, d: nat)
    requires MessageFits(m) && d <= 2 && 0 < k < |PublishFrame(m)|
    ensures var packets, lack := ReadStream(PublishFrame(m)[..k] + DISCONNECT[..d]).packets, |PublishFrame(m)| - k;
            && (packets != [] <==> lack <= d && lack <= |m.topic| + |m.payload|)
            && (packets == [PublishPacket(m)] <==> lack <= d && EndsAsDisconnect(PublishFrame(m), lack))
  {
    CutPublishRead(m, k, d);
    PublishLeftoverWhen(m, k, d, ReadStream(PublishFrame(m)[..k] + DISCONNECT[..d]).packets);
  }

  // ---- a CONNECT ----

  /** The field that ends the packet. */
  function LastField(opt: Options): seq<byte> {
    if opt.password != [] then opt.password else if opt.username != [] then opt.username else opt.clientId
  }

  function WithLastField(opt: Options, s: seq<byte>): Options {
    if opt.password != [] then opt.(password := s)
    else if opt.username != [] then opt.(username := s)
    else opt.(clientId := s)
  }

  /** What comes before the last field. */
  function BeforeLast(opt: Options): seq<byte> {
    if opt.password != [] then Field(opt.clientId) + OptionalField(opt.username)
    else if opt.username != [] then Field(opt.clientId)
    else []
  }

  function CompletedConnect(opt: Options, lack: int): seq<Packet> {
    if 0 < lack <= 2 && lack <= |LastField(opt)| then [ConnectPacket(WithLastField(opt, PatchTail(LastField(opt), lack)))] else []
  }

  function ConnectLeftover(opt: Options, taken: nat, disc: nat): seq<Packet>
    requires disc <= 2 && taken < |ConnectFrame(opt)|
  {
    var lack := |ConnectFrame(opt)| - taken;
    Leftover(lack, taken, disc, CompletedConnect(opt, lack))
  }

  lemma PayloadSplit(opt: Options)
    ensures ConnectPayload(opt) == BeforeLast(opt) + Field(LastField(opt))
  {
    if opt.password == [] {
      assert OptionalField(opt.password) == [];
    }
  }

  lemma PatchedConnect(opt: Options, lack: nat)
    requires lack <= 2 && lack <= |LastField(opt)|
    ensures var now := WithLastField(opt, PatchTail(LastField(opt), lack));
            PatchTail(ConnectHeader(opt) + ConnectPayload(opt), lack) == ConnectHeader(now) + ConnectPayload(now)
            && ConnectFlags(now) == ConnectFlags(opt)
  {
    var last := LastField(opt);
    var now := WithLastField(opt, PatchTail(last, lack));
    PayloadSplit(opt);
    PayloadSplit(now);
    PatchAfter(ConnectHeader(opt), ConnectPayload(opt), lack);
    PatchAfter(BeforeLast(opt), Field(last), lack);
    PatchAfter(BigEndian16(|last|), last, lack);
  }

  /** With a last field that cannot be read no packet is. */
  lemma LastFieldNeeded(opt: Options, last: seq<byte>)
    requires OptionsFit(opt) && ReadString(last) == Incomplete
    ensures ReadConnectPayload(ConnectFlags(opt), opt.keepAlive, BeforeLast(opt) + last) == Incomplete
  {
    FlagBits(opt);
    if opt.password != [] {
      assert BeforeLast(opt) + last == Field(opt.clientId) + (OptionalField(opt.username) + last);
      FieldRoundTrip(opt.clientId, OptionalField(opt.username) + last);
      OptionalFieldRoundTrip(opt.username, last);
    } else if opt.username != [] {
      FieldRoundTrip(opt.clientId, last);
    } else {
      assert BeforeLast(opt) + last == last;
    }
  }

  lemma ConnectSizeCut(opt: Options, lack: nat)
    requires OptionsFit(opt) && |LastField(opt)| < lack <= 2
    ensures ReadConnect(PatchTail(ConnectHeader(opt) + ConnectPayload(opt), lack)) == Incomplete
  {
    var field := Field(LastField(opt));
    var payload := BeforeLast(opt) + PatchTail(field, lack);
    PayloadSplit(opt);
    PatchAfter(ConnectHeader(opt), ConnectPayload(opt), lack);
    PatchAfter(BeforeLast(opt), field, lack);
    PatchedSize(field, lack);
    LastFieldNeeded(opt, PatchTail(field, lack));
    FlagBits(opt);
    ConnectHeaderRead(ConnectFlags(opt), opt.keepAlive, payload);
    HeaderSplit(Field(PROTOCOL_NAME), ConnectFlags(opt), BigEndian16(opt.keepAlive), payload);
  }

  lemma PatchedConnectRead(opt: Options, lack: nat)
    requires OptionsFit(opt) && 0 < lack <= 2
    ensures CompletesAs(0x10, ConnectHeader(opt) + ConnectPayload(opt), lack, CompletedConnect(opt, lack))
  {
    if lack <= |LastField(opt)| {
      PatchedConnect(opt, lack);
      ConnectBodyRead(WithLastField(opt, PatchTail(LastField(opt), lack)));
    } else {
      ConnectSizeCut(opt, lack);
    }
  }

  lemma ConnectCompletes(opt: Options, lack: nat, d: nat)
    requires OptionsFit(opt) && lack > 0 && d <= 2
    ensures CompletesIfEnough(0x10, ConnectHeader(opt) + ConnectPayload(opt), lack, d, CompletedConnect(opt, lack))
  {
    if lack <= d {
      PatchedConnectRead(opt, lack);
    }
  }

  lemma ConnectFrameRead(opt: Options, body: seq<byte>, k: nat, lack: nat, d: nat)
    requires OptionsFit(opt) && d <= 2 && k + lack == |ConnectFrame(opt)| && lack > 0
    requires body == ConnectHeader(opt) + ConnectPayload(opt)
    ensures ReadStream(Frame(0x10, body)[..k] + DISCONNECT[..d]).packets == Leftover(lack, k, d, CompletedConnect(opt, lack))
  {
    ConnectCompletes(opt, lack, d);
    CutFrameRead(0x10, body, k, lack, d, CompletedConnect(opt, lack));
  }

  lemma IsConnectLeftover(opt: Options, k: nat, lack: nat, d: nat, packets: seq<Packet>)
    requires d <= 2 && k + lack == |ConnectFrame(opt)| && lack > 0
    requires packets == Leftover(lack, k, d, CompletedConnect(opt, lack))
    ensures packets == ConnectLeftover(opt, k, d)
  {
  }

  /** The same for a cut CONNECT, whose last field is the password, the user name or the client id. */
  lemma CutConnectRead(opt: Options, k: nat, d: nat)
    requires OptionsFit(opt) && d <= 2 && k < |ConnectFrame(opt)|
    ensures ReadStream(ConnectFrame(opt)[..k] + DISCONNECT[..d]).packets == ConnectLeftover(opt, k, d)
  {
    var lack := |ConnectFrame(opt)| - k;
    ConnectFrameRead(opt, ConnectHeader(opt) + ConnectPayload(opt), k, lack, d);
    IsConnectLeftover(opt, k, lack, d, ReadStream(ConnectFrame(opt)[..k] + DISCONNECT[..d]).packets);
  }

  lemma FrontOfConnect(header: byte, code: seq<byte>, fixed: seq<byte>, before: seq<byte>, last: seq<byte>)
    ensures [header] + code + (fixed + (before + last)) == ([header] + code + fixed + before) + last
  {
  }

  lemma LastFieldEnd(opt: Options, n: nat)
    requires n <= 2
    ensures EndsAsDisconnect(ConnectFrame(opt), n) <==> EndsAsDisconnect(BigEndian16(|LastField(opt)|) + LastField(opt), n)
  {
    var code, field := RemainingLength(|ConnectHeader(opt) + ConnectPayload(opt)|), Field(LastField(opt));
    PayloadSplit(opt);
    FrontOfConnect(0x10, code, ConnectHeader(opt), BeforeLast(opt), field);
    EndOfSum([0x10] + code + ConnectHeader(opt) + BeforeLast(opt), field, n);
  }

  lemma SameLastField(opt: Options, s: seq<byte>)
    requires |s| == |LastField(opt)|
    ensures ConnectPacket(WithLastField(opt, s)) == ConnectPacket(opt) <==> s == LastField(opt)
  {
  }

  lemma CompletedConnectIsItself(opt: Options, lack: nat)
    requires 0 < lack <= 2
    ensures CompletedConnect(opt, lack) == [ConnectPacket(opt)] <==> EndsAsDisconnect(ConnectFrame(opt), lack)
  {
    LastFieldEnd(opt, lack);
    SizedEnd(|LastField(opt)|, LastField(opt), lack);
    if lack <= |LastField(opt)| {
      SameLastField(opt, PatchTail(LastField(opt), lack));
    }
  }

  lemma CompletedConnectWhen(opt: Options, lack: nat)
    requires lack > 0
    ensures lack <= 2 ==>
              && (CompletedConnect(opt, lack) != [] <==> lack <= |LastField(opt)|)
              && (CompletedConnect(opt, lack) == [ConnectPacket(opt)] <==> EndsAsDisconnect(ConnectFrame(opt), lack))
  {
    if lack <= 2 {
      CompletedConnectIsItself(opt, lack);
    }
  }

  lemma ConnectLeftoverWhen(opt: Options, k: nat, d: nat, packets: seq<Packet>)
    requires d <= 2 && 0 < k < |ConnectFrame(opt)| && packets == ConnectLeftover(opt, k, d)
    ensures var lack := |ConnectFrame(opt)| - k;
            && (packets != [] <==> lack <= d && lack <= |LastField(opt)|)
            && (packets == [ConnectPacket(opt)] <==> lack <= d && EndsAsDisconnect(ConnectFrame(opt), lack))
  {
    var lack := |ConnectFrame(opt)| - k;
    CompletedConnectWhen(opt, lack);
    LeftoverWhen(lack, k, d, CompletedConnect(opt, lack), |LastField(opt)|, ConnectPacket(opt),
                 EndsAsDisconnect(ConnectFrame(opt), lack));
  }

  lemma CutConnectWhen(opt: Options, k: nat, d: nat)
    requires OptionsFit(opt) && d <= 2 && 0 < k < |ConnectFrame(opt)|
    ensures var packets, lack := ReadStream(ConnectFrame(opt)[..k] + DISCONNECT[..d]).packets, |ConnectFrame(opt)| - k;
            && (packets != [] <==> lack <= d && lack <= |LastField(opt)|)
            && (packets == [ConnectPacket(opt)] <==> lack <= d && EndsAsDisconnect(ConnectFrame(opt), lack))
  {
    CutConnectRead(opt, k, d);
    ConnectLeftoverWhen(opt, k, d, ReadStream(ConnectFrame(opt)[..k] + DISCONNECT[..d]).packets);
  }
}
