/**
  Round trips of whole packets, and what the reader makes of packets that were cut short:
  the facts about single frames from which the whole-run results follow.
 */
module MqttFrameProofs {
  import opened Bytes
  import opened MqttWire
  import opened MqttDecoder
  import opened MqttLengthProofs

  function Present(s: seq<byte>): Option<seq<byte>> {
    if s == [] then None else Some(s)
  }

  /** The packet that a CONNECT for these options is meant to be. */
  function ConnectPacket(opt: Options): Packet {
    Connect(true, opt.keepAlive, opt.clientId, None, Present(opt.username), Present(opt.password))
  }

  function PublishPacket(m: Message): Packet {
    Publish(false, 0, m.retain, m.topic, None, m.payload)
  }

  function PublishPackets(ms: seq<Message>): seq<Packet> {
    if ms == [] then [] else [PublishPacket(ms[0])] + PublishPackets(ms[1..])
  }

  predicate OptionsFit(opt: Options) {
    |opt.clientId| < 0x1_0000 && |opt.username| < 0x1_0000 && |opt.password| < 0x1_0000 && 0 <= opt.keepAlive < 0x1_0000
  }

  predicate MessageFits(m: Message) {
    |m.topic| < 0x1_0000 && 2 + |m.topic| + |m.payload| < 0x1000_0000
  }

  // ---- fields ----

  /** A field is read back as written exactly when its size fits the two size bytes. */
  lemma FieldRoundTrip(s: seq<byte>, rest: seq<byte>)
    ensures ReadString(Field(s) + rest) == Got(s, rest) <==> |s| < 0x1_0000
  {
    if |s| < 0x1_0000 {
      assert (Field(s) + rest)[2..] == s + rest;
      assert (s + rest)[..|s|] == s && (s + rest)[|s|..] == rest;
    }
  }

  lemma OptionalFieldRoundTrip(s: seq<byte>, rest: seq<byte>)
    requires |s| < 0x1_0000
    ensures ReadIf(s != [], OptionalField(s) + rest) == Got(Present(s), rest)
  {
    if s != [] {
      FieldRoundTrip(s, rest);
    } else {
      assert OptionalField(s) + rest == rest;
    }
  }

  lemma KeepAliveRoundTrip(n: int, rest: seq<byte>)
    requires 0 <= n < 0x1_0000
    ensures Read16(BigEndian16(n) + rest) == Got(n, rest)
  {
  }

  // ---- frames ----

  lemma FrameRead(header: byte, body: seq<byte>, rest: seq<byte>)
    ensures ReadPacket(Frame(header, body) + rest) ==
            if |body| >= 0x1000_0000 then Malformed
            else
              var p := ReadBody(header, body);
              if p.Got? && p.rest == [] then Got(p.value, rest) else Malformed
  {
    var s := Frame(header, body) + rest;
    assert s[1..] == RemainingLength(|body|) + (body + rest);
    LengthRoundTrip(|body|, body + rest);
    assert (body + rest)[..|body|] == body && (body + rest)[|body|..] == rest;
  }

  lemma FlagBits(opt: Options)
    ensures Bit(ConnectFlags(opt), 0x80) <==> opt.username != []
    ensures Bit(ConnectFlags(opt), 0x40) <==> opt.password != []
    ensures Bit(ConnectFlags(opt), 2) && !Bit(ConnectFlags(opt), 4) && FlagsAllowed(ConnectFlags(opt))
  {
  }

  /** Section 3.1.2.9 holds of the packet exactly when a password comes with a user name. */
  lemma ConnectMeetsUserNameRule(opt: Options)
    ensures PasswordOnlyWithUserName(ConnectFlags(opt)) <==> (opt.username != [] || opt.password == [])
  {
    FlagBits(opt);
  }

  lemma ConnectPayloadRead(opt: Options)
    requires OptionsFit(opt)
    ensures ReadConnectPayload(ConnectFlags(opt), opt.keepAlive, ConnectPayload(opt)) == Got(ConnectPacket(opt), [])
  {
    var afterUser := OptionalField(opt.password) + [];
    var afterId := OptionalField(opt.username) + afterUser;
    assert ConnectPayload(opt) == Field(opt.clientId) + afterId;
    FieldRoundTrip(opt.clientId, afterId);
    FlagBits(opt);
    OptionalFieldRoundTrip(opt.username, afterUser);
    OptionalFieldRoundTrip(opt.password, []);
  }

  lemma ConnectHeaderRead(flags: byte, keepAlive: int, payload: seq<byte>)
    requires 0 <= keepAlive < 0x1_0000 && FlagsAllowed(flags)
    ensures ReadConnect(Field(PROTOCOL_NAME) + ([4, flags] + (BigEndian16(keepAlive) + payload))) == ReadConnectPayload(flags, keepAlive, payload)
  {
    var afterFlags := BigEndian16(keepAlive) + payload;
    var afterName := [4, flags] + afterFlags;
    FieldRoundTrip(PROTOCOL_NAME, afterName);
    KeepAliveRoundTrip(keepAlive, payload);
    assert afterName[0] == 4 && afterName[1] == flags && afterName[2..] == afterFlags;
  }

  lemma ConnectBodyRead(opt: Options)
    requires OptionsFit(opt)
    ensures ReadConnect(ConnectHeader(opt) + ConnectPayload(opt)) == Got(ConnectPacket(opt), [])
  {
    var flags, keepAlive, payload := ConnectFlags(opt), opt.keepAlive, ConnectPayload(opt);
    FlagBits(opt);
    ConnectHeaderRead(flags, keepAlive, payload);
    ConnectPayloadRead(opt);
    HeaderSplit(Field(PROTOCOL_NAME), flags, BigEndian16(keepAlive), payload);
  }

  lemma HeaderSplit(name: seq<byte>, flags: byte, keepAlive: seq<byte>, payload: seq<byte>)
    ensures name + [4] + [flags] + keepAlive + payload == name + ([4, flags] + (keepAlive + payload))
  {
  }

  /** The flags announce the fields that follow, so every option comes back, whatever bytes follow the packet. */
  lemma ConnectRoundTrip(opt: Options, rest: seq<byte>)
    ensures ReadPacket(ConnectFrame(opt) + rest) == Got(ConnectPacket(opt), rest) <==> OptionsFit(opt)
  {
    FrameRead(0x10, ConnectHeader(opt) + ConnectPayload(opt), rest);
    if OptionsFit(opt) {
      ConnectBodyRead(opt);
    }
  }

  lemma PublishRoundTrip(m: Message, rest: seq<byte>)
    ensures ReadPacket(PublishFrame(m) + rest) == Got(PublishPacket(m), rest) <==> MessageFits(m)
  {
    var header: byte, body := if m.retain then 0x31 else 0x30, Field(m.topic) + m.payload;
    FrameRead(header, body, rest);
    PublishBodyRead(m);
    assert header / 16 == 3 && header % 16 == if m.retain then 1 else 0;
    assert |body| == 2 + |m.topic| + |m.payload|;
  }

  lemma PublishBodyRead(m: Message)
    ensures ReadPublish(if m.retain then 1 else 0, Field(m.topic) + m.payload) == Got(PublishPacket(m), []) <==> |m.topic| < 0x1_0000
  {
    FieldRoundTrip(m.topic, m.payload);
  }

  // ---- frames cut short ----

  function Used<T>(s: seq<byte>, r: Read<T>): int
    requires r.Got?
  {
    |s| - |r.rest|
  }

  /** Cutting a length inside its digits leaves only continuation bytes, and the reader asks for more. */
  lemma {:induction false} CutInsideDigits(s: seq<byte>, budget: nat, k: nat)
    requires ReadDigits(s, budget).Got? && k < Used(s, ReadDigits(s, budget)) <= |s|
    ensures ReadDigits(s[..k], budget) == Incomplete && k < budget
    ensures forall i :: 0 <= i < k ==> s[i] >= 128
    decreases budget
  {
    if k > 0 {
      assert s[0] >= 128;
      assert s[..k][1..] == s[1..][..k - 1];
      CutInsideDigits(s[1..], budget - 1, k - 1);
      assert forall i :: 0 < i < k ==> s[i] == s[1..][i - 1];
    }
  }

  lemma SlicesOfTail(s: seq<byte>, u: nat, k: nat)
    requires u + 1 <= k <= |s|
    ensures s[..k][1..] == s[1..][..k - 1] && s[1..][u..k - 1] == s[u + 1..k]
  {
  }

  lemma {:induction false} CutAfterDigits(s: seq<byte>, budget: nat, k: nat)
    requires ReadDigits(s, budget).Got? && Used(s, ReadDigits(s, budget)) <= k <= |s|
    ensures ReadDigits(s[..k], budget) == Got(ReadDigits(s, budget).value, s[Used(s, ReadDigits(s, budget))..k])
    decreases budget
  {
    var t := s[1..];
    if s[0] >= 128 {
      var u := Used(t, ReadDigits(t, budget - 1));
      SlicesOfTail(s, u, k);
      CutAfterDigits(t, budget - 1, k - 1);
    } else {
      SlicesOfTail(s, 0, k);
    }
  }

  lemma PacketIncomplete(s: seq<byte>)
    requires s != []
    requires var r := ReadLength(s[1..]); r.Incomplete? || (r.Got? && |r.rest| < r.value)
    ensures ReadPacket(s) == Incomplete
  {
  }

  /** A length and what it announces, cut short: either its digits stop, or fewer bytes follow than announced. */
  lemma CutLength(t: seq<byte>, k: nat)
    requires ReadLength(t).Got? && |ReadLength(t).rest| == ReadLength(t).value && k < |t|
    ensures var r := ReadLength(t[..k]); r.Incomplete? || (r.Got? && |r.rest| < r.value)
  {
    if k < Used(t, ReadLength(t)) {
      CutInsideDigits(t, 4, k);
    } else {
      CutAfterDigits(t, 4, k);
    }
  }

  /** Every proper prefix of a readable packet is reported as incomplete: packets delimit themselves. */
  lemma CutPacketIncomplete(s: seq<byte>, k: nat)
    requires ReadPacket(s).Got? && ReadPacket(s).rest == [] && k < |s|
    ensures ReadPacket(s[..k]) == Incomplete
  {
    if k > 0 {
      assert s[..k][1..] == s[1..][..k - 1];
      CutLength(s[1..], k - 1);
      PacketIncomplete(s[..k]);
    }
  }
}
