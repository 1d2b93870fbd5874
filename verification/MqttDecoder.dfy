/**
  What a receiver makes of a byte stream, written from the MQTT 3.1.1 standard
  (sections 1.5.3, 2.2.3, 3.1, 3.2, 3.3 and 3.14) without reference to the client.
 */
module MqttDecoder {
  import opened Bytes

  /** A value and the bytes after it; or the input ends inside the value; or no value can start so. */
  datatype Read<+T> = Got(value: T, rest: seq<byte>) | Incomplete | Malformed {
    predicate IsFailure() { !Got? }

    function PropagateFailure<U>(): Read<U>
      requires IsFailure()
    {
      if Incomplete? then Incomplete else Malformed
    }

    function Extract(): (T, seq<byte>)
      requires !IsFailure()
    {
      (value, rest)
    }
  }

  datatype Will = Will(topic: seq<byte>, message: seq<byte>)

  datatype Packet =
    | Connect(cleanSession: bool, keepAlive: int, clientId: seq<byte>, will: Option<Will>,
              userName: Option<seq<byte>>, password: Option<seq<byte>>)
    | Publish(dup: bool, qos: nat, retain: bool, topic: seq<byte>, id: Option<nat>, payload: seq<byte>)
    | Disconnect
    | Other(header: byte, body: seq<byte>)

  /** Section 2.2.3: at most four length bytes. */
  function ReadLength(s: seq<byte>): (r: Read<nat>)
    ensures r.Got? ==> r.value < 0x1000_0000 && |r.rest| < |s|
  {
    ReadDigits(s, 4)
  }

  function ReadDigits(s: seq<byte>, budget: nat): (r: Read<nat>)
    ensures r.Got? ==> |r.rest| < |s|
    ensures r.Got? && budget <= 4 ==> r.value < [0, 0x80, 0x4000, 0x20_0000, 0x1000_0000][budget]
    decreases budget
  {
    if budget == 0 then Malformed
    else if s == [] then Incomplete
    else if s[0] < 128 then Got(s[0], s[1..])
    else
      var (high, rest) :- ReadDigits(s[1..], budget - 1);
      var low: nat := s[0] % 128;
      Got(low + 128 * high, rest)
  }

  function Read16(s: seq<byte>): (r: Read<nat>)
    ensures r.Got? ==> r.value < 0x1_0000 && |s| >= 2 && r.rest == s[2..]
  {
    if |s| < 2 then Incomplete
    else
      var high: nat := s[0];
      Got(256 * high + s[1], s[2..])
  }

  /** Section 1.5.3: a two-byte length, then that many bytes. */
  function ReadString(s: seq<byte>): (r: Read<seq<byte>>)
    ensures r.Got? ==> |r.value| < 0x1_0000
  {
    var (n, rest) :- Read16(s);
    if |rest| < n then Incomplete else Got(rest[..n], rest[n..])
  }

  function ReadIf(present: bool, s: seq<byte>): (r: Read<Option<seq<byte>>>)
    ensures r.Got? && r.value.Some? ==> present && |r.value.value| < 0x1_0000
  {
    if present then
      var (v, rest) :- ReadString(s);
      Got(Some(v), rest)
    else Got(None, s)
  }

  predicate Bit(n: byte, weight: int)
    requires weight > 0
  {
    n / weight % 2 == 1
  }

  /** Sections 3.1.2.3 and 3.1.2.6: the reserved bit is 0, and without a will so are its QoS and its retain bit. */
  predicate FlagsAllowed(flags: byte) {
    !Bit(flags, 1) && (!Bit(flags, 4) ==> !Bit(flags, 8) && !Bit(flags, 0x10) && !Bit(flags, 0x20))
  }

  /** Section 3.1.2: protocol name, level, flags and keep-alive; section 3.1.3: the payload. */
  function ReadConnect(body: seq<byte>): (r: Read<Packet>)
    ensures r.Got? ==> r.value.Connect? && ConnectInRange(r.value)
  {
    var (name, s1) :- ReadString(body);
    if name != [0x4D, 0x51, 0x54, 0x54] || |s1| < 2 || s1[0] != 4 || !FlagsAllowed(s1[1]) then Malformed
    else
      var (keepAlive, s2) :- Read16(s1[2..]);
      ReadConnectPayload(s1[1], keepAlive, s2)
  }

  /** Section 3.1.3: the flags byte says which fields the payload holds. */
  function ReadConnectPayload(flags: byte, keepAlive: nat, s: seq<byte>): (r: Read<Packet>)
    requires keepAlive < 0x1_0000
    ensures r.Got? ==> r.value.Connect? && ConnectInRange(r.value)
  {
    var (clientId, s3) :- ReadString(s);
    var (willTopic, s4) :- ReadIf(Bit(flags, 4), s3);
    var (willMessage, s5) :- ReadIf(Bit(flags, 4), s4);
    var (userName, s6) :- ReadIf(Bit(flags, 0x80), s5);
    var (password, s7) :- ReadIf(Bit(flags, 0x40), s6);
    var will := if willTopic.Some? && willMessage.Some? then Some(Will(willTopic.value, willMessage.value)) else None;
    Got(Connect(Bit(flags, 2), keepAlive, clientId, will, userName, password), s7)
  }

  predicate ConnectInRange(p: Packet)
    requires p.Connect?
  {
    && 0 <= p.keepAlive < 0x1_0000
    && |p.clientId| < 0x1_0000
    && (p.userName.Some? ==> |p.userName.value| < 0x1_0000)
    && (p.password.Some? ==> |p.password.value| < 0x1_0000)
  }

  /** Section 3.3: a packet identifier is present only above QoS 0; the payload is all that remains. */
  function ReadPublish(flags: nat, body: seq<byte>): (r: Read<Packet>)
    requires flags < 16
    ensures r.Got? ==> r.value.Publish? && |r.value.topic| < 0x1_0000
    ensures r.Got? ==> |r.value.topic| + |r.value.payload| + 2 <= |body|
  {
    var qos := flags / 2 % 4;
    if qos == 3 then Malformed
    else
      var (topic, s1) :- ReadString(body);
      if qos == 0 then Got(Publish(flags >= 8, qos, flags % 2 == 1, topic, None, s1), [])
      else
        var (id, s2) :- Read16(s1);
        Got(Publish(flags >= 8, qos, flags % 2 == 1, topic, Some(id), s2), [])
  }

  function ReadBody(header: byte, body: seq<byte>): Read<Packet> {
    match header / 16
    case 1 => if header % 16 == 0 then ReadConnect(body) else Malformed
    case 3 => ReadPublish(header % 16, body)
    case 14 => if header % 16 == 0 && body == [] then Got(Disconnect, []) else Malformed
    case _ => Got(Other(header, body), [])
  }

  /** Section 2: a header byte, the remaining length, then exactly that many bytes of body. */
  function ReadPacket(s: seq<byte>): (r: Read<Packet>)
    ensures r.Got? ==> |r.rest| < |s|
  {
    if s == [] then Incomplete
    else
      var (n, rest) :- ReadLength(s[1..]);
      if |rest| < n then Incomplete
      else
        var p := ReadBody(s[0], rest[..n]);
        if p.Got? && p.rest == [] then Got(p.value, rest[n..]) else Malformed
  }

  /** Section 3.2: the acknowledge flags, whose lowest bit is "session present", and the return code, 0 if accepted. */
  datatype Connack = Connack(flags: byte, code: byte)

  function ReadConnack(s: seq<byte>): Read<Connack> {
    if s == [] then Incomplete
    else if s[0] / 16 != 2 || s[0] % 16 != 0 then Malformed
    else
      var (n, rest) :- ReadLength(s[1..]);
      if n != 2 then Malformed
      else if |rest| < 2 then Incomplete
      else Got(Connack(rest[0], rest[1]), rest[2..])
  }

  /** These bytes are one acknowledgement, and it accepts the connection. */
  predicate IsAcceptance(s: seq<byte>) {
    var r := ReadConnack(s);
    r.Got? && r.value.code == 0 && r.rest == []
  }

  datatype Stream = Stream(packets: seq<Packet>, rest: seq<byte>, malformed: bool)

  /** All packets of a connection's byte stream, and what is left when no further one can be read. */
  function ReadStream(s: seq<byte>): Stream
    decreases |s|
  {
    var r := ReadPacket(s);
    if r.Got? then
      var t := ReadStream(r.rest);
      t.(packets := [r.value] + t.packets)
    else Stream([], s, r.Malformed?)
  }

  /** Section 3.1.2.9: without a user name there must be no password. */
  predicate PasswordOnlyWithUserName(flags: byte) {
    Bit(flags, 0x40) ==> Bit(flags, 0x80)
  }
}
