/**
  The MQTT 3.1.1 encoder: what the publisher appends to its byte vectors, and the frames it builds.
  The vectors the source passes by reference are `Buffer` objects; every method that appends to one
  is proved against the function that says which bytes it appends.
 */
module MqttWire {
  import opened Bytes

  datatype Options = Options(clientId: seq<byte>, username: seq<byte>, password: seq<byte>, keepAlive: int)

  datatype Message = Message(topic: seq<byte>, payload: seq<byte>, retain: bool)

  const PROTOCOL_NAME: seq<byte> := [0x4D, 0x51, 0x54, 0x54]
  const DISCONNECT: seq<byte> := [0xE0, 0x00]

  /** Seven bits a byte, least significant first; the top bit says that another byte follows. */
  function RemainingLength(len: nat): (b: seq<byte>)
    ensures b != []
  {
    if len < 128 then [len] else [128 + len % 128] + RemainingLength(len / 128)
  }

  function Field(s: seq<byte>): seq<byte> {
    BigEndian16(|s|) + s
  }

  function OptionalField(s: seq<byte>): seq<byte> {
    if s == [] then [] else Field(s)
  }

  function Frame(header: byte, body: seq<byte>): seq<byte> {
    [header] + RemainingLength(|body|) + body
  }

  function ConnectFlags(opt: Options): byte {
    2 + (if opt.username == [] then 0 else 0x80) + (if opt.password == [] then 0 else 0x40)
  }

  function ConnectHeader(opt: Options): seq<byte> {
    Field(PROTOCOL_NAME) + [4] + [ConnectFlags(opt)] + BigEndian16(opt.keepAlive)
  }

  function ConnectPayload(opt: Options): seq<byte> {
    Field(opt.clientId) + OptionalField(opt.username) + OptionalField(opt.password)
  }

  function ConnectFrame(opt: Options): seq<byte> {
    Frame(0x10, ConnectHeader(opt) + ConnectPayload(opt))
  }

  function PublishFrame(m: Message): seq<byte> {
    Frame(if m.retain then 0x31 else 0x30, Field(m.topic) + m.payload)
  }

  function PublishFrames(ms: seq<Message>): seq<byte> {
    if ms == [] then [] else PublishFrame(ms[0]) + PublishFrames(ms[1..])
  }

  class Buffer {
    var data: seq<byte>

    constructor ()
      ensures data == []
    {
      data := [];
    }

    method Push(x: byte)
      modifies this
      ensures data == old(data) + [x]
    {
      data := data + [x];
    }

    method Append(xs: seq<byte>)
      modifies this
      ensures data == old(data) + xs
    {
      data := data + xs;
    }
  }

  method PutRemainingLength(b: Buffer, len: nat)
    modifies b
    ensures b.data == old(b.data) + RemainingLength(len)
  {
    var rest, more := len, true;
    while more
      invariant more ==> b.data + RemainingLength(rest) == old(b.data) + RemainingLength(len)
      invariant !more ==> b.data == old(b.data) + RemainingLength(len)
      decreases more, rest
    {
      ghost var before, todo := b.data, rest;
      var digit := rest % 128;
      rest := rest / 128;
      if rest != 0 {
        digit := digit + 128;
      }
      b.Push(digit);
      more := rest != 0;
      assert RemainingLength(todo) == [digit] + (if more then RemainingLength(rest) else []);
      assert before + RemainingLength(todo) == b.data + (if more then RemainingLength(rest) else []);
    }
  }

  method PutString(b: Buffer, s: seq<byte>)
    modifies b
    ensures b.data == old(b.data) + Field(s)
  {
    b.Push(|s| / 256 % 256);
    b.Push(|s| % 256);
    b.Append(s);
  }

  method PutConnectHeader(vh: Buffer, opt: Options)
    modifies vh
    ensures vh.data == old(vh.data) + ConnectHeader(opt)
  {
    PutString(vh, PROTOCOL_NAME);
    vh.Push(0x04);

    var flags := 0x02;
    if opt.username != [] {
      flags := flags + 0x80;
    }
    if opt.password != [] {
      flags := flags + 0x40;
    }
    vh.Push(flags);

    vh.Push(opt.keepAlive / 256 % 256);
    vh.Push(opt.keepAlive % 256);
    assert flags == ConnectFlags(opt);
  }

  method PutConnectPayload(payload: Buffer, opt: Options)
    modifies payload
    ensures payload.data == old(payload.data) + ConnectPayload(opt)
  {
    PutString(payload, opt.clientId);
    if opt.username != [] {
      PutString(payload, opt.username);
    }
    if opt.password != [] {
      PutString(payload, opt.password);
    }
  }

  /** Appends a fixed header and the two parts of a packet's body. */
  method PutPacket(pkt: Buffer, header: byte, vh: seq<byte>, payload: seq<byte>)
    modifies pkt
    ensures pkt.data == old(pkt.data) + Frame(header, vh + payload)
  {
    pkt.Push(header);
    PutRemainingLength(pkt, |vh| + |payload|);
    pkt.Append(vh);
    pkt.Append(payload);
  }

  method BuildConnect(opt: Options) returns (pkt: Buffer)
    ensures fresh(pkt) && pkt.data == ConnectFrame(opt)
  {
    var vh := new Buffer();
    PutConnectHeader(vh, opt);
    var payload := new Buffer();
    PutConnectPayload(payload, opt);
    pkt := new Buffer();
    PutPacket(pkt, 0x10, vh.data, payload.data);
    assert vh.data == ConnectHeader(opt) && payload.data == ConnectPayload(opt);
  }

  method BuildPublish(m: Message) returns (pkt: Buffer)
    ensures fresh(pkt) && pkt.data == PublishFrame(m)
  {
    var vh := new Buffer();
    PutString(vh, m.topic);
    pkt := new Buffer();
    PutPacket(pkt, if m.retain then 0x31 else 0x30, vh.data, m.payload);
    assert vh.data == Field(m.topic);
  }
}
