/**
  What the reader makes of the byte stream of a session: its frames one after another, then whatever
  comes after them.
 */
module MqttStreamProofs {
  import opened Bytes
  import opened MqttWire
  import opened MqttDecoder
  import opened MqttLengthProofs
  import opened MqttFrameProofs

  predicate AllFit(ms: seq<Message>) {
    forall m :: m in ms ==> MessageFits(m)
  }

  function Prepend(ps: seq<Packet>, t: Stream): Stream {
    t.(packets := ps + t.packets)
  }

  lemma PrependTwice(a: seq<Packet>, b: seq<Packet>, t: Stream)
    ensures Prepend(a, Prepend(b, t)) == Prepend(a + b, t)
  {
  }

  lemma StreamStep(s: seq<byte>, p: Packet, after: seq<byte>)
    requires ReadPacket(s) == Got(p, after)
    ensures ReadStream(s) == Prepend([p], ReadStream(after))
  {
  }

  lemma PublishRead(m: Message, after: seq<byte>)
    requires MessageFits(m)
    ensures ReadStream(PublishFrame(m) + after) == Prepend([PublishPacket(m)], ReadStream(after))
  {
    PublishRoundTrip(m, after);
    StreamStep(PublishFrame(m) + after, PublishPacket(m), after);
  }

  lemma ConnectRead(opt: Options, after: seq<byte>)
    requires OptionsFit(opt)
    ensures ReadStream(ConnectFrame(opt) + after) == Prepend([ConnectPacket(opt)], ReadStream(after))
  {
    ConnectRoundTrip(opt, after);
    StreamStep(ConnectFrame(opt) + after, ConnectPacket(opt), after);
  }

  lemma AppendTail(a: seq<byte>, b: seq<byte>, c: seq<byte>)
    ensures a + b + c == a + (b + c)
  {
  }

  lemma {:induction false} PublishesRead(ms: seq<Message>, tail: seq<byte>)
    requires AllFit(ms)
    ensures ReadStream(PublishFrames(ms) + tail) == Prepend(PublishPackets(ms), ReadStream(tail))
  {
    if ms == [] {
      assert PublishFrames(ms) + tail == tail;
      assert PublishPackets(ms) + ReadStream(tail).packets == ReadStream(tail).packets;
    } else {
      PublishesRead(ms[1..], tail);
      AppendTail(PublishFrame(ms[0]), PublishFrames(ms[1..]), tail);
      PublishRead(ms[0], PublishFrames(ms[1..]) + tail);
      PrependTwice([PublishPacket(ms[0])], PublishPackets(ms[1..]), ReadStream(tail));
    }
  }

  lemma SessionRead(opt: Options, ms: seq<Message>, tail: seq<byte>)
    requires OptionsFit(opt) && AllFit(ms)
    ensures ReadStream(ConnectFrame(opt) + PublishFrames(ms) + tail)
            == Prepend([ConnectPacket(opt)] + PublishPackets(ms), ReadStream(tail))
  {
    AppendTail(ConnectFrame(opt), PublishFrames(ms), tail);
    ConnectRead(opt, PublishFrames(ms) + tail);
    PublishesRead(ms, tail);
    PrependTwice([ConnectPacket(opt)], PublishPackets(ms), ReadStream(tail));
  }

  lemma {:induction false} PublishFramesAppend(ms: seq<Message>, m: Message)
    ensures PublishFrames(ms + [m]) == PublishFrames(ms) + PublishFrame(m)
  {
    if ms == [] {
      assert [m][1..] == [];
    } else {
      PublishFramesAppend(ms[1..], m);
      assert (ms + [m])[1..] == ms[1..] + [m];
    }
  }
}
