/** What the reader makes of any frame that was cut short and of the DISCONNECT bytes sent after it. */
module MqttCutFrames {
  import opened Bytes
  import opened MqttWire
  import opened MqttDecoder
  import opened MqttLengthProofs
  import opened MqttFrameProofs
  import opened MqttStreamProofs

  // ---- any frame ----

  lemma DisconnectRead(d: nat)
    requires d <= 2
    ensures ReadStream(DISCONNECT[..d]) == if d == 2 then Stream([Disconnect], [], false) else Stream([], DISCONNECT[..d], false)
  {
  }

  lemma {:induction false} DigitsThenDisconnect(p: seq<byte>, d: nat, budget: nat)
    requires d <= 2 && forall i :: 0 <= i < |p| ==> p[i] >= 128
    ensures var r := ReadDigits(p + DISCONNECT[..d], budget); r.Got? ==> r.rest == [] && r.value > 0
    decreases |p|
  {
    var s := p + DISCONNECT[..d];
    if p != [] && budget > 0 {
      assert s[1..] == p[1..] + DISCONNECT[..d];
      DigitsThenDisconnect(p[1..], d, budget - 1);
    } else if d > 0 && budget > 1 {
      assert s[1..] == DISCONNECT[1..d];
    }
  }

  /** A frame cut inside its length: no DISCONNECT bytes after it can make a packet of it. */
  lemma CutInLength(header: byte, body: seq<byte>, k: nat, d: nat)
    requires |body| < 0x1000_0000 && d <= 2 && 0 < k <= |RemainingLength(|body|)|
    ensures !ReadPacket(Frame(header, body)[..k] + DISCONNECT[..d]).Got?
  {
    var code := RemainingLength(|body|);
    var s := Frame(header, body)[..k] + DISCONNECT[..d];
    assert s[1..] == code[..k - 1] + DISCONNECT[..d];
    assert code + [] == code;
    LengthRoundTrip(|body|, []);
    CutInsideDigits(code, 4, k - 1);
    DigitsThenDisconnect(code[..k - 1], d, 4);
  }

  lemma CutBytes(header: byte, code: seq<byte>, body: seq<byte>, k: nat, disc: seq<byte>)
    requires |code| < k <= 1 + |code| + |body|
    ensures ([header] + code + body)[..k] + disc == [header] + (code + (body[..k - 1 - |code|] + disc))
  {
  }

  /** A frame cut in its body and followed by too few bytes is not read. */
  lemma CutInBody(header: byte, body: seq<byte>, k: nat, d: nat)
    requires |body| < 0x1000_0000 && d <= 2
    requires |RemainingLength(|body|)| < k && d < |Frame(header, body)| - k
    ensures !ReadPacket(Frame(header, body)[..k] + DISCONNECT[..d]).Got?
  {
    var code := RemainingLength(|body|);
    var tail := body[..k - 1 - |code|] + DISCONNECT[..d];
    CutBytes(header, code, body, k, DISCONNECT[..d]);
    assert ([header] + (code + tail))[1..] == code + tail;
    LengthRoundTrip(|body|, tail);
  }

  lemma OneByteIsNoPacket(s: seq<byte>)
    requires |s| <= 1
    ensures ReadStream(s).packets == []
  {
  }

  /** The last bytes replaced by those of a DISCONNECT. */
  function PatchTail(s: seq<byte>, lack: nat): (t: seq<byte>)
    requires lack <= 2 && lack <= |s|
    ensures |t| == |s|
  {
    s[..|s| - lack] + DISCONNECT[..lack]
  }

  lemma PatchBytes(header: byte, code: seq<byte>, body: seq<byte>, k: nat, lack: nat, d: nat)
    requires lack <= d <= 2 && lack <= |body| && k + lack == 1 + |code| + |body|
    ensures ([header] + code + body)[..k] + DISCONNECT[..d] == [header] + code + PatchTail(body, lack) + DISCONNECT[lack..d]
  {
  }

  /** A packet counts only when its body is used up. */
  function Whole(p: Read<Packet>): seq<Packet> {
    if p.Got? && p.rest == [] then [p.value] else []
  }

  /** With its last `lack` bytes replaced by those of a DISCONNECT, this body is read as `completed`. */
  predicate CompletesAs(header: byte, body: seq<byte>, lack: int, completed: seq<Packet>) {
    0 < lack <= 2 <= |body| && Whole(ReadBody(header, PatchTail(body, lack))) == completed
  }

  predicate CompletesIfEnough(header: byte, body: seq<byte>, lack: int, d: nat, completed: seq<Packet>) {
    lack > d || CompletesAs(header, body, lack, completed)
  }

  lemma PatchedFrameRead(header: byte, body: seq<byte>, k: nat, lack: nat, d: nat, completed: seq<Packet>)
    requires 2 <= |body| < 0x1000_0000 && |Frame(header, body)| == k + lack && k > 0 && 0 < lack <= d <= 2
    requires CompletesAs(header, body, lack, completed)
    ensures ReadStream(Frame(header, body)[..k] + DISCONNECT[..d]).packets == completed
  {
    var after := DISCONNECT[lack..d];
    PatchBytes(header, RemainingLength(|body|), body, k, lack, d);
    FrameRead(header, PatchTail(body, lack), after);
    OneByteIsNoPacket(after);
  }

  lemma UnpatchedFrameRead(header: byte, body: seq<byte>, k: nat, d: nat)
    requires |body| < 0x1000_0000 && d <= 2 && 0 < k && d < |Frame(header, body)| - k
    ensures ReadStream(Frame(header, body)[..k] + DISCONNECT[..d]).packets == []
  {
    if k <= |RemainingLength(|body|)| {
      CutInLength(header, body, k, d);
    } else {
      CutInBody(header, body, k, d);
    }
  }

  /** What is left to read when `lack` bytes are missing; `completed` is what they would complete. */
  function Leftover(lack: int, taken: nat, disc: nat, completed: seq<Packet>): seq<Packet> {
    if taken == 0 then if disc == 2 then [Disconnect] else []
    else if lack > disc then []
    else completed
  }

  /** A frame cut at any byte and any DISCONNECT bytes after it: exactly these packets are read. */
  lemma CutFrameRead(header: byte, body: seq<byte>, k: nat, lack: nat, d: nat, completed: seq<Packet>)
    requires 2 <= |body| < 0x1000_0000 && d <= 2 && |Frame(header, body)| == k + lack && lack > 0
    requires CompletesIfEnough(header, body, lack, d, completed)
    ensures ReadStream(Frame(header, body)[..k] + DISCONNECT[..d]).packets == Leftover(lack, k, d, completed)
  {
    if k == 0 {
      assert Frame(header, body)[..k] + DISCONNECT[..d] == DISCONNECT[..d];
      DisconnectRead(d);
    } else if lack <= d {
      PatchedFrameRead(header, body, k, lack, d, completed);
    } else {
      UnpatchedFrameRead(header, body, k, d);
    }
  }

  /** When anything is left to read, and when it is a given packet, from the same facts about what is completed. */
  lemma LeftoverWhen(lack: nat, k: nat, d: nat, completed: seq<Packet>, room: nat, own: Packet, ends: bool)
    requires k > 0 && d <= 2
    requires lack <= 2 ==> (completed != [] <==> lack <= room) && (completed == [own] <==> ends)
    ensures Leftover(lack, k, d, completed) != [] <==> lack <= d && lack <= room
    ensures Leftover(lack, k, d, completed) == [own] <==> lack <= d && ends
  {
  }
}
