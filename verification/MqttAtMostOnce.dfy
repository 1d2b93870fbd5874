/**
  At most once (MQTT 3.1.1 section 4.3.1): the bytes of every socket are split into spans, each owned by
  the handshake, by one publish call or by the DISCONNECT, and the spans of a call are counted.
 */
module MqttAtMostOnce {
  import opened Bytes
  import opened MqttWire
  import opened MqttStreamProofs
  import opened Network
  import opened MqttSession
  import opened MqttSessionProofs

  datatype Owner = Handshake | ForCall(k: nat) | Goodbye

  datatype Span = Span(owner: Owner, bytes: seq<byte>)

  function SpanBytes(spans: seq<Span>): seq<byte> {
    if spans == [] then [] else SpanBytes(spans[..|spans| - 1]) + spans[|spans| - 1].bytes
  }

  /** The frames of the calls that returned true on socket c. */
  function CallSpans(log: seq<Call>, c: int): seq<Span> {
    if log == [] then []
    else
      var n := |log| - 1;
      CallSpans(log[..n], c) + if log[n].ok && log[n].conn == c then [Span(ForCall(n), PublishFrame(log[n].msg))] else []
  }

  function Spans(opt: Options, log: seq<Call>, c: int, e: Ending): seq<Span>
    requires EndingInLog(opt, log, e)
  {
    var greeted := [Span(Handshake, ConnectFrame(opt))] + CallSpans(log, c);
    match e
    case Live => greeted
    case NeverUp => []
    case Over(Asked, disc) => greeted + [Span(Goodbye, DISCONNECT[..disc])]
    case Over(ConnectCut(taken), disc) => [Span(Handshake, ConnectFrame(opt)[..taken]), Span(Goodbye, DISCONNECT[..disc])]
    case Over(NotAccepted, disc) => [Span(Handshake, ConnectFrame(opt)), Span(Goodbye, DISCONNECT[..disc])]
    case Over(PublishCut(k, taken), disc) =>
      greeted + [Span(ForCall(k), PublishFrame(log[k].msg)[..taken])] + [Span(Goodbye, DISCONNECT[..disc])]
  }

  lemma BytesNext(spans: seq<Span>, x: Span)
    ensures SpanBytes(spans + [x]) == SpanBytes(spans) + x.bytes
  {
    assert (spans + [x])[..|spans|] == spans;
  }

  lemma {:induction false} BytesOfFirst(x: Span, spans: seq<Span>)
    ensures SpanBytes([x] + spans) == x.bytes + SpanBytes(spans)
    decreases |spans|
  {
    if spans == [] {
      assert [x] + [] == [] + [x];
      BytesNext([], x);
    } else {
      var n := |spans| - 1;
      var before, last := spans[..n], spans[n];
      BytesOfFirst(x, before);
      BytesNext([x] + before, last);
      BytesNext(before, last);
      assert spans == before + [last] && [x] + spans == ([x] + before) + [last];
      AppendTail(x.bytes, SpanBytes(before), last.bytes);
    }
  }

  lemma {:induction false} CallSpanBytes(log: seq<Call>, c: int)
    ensures SpanBytes(CallSpans(log, c)) == PublishFrames(Delivered(log, c))
  {
    if log != [] {
      var n := |log| - 1;
      CallSpanBytes(log[..n], c);
      if log[n].ok && log[n].conn == c {
        BytesNext(CallSpans(log[..n], c), Span(ForCall(n), PublishFrame(log[n].msg)));
        PublishFramesAppend(Delivered(log[..n], c), log[n].msg);
      } else {
        assert CallSpans(log, c) == CallSpans(log[..n], c) && Delivered(log, c) == Delivered(log[..n], c);
      }
    }
  }

  lemma GreetedSpans(opt: Options, log: seq<Call>, c: int)
    ensures SpanBytes([Span(Handshake, ConnectFrame(opt))] + CallSpans(log, c)) == Greeted(opt, log, c)
  {
    BytesOfFirst(Span(Handshake, ConnectFrame(opt)), CallSpans(log, c));
    CallSpanBytes(log, c);
  }

  /** The spans account for every byte of the socket. */
  lemma SpansAreTheWire(opt: Options, log: seq<Call>, c: int, e: Ending)
    requires EndingInLog(opt, log, e)
    ensures SpanBytes(Spans(opt, log, c, e)) == Wire(opt, log, c, e)
  {
    GreetedSpans(opt, log, c);
    var greeted := [Span(Handshake, ConnectFrame(opt))] + CallSpans(log, c);
    match e
    case Live =>
    case NeverUp =>
    case Over(Asked, disc) =>
      BytesNext(greeted, Span(Goodbye, DISCONNECT[..disc]));
    case Over(ConnectCut(taken), disc) =>
      TwoSpans(Span(Handshake, ConnectFrame(opt)[..taken]), Span(Goodbye, DISCONNECT[..disc]));
    case Over(NotAccepted, disc) =>
      TwoSpans(Span(Handshake, ConnectFrame(opt)), Span(Goodbye, DISCONNECT[..disc]));
    case Over(PublishCut(k, taken), disc) =>
      var x := Span(ForCall(k), PublishFrame(log[k].msg)[..taken]);
      BytesNext(greeted, x);
      BytesNext(greeted + [x], Span(Goodbye, DISCONNECT[..disc]));
  }

  lemma TwoSpans(x: Span, y: Span)
    ensures SpanBytes([x, y]) == x.bytes + y.bytes
  {
    BytesNext([], x);
    assert [x, y] == [] + [x] + [y];
    BytesNext([] + [x], y);
  }

  /** Span j of socket c carries bytes of call k. */
  predicate Carries(spans: seq<Span>, j: int, k: nat) {
    0 <= j < |spans| && spans[j].owner == ForCall(k)
  }

  lemma {:induction false} CallSpanOwners(log: seq<Call>, c: int, j: int, k: nat)
    requires Carries(CallSpans(log, c), j, k)
    ensures k < |log| && log[k].ok && log[k].conn == c
    ensures CallSpans(log, c)[j].bytes == PublishFrame(log[k].msg)
    ensures forall i :: Carries(CallSpans(log, c), i, k) ==> i == j
  {
    var n := |log| - 1;
    var before := CallSpans(log[..n], c);
    if j < |before| {
      CallSpanOwners(log[..n], c, j, k);
      assert log[..n][k] == log[k];
      forall i | Carries(CallSpans(log, c), i, k)
        ensures i == j
      {
        assert i < |before| ==> Carries(before, i, k);
      }
    } else {
      forall i | Carries(CallSpans(log, c), i, k)
        ensures i == j
      {
        if i < |before| {
          CallSpanOwners(log[..n], c, i, k);
        }
      }
    }
  }

  lemma {:induction false} CallSpanExists(log: seq<Call>, c: int, k: nat) returns (j: int)
    requires k < |log| && log[k].ok && log[k].conn == c
    ensures Carries(CallSpans(log, c), j, k)
  {
    var n := |log| - 1;
    if k == n {
      j := |CallSpans(log[..n], c)|;
    } else {
      j := CallSpanExists(log[..n], c, k);
    }
  }

  /** A span that carries call k is one of the delivered ones, or the frame that was cut. */
  lemma SpanAt(opt: Options, log: seq<Call>, c: int, e: Ending, i: int, k: nat)
    requires EndingInLog(opt, log, e) && Carries(Spans(opt, log, c, e), i, k)
    ensures var spans, calls := Spans(opt, log, c, e), CallSpans(log, c);
            || (1 <= i <= |calls| && spans[i] == calls[i - 1])
            || (e.Over? && e.cause.PublishCut? && e.cause.call == k && i == 1 + |calls|
                && spans[i].bytes == PublishFrame(log[k].msg)[..e.cause.taken])
  {
  }

  lemma DeliveredSpan(opt: Options, log: seq<Call>, c: int, e: Ending, received: seq<byte>, i: int, k: nat)
    requires EndingInLog(opt, log, e) && EndingFits(log, c, e, received) && Carries(Spans(opt, log, c, e), i, k)
    ensures k < |log| && log[k].conn == c
    ensures log[k].ok ==> Carries(CallSpans(log, c), i - 1, k) && Spans(opt, log, c, e)[i].bytes == PublishFrame(log[k].msg)
    ensures !log[k].ok ==> i == 1 + |CallSpans(log, c)| && Spans(opt, log, c, e)[i].bytes < PublishFrame(log[k].msg)
  {
    SpanAt(opt, log, c, e, i, k);
    if 1 <= i <= |CallSpans(log, c)| && Spans(opt, log, c, e)[i] == CallSpans(log, c)[i - 1] {
      CallSpanOwners(log, c, i - 1, k);
    }
  }

  lemma SpanOwners(opt: Options, log: seq<Call>, c: int, e: Ending, received: seq<byte>, j: int, k: nat)
    requires EndingInLog(opt, log, e) && EndingFits(log, c, e, received) && Carries(Spans(opt, log, c, e), j, k)
    ensures k < |log| && log[k].conn == c
    ensures var bytes := Spans(opt, log, c, e)[j].bytes; var frame := PublishFrame(log[k].msg);
            if log[k].ok then bytes == frame else bytes < frame
    ensures forall i :: Carries(Spans(opt, log, c, e), i, k) ==> i == j
  {
    DeliveredSpan(opt, log, c, e, received, j, k);
    forall i | Carries(Spans(opt, log, c, e), i, k)
      ensures i == j
    {
      DeliveredSpan(opt, log, c, e, received, i, k);
      if log[k].ok {
        CallSpanOwners(log, c, j - 1, k);
      }
    }
  }

  lemma DeliveredPlaced(opt: Options, log: seq<Call>, c: int, e: Ending, received: seq<byte>, j: int, k: nat)
    requires EndingInLog(opt, log, e) && EndingFits(log, c, e, received)
    requires k < |log| && log[k].conn == c && Carries(CallSpans(log, c), j, k)
    ensures Carries(Spans(opt, log, c, e), j + 1, k)
  {
  }

  function SpansOf(opt: Options, s: Session, c: int): seq<Span> {
    if 0 <= c < |s.endings| && EndingInLog(opt, s.log, s.endings[c]) then Spans(opt, s.log, c, s.endings[c]) else []
  }

  predicate Placed(opt: Options, s: Session, c: int, j: int, k: nat) {
    0 <= c < |s.endings| && Carries(SpansOf(opt, s, c), j, k)
  }

  /** Span j of socket c is the only one that carries call k: its whole frame, or a part of it if the call failed. */
  ghost predicate OnlyPlace(opt: Options, s: Session, c: int, j: int, k: nat)
    requires Placed(opt, s, c, j, k) && k < |s.log|
  {
    && c == s.log[k].conn
    && (forall i :: Placed(opt, s, c, i, k) ==> i == j)
    && var bytes := SpansOf(opt, s, c)[j].bytes; var frame := PublishFrame(s.log[k].msg);
       if s.log[k].ok then bytes == frame else bytes < frame
  }

  lemma PlacedOnce(opt: Options, s: Session, c: int, j: int, k: nat)
    requires Consistent(opt, s) && k < |s.log| && Placed(opt, s, c, j, k)
    ensures OnlyPlace(opt, s, c, j, k)
  {
    assert SocketFits(opt, s, c);
    SpanOwners(opt, s.log, c, s.endings[c], s.net.sockets[c].received, j, k);
  }

  lemma PlacedIfSent(opt: Options, s: Session, k: nat) returns (j: int)
    requires Consistent(opt, s) && k < |s.log| && s.log[k].ok
    ensures Placed(opt, s, s.log[k].conn, j, k)
  {
    var c := s.log[k].conn;
    assert CallFits(s, k);
    assert SocketFits(opt, s, c);
    j := CallSpanExists(s.log, c, k);
    DeliveredPlaced(opt, s.log, c, s.endings[c], s.net.sockets[c].received, j, k);
    j := j + 1;
  }

  /**
    A call that returned true has its whole frame on one socket, once, and no bytes on any other.
    A call that returned false has at most a proper prefix of its frame, in one place.
   */
  lemma AtMostOnce(opt: Options, s: Session, ops: seq<Op>, k: nat)
    requires Initial(s) && k < |Run(opt, s, ops).log|
    ensures var t := Run(opt, s, ops);
            && (t.log[k].ok ==> exists c, j :: Placed(opt, t, c, j, k))
            && (forall c, j :: Placed(opt, t, c, j, k) ==> OnlyPlace(opt, t, c, j, k))
  {
    var t := Run(opt, s, ops);
    RunKeeps(opt, s, ops);
    if t.log[k].ok {
      var j := PlacedIfSent(opt, t, k);
    }
    forall c, j | Placed(opt, t, c, j, k)
      ensures OnlyPlace(opt, t, c, j, k)
    {
      PlacedOnce(opt, t, c, j, k);
    }
  }

  /** Over every run the spans of a socket are exactly the bytes it accepted. */
  lemma SpansAccountForSocket(opt: Options, s: Session, ops: seq<Op>, c: int)
    requires Initial(s) && 0 <= c < |Run(opt, s, ops).net.sockets|
    ensures var t := Run(opt, s, ops); SpanBytes(SpansOf(opt, t, c)) == t.net.sockets[c].accepted
  {
    RunKeeps(opt, s, ops);
    var t := Run(opt, s, ops);
    assert SocketFits(opt, t, c);
    SpansAreTheWire(opt, t.log, c, t.endings[c]);
  }
}
