/**
  The session machine as a function of its state: what each call of the publisher does to its
  descriptor, to the sockets, and to the record of publish calls. `log` and `endings` are history:
  the program does not keep them.
 */
module MqttSession {
  import opened Bytes
  import opened MqttWire
  import opened Network

  /** A finished publish call; `conn` is the socket it was sent on, or -1. */
  datatype Call = Call(msg: Message, ok: bool, conn: int)

  /** Why a socket was closed: on request, or after a short CONNECT, a bad CONNACK or a short PUBLISH. */
  datatype Cause = Asked | ConnectCut(taken: nat) | NotAccepted | PublishCut(call: nat, taken: nat)

  /** What became of a socket; `disc` counts the DISCONNECT bytes that went out before the close. */
  datatype Ending = Live | NeverUp | Over(cause: Cause, disc: nat)

  datatype Session = Session(fd: int, net: Net, log: seq<Call>, endings: seq<Ending>)

  datatype Op = DoConnect | DoPublish(msg: Message) | DoDisconnect

  // ---- sending and receiving ----

  datatype Sent = Sent(taken: nat, left: seq<SendAnswer>)

  /** How far a send loop over n bytes gets with a script, and what it leaves of the script. */
  function SendPlan(sends: seq<SendAnswer>, n: nat): (r: Sent)
    ensures r.taken <= n
  {
    if n == 0 || sends == [] then Sent(0, sends)
    else
      match sends[0]
      case SendInterrupted => SendPlan(sends[1..], n)
      case SendFails => Sent(0, sends[1..])
      case Takes(k) =>
        if k == 0 then Sent(0, sends[1..])
        else
          var w := Min(k, n);
          var r := SendPlan(sends[1..], n - w);
          Sent(w + r.taken, r.left)
  }

  function SendAll(net: Net, fd: int, p: seq<byte>): Net
    requires IsOpen(net, fd)
  {
    var plan := SendPlan(net.sends, |p|);
    Accept(net, fd, p[..plan.taken], plan.left)
  }

  predicate SendsAll(net: Net, p: seq<byte>) {
    SendPlan(net.sends, |p|).taken == |p|
  }

  datatype Heard = Heard(data: seq<byte>, left: seq<RecvAnswer>)

  function RecvPlan(recvs: seq<RecvAnswer>, n: nat): (r: Heard)
    ensures |r.data| <= n
  {
    if n == 0 || recvs == [] then Heard([], recvs)
    else
      match recvs[0]
      case RecvInterrupted => RecvPlan(recvs[1..], n)
      case RecvFails => Heard([], recvs[1..])
      case Gives(d) =>
        if d == [] then Heard([], recvs[1..])
        else
          var got := d[..Min(|d|, n)];
          var r := RecvPlan(recvs[1..], n - |got|);
          Heard(got + r.data, r.left)
  }

  /** CONNACK, section 3.2: type 2, length 2, any session-present byte, return code 0. */
  predicate Accepting(ack: seq<byte>) {
    |ack| == 4 && ack[0] == 0x20 && ack[1] == 0x02 && ack[3] == 0x00
  }

  // ---- dialling ----

  /** The sockets a walk over the addresses creates: all but a last, reachable one are closed again. */
  function Dialled(addresses: seq<Address>): seq<Socket> {
    if addresses == [] then []
    else
      match addresses[0]
      case NoSocket => Dialled(addresses[1..])
      case Unreachable => [DEAD_SOCKET] + Dialled(addresses[1..])
      case Reachable => [FRESH_SOCKET]
  }

  lemma {:induction false} DialledShape(addresses: seq<Address>)
    ensures var r := Dialled(addresses);
            && (forall i :: 0 <= i < |r| - 1 ==> r[i] == DEAD_SOCKET)
            && (r != [] ==> r[|r| - 1] == if Reachable in addresses then FRESH_SOCKET else DEAD_SOCKET)
            && (Reachable in addresses ==> r != [])
  {
    if addresses != [] {
      DialledShape(addresses[1..]);
      assert addresses == [addresses[0]] + addresses[1..];
    }
  }

  function DialledEndings(addresses: seq<Address>): seq<Ending> {
    seq(|Dialled(addresses)|, i requires 0 <= i < |Dialled(addresses)| => if Dialled(addresses)[i].open then Live else NeverUp)
  }

  function Dial(s: Session): (t: Session)
    ensures t.fd >= 0 ==> IsOpen(t.net, t.fd)
  {
    if s.net.lookups == [] then s.(fd := -1)
    else
      var net := s.net.(lookups := s.net.lookups[1..]);
      match s.net.lookups[0]
      case Unresolved => s.(fd := -1, net := net)
      case Resolved(addresses) =>
        DialledShape(addresses);
        var sockets := s.net.sockets + Dialled(addresses);
        s.(fd := if Reachable in addresses then |sockets| - 1 else -1,
           net := net.(sockets := sockets),
           endings := s.endings + DialledEndings(addresses))
  }

  // ---- the calls ----

  predicate Usable(s: Session) {
    |s.endings| == |s.net.sockets| && (s.fd >= 0 ==> IsOpen(s.net, s.fd))
  }

  /** Best-effort DISCONNECT, then close. */
  function HangUp(s: Session, cause: Cause): (t: Session)
    requires Usable(s)
    ensures Usable(t) && t.fd < 0
  {
    if s.fd < 0 then s
    else
      var disc := SendPlan(s.net.sends, 2).taken;
      var net := CloseSocket(SendAll(s.net, s.fd, DISCONNECT), s.fd);
      Session(-1, net, s.log, s.endings[s.fd := Over(cause, disc)])
  }

  /** CONNECT on a freshly dialled socket, and the wait for its acknowledgement. */
  function Greet(opt: Options, s: Session): (r: (Session, bool))
    requires Usable(s) && s.fd >= 0
    ensures Usable(r.0) && (r.1 <==> r.0.fd >= 0)
  {
    var frame := ConnectFrame(opt);
    var sent := s.(net := SendAll(s.net, s.fd, frame));
    if !SendsAll(s.net, frame) then (HangUp(sent, ConnectCut(SendPlan(s.net.sends, |frame|).taken)), false)
    else
      var heard := RecvPlan(sent.net.recvs, 4);
      var answered := sent.(net := Deliver(sent.net, s.fd, heard.data, heard.left));
      if Accepting(heard.data) then (answered, true) else (HangUp(answered, NotAccepted), false)
  }

  function Connect(opt: Options, s: Session): (r: (Session, bool))
    requires Usable(s)
    ensures Usable(r.0) && (r.1 <==> r.0.fd >= 0)
  {
    var dialled := Dial(HangUp(s, Asked));
    if dialled.fd < 0 then (dialled, false) else Greet(opt, dialled)
  }

  /** A publish call that has a connection. */
  function Transmit(s: Session, m: Message): (r: (Session, bool))
    requires Usable(s) && s.fd >= 0
    ensures Usable(r.0) && (r.1 <==> r.0.fd >= 0)
  {
    var frame := PublishFrame(m);
    var ok := SendsAll(s.net, frame);
    var sent := s.(net := SendAll(s.net, s.fd, frame), log := s.log + [Call(m, ok, s.fd)]);
    if ok then (sent, true) else (HangUp(sent, PublishCut(|s.log|, SendPlan(s.net.sends, |frame|).taken)), false)
  }

  function Publish(opt: Options, s: Session, m: Message): (r: (Session, bool))
    requires Usable(s)
    ensures Usable(r.0) && (r.1 <==> r.0.fd >= 0)
  {
    var (up, ok) := if s.fd >= 0 then (s, true) else Connect(opt, s);
    if ok then Transmit(up, m) else (up.(log := up.log + [Call(m, false, -1)]), false)
  }

  function Step(opt: Options, s: Session, op: Op): (t: Session)
    requires Usable(s)
    ensures Usable(t)
  {
    match op
    case DoConnect => Connect(opt, s).0
    case DoPublish(m) => Publish(opt, s, m).0
    case DoDisconnect => HangUp(s, Asked)
  }

  function Run(opt: Options, s: Session, ops: seq<Op>): (t: Session)
    requires Usable(s)
    ensures Usable(t)
    decreases |ops|
  {
    if ops == [] then s else Run(opt, Step(opt, s, ops[0]), ops[1..])
  }

  /** A publisher before its first call, on a machine with any scripts and no sockets yet. */
  predicate Initial(s: Session) {
    s.fd == -1 && s.net.sockets == [] && s.log == [] && s.endings == []
  }
}
