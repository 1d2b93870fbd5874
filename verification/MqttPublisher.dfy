/** The publisher: the source's methods, each proved to do what the session machine says. */
module MqttPublisher {
  import opened Bytes
  import opened MqttWire
  import opened Network
  import S = MqttSession

  class Publisher {
    const opt: Options
    const kernel: Kernel
    var fd: int
    ghost var log: seq<S.Call>
    ghost var endings: seq<S.Ending>

    ghost function State(): S.Session
      reads this, kernel
    {
      S.Session(fd, kernel.net, log, endings)
    }

    ghost predicate Valid()
      reads this, kernel
    {
      S.Usable(State()) && fd >= -1
    }

    constructor (opt: Options, kernel: Kernel)
      requires kernel.net.sockets == []
      ensures Valid() && S.Initial(State()) && this.opt == opt && this.kernel == kernel
    {
      this.opt := opt;
      this.kernel := kernel;
      fd := -1;
      log, endings := [], [];
    }

    method SendAll(p: seq<byte>) returns (ok: bool)
      requires IsOpen(kernel.net, fd)
      modifies kernel
      ensures kernel.net == S.SendAll(old(kernel.net), fd, p)
      ensures ok == S.SendsAll(old(kernel.net), p)
    {
      ghost var before := kernel.net;
      ghost var plan := S.SendPlan(before.sends, |p|);
      NothingYet(before, fd);
      var off := 0;
      assert p[..0] == [];
      while off < |p|
        invariant 0 <= off <= |p| && IsOpen(kernel.net, fd)
        invariant kernel.net == Accept(before, fd, p[..off], kernel.net.sends)
        invariant plan == S.Sent(off + S.SendPlan(kernel.net.sends, |p| - off).taken, S.SendPlan(kernel.net.sends, |p| - off).left)
        decreases |p| - off, |kernel.net.sends|
      {
        ghost var sends := kernel.net.sends;
        var w, interrupted := kernel.Send(fd, p[off..]);
        AcceptTwice(before, fd, p[..off], if w > 0 then p[off..][..w] else [], sends, kernel.net.sends);
        assert p[..off] + [] == p[..off];
        if w <= 0 {
          if w < 0 && interrupted {
            continue;
          }
          return false;
        }
        assert p[..off] + p[off..][..w] == p[..off + w];
        off := off + w;
      }
      return true;
    }

    method RecvExact(p: array<byte>, n: nat) returns (ok: bool)
      requires IsOpen(kernel.net, fd)
      requires n <= p.Length
      modifies kernel, p
      ensures var heard := S.RecvPlan(old(kernel.net).recvs, n);
              && kernel.net == Deliver(old(kernel.net), fd, heard.data, heard.left)
              && ok == (|heard.data| == n)
              && (ok ==> p[..n] == heard.data)
    {
      ghost var before := kernel.net;
      ghost var plan := S.RecvPlan(before.recvs, n);
      NothingYet(before, fd);
      var off := 0;
      assert p[..0] == [];
      while off < n
        invariant 0 <= off <= n && IsOpen(kernel.net, fd)
        invariant kernel.net == Deliver(before, fd, p[..off], kernel.net.recvs)
        invariant plan == S.Heard(p[..off] + S.RecvPlan(kernel.net.recvs, n - off).data, S.RecvPlan(kernel.net.recvs, n - off).left)
        decreases n - off, |kernel.net.recvs|
      {
        ghost var recvs := kernel.net.recvs;
        var data, failed, interrupted := kernel.Recv(fd, n - off);
        DeliverTwice(before, fd, p[..off], data, recvs, kernel.net.recvs);
        assert p[..off] + [] == p[..off];
        if failed || data == [] {
          if interrupted {
            continue;
          }
          return false;
        }
        ghost var had := p[..off];
        forall i | 0 <= i < |data| {
          p[off + i] := data[i];
        }
        off := off + |data|;
        assert p[..off] == had + data;
      }
      assert p[..off] + [] == p[..off];
      return true;
    }

    method Disconnect(ghost cause: S.Cause := S.Asked)
      requires Valid()
      modifies this, kernel
      ensures Valid() && State() == S.HangUp(old(State()), cause)
    {
      if fd >= 0 {
        ghost var disc := S.SendPlan(kernel.net.sends, 2).taken;
        var sent := SendAll(DISCONNECT);
        kernel.Close(fd);
        endings := endings[fd := S.Over(cause, disc)];
        fd := -1;
      }
    }

    /** Walks the addresses until one answers, closing the sockets that did not. */
    method WalkAddresses(addresses: seq<Address>) returns (found: int)
      modifies kernel
      ensures kernel.net == old(kernel.net).(sockets := old(kernel.net).sockets + S.Dialled(addresses))
      ensures found == if Reachable in addresses then |kernel.net.sockets| - 1 else -1
    {
      found := -1;
      ghost var before, made := kernel.net.sockets, [];
      var i := 0;
      while i < |addresses|
        invariant 0 <= i <= |addresses| && found == -1
        invariant S.Dialled(addresses) == made + S.Dialled(addresses[i..])
        invariant kernel.net == old(kernel.net).(sockets := before + made)
        invariant Reachable !in addresses[..i]
      {
        var address := addresses[i];
        assert addresses[i..][0] == address && addresses[i..][1..] == addresses[i + 1..];
        i := i + 1;
        if address.NoSocket? {
          continue;
        }
        found := kernel.OpenSocket();
        if address.Reachable? {
          assert before + made + [FRESH_SOCKET] == before + (made + [FRESH_SOCKET]);
          return;
        }
        kernel.Close(found);
        made := made + [DEAD_SOCKET];
        assert kernel.net.sockets == before + made;
        found := -1;
      }
      assert made + [] == made;
    }

    method Dial() returns (found: int)
      requires Valid() && fd < 0
      modifies this, kernel
      ensures fd == old(fd) && log == old(log)
      ensures S.Session(found, kernel.net, log, endings) == S.Dial(old(State()))
    {
      var lookup := kernel.GetAddrInfo();
      if lookup.Unresolved? {
        return -1;
      }
      found := WalkAddresses(lookup.addresses);
      endings := endings + S.DialledEndings(lookup.addresses);
    }

    method Connect() returns (ok: bool)
      requires Valid()
      modifies this, kernel
      ensures Valid() && (State(), ok) == S.Connect(opt, old(State()))
    {
      Disconnect();
      var found := Dial();
      if found < 0 {
        return false;
      }
      fd := found;
      ok := Greet();
    }

    /** The MQTT half of connect: CONNECT out, CONNACK in. */
    method Greet() returns (ok: bool)
      requires Valid() && fd >= 0
      modifies this, kernel
      ensures Valid() && (State(), ok) == S.Greet(opt, old(State()))
    {
      ghost var sends := kernel.net.sends;
      var pkt := BuildConnect(opt);
      var sent := SendAll(pkt.data);
      if !sent {
        Disconnect(S.ConnectCut(S.SendPlan(sends, |pkt.data|).taken));
        return false;
      }
      var ack := new byte[4];
      var heard := RecvExact(ack, 4);
      if !heard {
        Disconnect(S.NotAccepted);
        return false;
      }
      assert ack[..4] == ack[..];
      if ack[0] != 0x20 || ack[1] != 0x02 || ack[3] != 0x00 {
        Disconnect(S.NotAccepted);
        return false;
      }
      return true;
    }

    method EnsureConnected() returns (ok: bool)
      requires Valid()
      modifies this, kernel
      ensures Valid() && (State(), ok) == if old(fd) >= 0 then (old(State()), true) else S.Connect(opt, old(State()))
    {
      if fd >= 0 {
        return true;
      }
      ok := Connect();
    }

    method Publish(m: Message) returns (ok: bool)
      requires Valid()
      modifies this, kernel
      ensures Valid() && (State(), ok) == S.Publish(opt, old(State()), m)
    {
      var up := EnsureConnected();
      if !up {
        log := log + [S.Call(m, false, -1)];
        return false;
      }
      ghost var sends, k := kernel.net.sends, |log|;
      var pkt := BuildPublish(m);
      var sent := SendAll(pkt.data);
      log := log + [S.Call(m, sent, fd)];
      if !sent {
        Disconnect(S.PublishCut(k, S.SendPlan(sends, |pkt.data|).taken));
        return false;
      }
      return true;
    }
  }

  /** Any program that uses a publisher: it makes the calls in order, then destroys it. */
  method Use(p: Publisher, ops: seq<S.Op>)
    requires p.Valid()
    modifies p, p.kernel
    ensures p.Valid() && p.State() == S.HangUp(S.Run(p.opt, old(p.State()), ops), S.Asked)
  {
    var i := 0;
    while i < |ops|
      invariant 0 <= i <= |ops| && p.Valid()
      invariant S.Run(p.opt, p.State(), ops[i..]) == S.Run(p.opt, old(p.State()), ops)
    {
      assert ops[i..][0] == ops[i] && ops[i..][1..] == ops[i + 1..];
      match ops[i] {
        case DoConnect => var ok := p.Connect();
        case DoPublish(m) => var ok := p.Publish(m);
        case DoDisconnect => p.Disconnect();
      }
      i := i + 1;
    }
    p.Disconnect();
  }
}
