/**
  The operating system as the publisher sees it. Every answer a call can give is an element of a
  finite script fixed in advance, so a statement about all scripts is a statement about all network
  and broker behaviours of a terminating run. When a script runs out the call fails.
 */
module Network {
  import opened Bytes

  /** `Takes(n)` accepts at most n bytes; `Takes(0)` is a send that returns 0. */
  datatype SendAnswer = Takes(n: nat) | SendInterrupted | SendFails

  /** `Gives([])` is an orderly close by the peer. */
  datatype RecvAnswer = Gives(data: seq<byte>) | RecvInterrupted | RecvFails

  datatype Address = NoSocket | Unreachable | Reachable

  datatype Lookup = Unresolved | Resolved(addresses: seq<Address>)

  /** All that ever happened to one socket. */
  datatype Socket = Socket(open: bool, closes: nat, accepted: seq<byte>, received: seq<byte>)

  /** The scripts still to be used, and every socket ever created; a descriptor is an index. */
  datatype Net = Net(lookups: seq<Lookup>, sends: seq<SendAnswer>, recvs: seq<RecvAnswer>, sockets: seq<Socket>)

  const FRESH_SOCKET := Socket(true, 0, [], [])
  const DEAD_SOCKET := Socket(false, 1, [], [])

  predicate IsOpen(net: Net, fd: int) {
    0 <= fd < |net.sockets| && net.sockets[fd].open
  }

  class Kernel {
    var net: Net

    constructor (net: Net)
      ensures this.net == net
    {
      this.net := net;
    }

    method GetAddrInfo() returns (l: Lookup)
      modifies this
      ensures l == if old(net).lookups == [] then Unresolved else old(net).lookups[0]
      ensures net == old(net).(lookups := if old(net).lookups == [] then [] else old(net).lookups[1..])
    {
      if net.lookups == [] {
        return Unresolved;
      }
      l := net.lookups[0];
      net := net.(lookups := net.lookups[1..]);
    }

    method OpenSocket() returns (fd: int)
      modifies this
      ensures fd == |old(net).sockets| && net == old(net).(sockets := old(net).sockets + [FRESH_SOCKET])
    {
      fd := |net.sockets|;
      net := net.(sockets := net.sockets + [FRESH_SOCKET]);
    }

    method Close(fd: int)
      requires IsOpen(net, fd)
      modifies this
      ensures net == CloseSocket(old(net), fd)
    {
      net := CloseSocket(net, fd);
    }

    /** The result of send(2): the bytes taken, or a negative number with errno. */
    method Send(fd: int, p: seq<byte>) returns (w: int, interrupted: bool)
      requires IsOpen(net, fd)
      requires p != []
      modifies this
      ensures old(net).sends == [] ==> w < 0 && !interrupted && net == old(net)
      ensures old(net).sends != [] ==>
                match old(net).sends[0]
                case SendInterrupted => w < 0 && interrupted && net == Accept(old(net), fd, [], old(net).sends[1..])
                case SendFails => w < 0 && !interrupted && net == Accept(old(net), fd, [], old(net).sends[1..])
                case Takes(n) => w == Min(n, |p|) && !interrupted && net == Accept(old(net), fd, p[..w], old(net).sends[1..])
    {
      if net.sends == [] {
        return -1, false;
      }
      var answer, left := net.sends[0], net.sends[1..];
      match answer {
        case SendInterrupted => w, interrupted := -1, true;
        case SendFails => w, interrupted := -1, false;
        case Takes(n) => w, interrupted := Min(n, |p|), false;
      }
      net := Accept(net, fd, if w > 0 then p[..w] else [], left);
    }

    /** The result of recv(2) for at most n bytes. */
    method Recv(fd: int, n: nat) returns (data: seq<byte>, failed: bool, interrupted: bool)
      requires IsOpen(net, fd)
      requires n > 0
      modifies this
      ensures |data| <= n && (failed ==> data == [])
      ensures old(net).recvs == [] ==> failed && !interrupted && net == old(net)
      ensures old(net).recvs != [] ==>
                && net == Deliver(old(net), fd, data, old(net).recvs[1..])
                && match old(net).recvs[0]
                   case RecvInterrupted => failed && interrupted
                   case RecvFails => failed && !interrupted
                   case Gives(d) => !failed && !interrupted && data == d[..Min(|d|, n)]
    {
      data, failed, interrupted := [], true, false;
      if net.recvs == [] {
        return;
      }
      var answer, left := net.recvs[0], net.recvs[1..];
      match answer {
        case RecvInterrupted => interrupted := true;
        case RecvFails =>
        case Gives(d) => data, failed := d[..Min(|d|, n)], false;
      }
      net := Deliver(net, fd, data, left);
    }
  }

  // ---- the effect of each call on the record ----

  function CloseSocket(net: Net, fd: int): Net
    requires IsOpen(net, fd)
  {
    var s := net.sockets[fd];
    net.(sockets := net.sockets[fd := s.(open := false, closes := s.closes + 1)])
  }

  function Accept(net: Net, fd: int, data: seq<byte>, left: seq<SendAnswer>): Net
    requires IsOpen(net, fd)
  {
    var s := net.sockets[fd];
    net.(sends := left, sockets := net.sockets[fd := s.(accepted := s.accepted + data)])
  }

  function Deliver(net: Net, fd: int, data: seq<byte>, left: seq<RecvAnswer>): Net
    requires IsOpen(net, fd)
  {
    var s := net.sockets[fd];
    net.(recvs := left, sockets := net.sockets[fd := s.(received := s.received + data)])
  }

  lemma AcceptTwice(net: Net, fd: int, a: seq<byte>, b: seq<byte>, l1: seq<SendAnswer>, l2: seq<SendAnswer>)
    requires IsOpen(net, fd)
    ensures Accept(Accept(net, fd, a, l1), fd, b, l2) == Accept(net, fd, a + b, l2)
  {
    var s := net.sockets[fd];
    assert s.accepted + a + b == s.accepted + (a + b);
  }

  lemma DeliverTwice(net: Net, fd: int, a: seq<byte>, b: seq<byte>, l1: seq<RecvAnswer>, l2: seq<RecvAnswer>)
    requires IsOpen(net, fd)
    ensures Deliver(Deliver(net, fd, a, l1), fd, b, l2) == Deliver(net, fd, a + b, l2)
  {
    var s := net.sockets[fd];
    assert s.received + a + b == s.received + (a + b);
  }

  lemma NothingYet(net: Net, fd: int)
    requires IsOpen(net, fd)
    ensures Accept(net, fd, [], net.sends) == net == Deliver(net, fd, [], net.recvs)
  {
    var s := net.sockets[fd];
    assert s.(accepted := s.accepted + []) == s && s.(received := s.received + []) == s;
  }
}
