/** hw5, protocol: sending and receiving packets over robust I/O. */
module PacketProtocol {
  import opened Bytes
  import opened Rio
  import opened Packets

  // ----- Headers in memory

  /** `host_to_network` and `network_to_host`, which do the same on a little-endian host. */
  method SwapFields(h: array<byte>)
    requires h.Length == HEADER_SIZE
    modifies h
    ensures h[..] == Swapped(old(h[..]))
  {
    h[2], h[3] := h[3], h[2];
    h[4], h[5], h[6], h[7] := h[7], h[6], h[5], h[4];
    h[8], h[9], h[10], h[11] := h[11], h[10], h[9], h[8];
  }

  /** `set_time`, for the clock reading `sec`, `nsec`. */
  method SetTime(h: array<byte>, sec: nat, nsec: nat)
    requires h.Length == HEADER_SIZE
    modifies h
    ensures h[..] == Stamped(old(h[..]), sec, nsec)
  {
    var s, n := LittleEndian(sec, 4), LittleEndian(nsec, 4);
    h[4], h[5], h[6], h[7] := s[0], s[1], s[2], s[3];
    h[8], h[9], h[10], h[11] := n[0], n[1], n[2], n[3];
  }

  // ----- Operations

  /** `proto_send_packet`; it leaves the header stamped and in network order. */
  method SendPacket(fd: Sink, hdr: array<byte>, payload: array<byte>, sec: nat, nsec: nat) returns (rc: int)
    requires hdr.Length == HEADER_SIZE && hdr != payload && Size(hdr[..]) <= payload.Length
    modifies fd, hdr
    ensures rc == 0 || rc == -1
    ensures old(hdr[0]) == NO_PKT ==> rc == -1 && fd.sent == old(fd.sent) && hdr[..] == old(hdr[..])
    ensures old(hdr[0]) != NO_PKT ==> hdr[..] == Swapped(Stamped(old(hdr[..]), sec, nsec))
    ensures old(hdr[0]) != NO_PKT ==>
      var sent := Outgoing(old(hdr[..]), payload[..], sec, nsec);
      Sendable(sent) && old(fd.sent) <= fd.sent <= old(fd.sent) + Wire(sent) &&
      (rc == 0 ==> fd.sent == old(fd.sent) + Wire(sent))
    ensures NoHardError(old(fd.schedule)) ==> NoHardError(fd.schedule) && (rc == 0 <==> old(hdr[0]) != NO_PKT)
  {
    if hdr[0] == NO_PKT {
      return -1;
    }
    var psize := Size(hdr[..]);
    ghost var sent := Outgoing(hdr[..], payload[..], sec, nsec);
    StampedFields(hdr[..], sec, nsec);
    SetTime(hdr, sec, nsec);
    SwapFields(hdr);
    assert hdr[..] == Swapped(sent.header);
    var r := RioWriteN(fd, hdr, HEADER_SIZE);
    if r != HEADER_SIZE {
      return -1;
    }
    if psize > 0 {
      r := RioWriteN(fd, payload, psize);
      if r != psize {
        return -1;
      }
    }
    return 0;
  }

  /** The packet that a header and a payload buffer make at a given time. */
  function Outgoing(h: seq<byte>, payload: seq<byte>, sec: nat, nsec: nat): Packet
    requires |h| == HEADER_SIZE && Size(h) <= |payload|
  {
    Packet(Stamped(h, sec, nsec), payload[..Size(h)])
  }

  /** `proto_recv_packet`; the payload is null when it leaves the caller's pointer alone. */
  method RecvPacket(fd: Source, hdr: array<byte>) returns (rc: int, payload: array?<byte>)
    requires hdr.Length == HEADER_SIZE
    modifies fd, hdr
    ensures rc == 0 || rc == -1
    ensures payload != null ==> fresh(payload)
    ensures rc == 0 ==>
      Receive(old(hdr[..]), old(fd.stream)) == Received(Packet(hdr[..], Contents(payload)), fd.stream)
    ensures rc == -1 && NoHardError(old(fd.schedule)) ==>
      Receive(old(hdr[..]), old(fd.stream)) == Refused(hdr[..], fd.stream)
    ensures NoHardError(old(fd.schedule)) ==> NoHardError(fd.schedule)
  {
    payload := null;
    ghost var s := fd.stream;
    var r := RioReadN(fd, hdr, HEADER_SIZE);
    if r < 0 {
      return -1, payload;
    }
    SwapFields(hdr);
    if hdr[0] == NO_PKT {
      return -1, payload;
    }
    var psize := Size(hdr[..]);
    if psize > 0 {
      payload := new byte[psize];
      r := RioReadN(fd, payload, psize);
      if r != psize {
        return -1, payload;
      }
    }
    return 0, payload;
  }

  function Contents(a: array?<byte>): seq<byte>
    reads a
  {
    if a == null then [] else a[..]
  }

  // ----- Conversations

  /** A packet as it stands when sent at the given time. */
  function Stamp(p: Packet, time: (nat, nat)): (r: Packet)
    requires Sendable(p)
    ensures Sendable(r) && r == Outgoing(p.header, p.payload, time.0, time.1)
  {
    StampedFields(p.header, time.0, time.1);
    Packet(Stamped(p.header, time.0, time.1), p.payload)
  }

  function StampAll(ps: seq<Packet>, times: seq<(nat, nat)>): (r: seq<Packet>)
    requires AllSendable(ps) && |times| == |ps|
    ensures AllSendable(r) && |r| == |ps|
  {
    if ps == [] then [] else [Stamp(ps[0], times[0])] + StampAll(ps[1..], times[1..])
  }

  method Store(s: seq<byte>) returns (a: array<byte>)
    ensures fresh(a) && a[..] == s
  {
    a := new byte[|s|](i requires 0 <= i < |s| => s[i]);
  }

  method SendOne(fd: Sink, p: Packet, time: (nat, nat))
    requires Sendable(p) && NoHardError(fd.schedule)
    modifies fd
    ensures fd.sent == old(fd.sent) + Wire(Stamp(p, time)) && NoHardError(fd.schedule)
  {
    var hdr := Store(p.header);
    var payload := Store(p.payload);
    var rc := SendPacket(fd, hdr, payload, time.0, time.1);
  }

  lemma FirstWire(ps: seq<Packet>, times: seq<(nat, nat)>)
    requires AllSendable(ps) && |times| == |ps| > 0
    ensures Wires(StampAll(ps, times)) == Wire(Stamp(ps[0], times[0])) + Wires(StampAll(ps[1..], times[1..]))
  {
    var all := StampAll(ps, times);
    assert all[0] == Stamp(ps[0], times[0]) && all[1..] == StampAll(ps[1..], times[1..]);
  }

  method SendAll(fd: Sink, ps: seq<Packet>, times: seq<(nat, nat)>)
    requires AllSendable(ps) && |times| == |ps| && NoHardError(fd.schedule)
    modifies fd
    ensures fd.sent == old(fd.sent) + Wires(StampAll(ps, times))
    decreases |ps|
  {
    if ps != [] {
      FirstWire(ps, times);
      SendOne(fd, ps[0], times[0]);
      SendAll(fd, ps[1..], times[1..]);
    }
  }

  /** A receiver that uses one header buffer for up to `n` packets, whatever it holds at first, until one is refused. */
  method ReceiveAll(fd: Source, hdr: array<byte>, n: nat) returns (got: seq<Packet>, refused: bool)
    requires hdr.Length == HEADER_SIZE && NoHardError(fd.schedule)
    modifies fd, hdr
    ensures Delivery(got, refused, hdr[..], fd.stream) == ReceiveUpTo(old(hdr[..]), old(fd.stream), n)
    decreases n
  {
    if n == 0 {
      return [], false;
    }
    ghost var stale, s := hdr[..], fd.stream;
    var rc, payload := RecvPacket(fd, hdr);
    if rc != 0 {
      return [], true;
    }
    var first := Packet(hdr[..], Contents(payload));
    ghost var rest := fd.stream;
    var others;
    others, refused := ReceiveAll(fd, hdr, n - 1);
    FirstDelivered(stale, s, n, first, rest, n - 1, Delivery(others, refused, hdr[..], fd.stream));
    got := [first] + others;
  }

  /** What is sent is what arrives, for every way the two ends split and interrupt their calls. */
  method Conversation(ps: seq<Packet>, times: seq<(nat, nat)>, sending: Schedule, receiving: Schedule, stale: seq<byte>)
    returns (got: seq<Packet>)
    requires AllSendable(ps) && |times| == |ps| && |stale| == HEADER_SIZE
    requires NoHardError(sending) && NoHardError(receiving)
    ensures got == StampAll(ps, times)
  {
    var out := new Sink(sending);
    SendAll(out, ps, times);
    assert out.sent == Wires(StampAll(ps, times)) + [];
    ghost var sent := StampAll(ps, times);
    ReceiveWires(stale, sent, [], |ps|, 0, Delivery([], false, LastHeader(stale, sent), []));
    var inp := new Source(out.sent, receiving);
    var hdr := Store(stale);
    var refused;
    got, refused := ReceiveAll(inp, hdr, |ps|);
  }
}
