/** hw5, protocol: packets as memory and as bytes on the wire. The host is little-endian. */
module Packets {
  import opened Bytes
  import opened Integers
  import opened Rio

  /** Size of the header in memory: type, one byte of padding, size, seconds, nanoseconds. */
  const HEADER_SIZE := 12
  const NO_PKT: byte := 0

  /** A header as the host keeps it, and what goes with it. */
  datatype Packet = Packet(header: seq<byte>, payload: seq<byte>)

  predicate Sendable(p: Packet) {
    |p.header| == HEADER_SIZE && p.header[0] != NO_PKT && |p.payload| == Size(p.header)
  }

  function LittleEndian(v: nat, n: nat): (r: seq<byte>)
    ensures |r| == n
  {
    seq(n, i requires 0 <= i < n => Digit(v, i))
  }

  /** A number whose lowest byte is `low`. */
  function Word(low: int, high: int): int {
    low + 256 * high
  }

  /** The payload size field of a header in host order. */
  function Size(h: seq<byte>): nat
    requires |h| == HEADER_SIZE
  {
    Word(h[2], h[3])
  }

  function Seconds(h: seq<byte>): nat
    requires |h| == HEADER_SIZE
  {
    Word(h[4], Word(h[5], Word(h[6], h[7])))
  }

  function Nanoseconds(h: seq<byte>): nat
    requires |h| == HEADER_SIZE
  {
    Word(h[8], Word(h[9], Word(h[10], h[11])))
  }

  /** A header with each multi-byte field turned round. */
  function Swapped(h: seq<byte>): (r: seq<byte>)
    requires |h| == HEADER_SIZE
    ensures |r| == HEADER_SIZE
  {
    [h[0], h[1], h[3], h[2], h[7], h[6], h[5], h[4], h[11], h[10], h[9], h[8]]
  }

  /** `network_to_host` undoes `host_to_network`. */
  lemma SwappedTwice(h: seq<byte>)
    requires |h| == HEADER_SIZE
    ensures Swapped(Swapped(h)) == h
  {
  }

  /** A header whose timestamp has been set. */
  function Stamped(h: seq<byte>, sec: nat, nsec: nat): (r: seq<byte>)
    requires |h| == HEADER_SIZE
    ensures |r| == HEADER_SIZE
  {
    h[..4] + LittleEndian(sec, 4) + LittleEndian(nsec, 4)
  }

  /** Stamping keeps 32 bits of each clock value and touches nothing else. */
  lemma StampedFields(h: seq<byte>, sec: nat, nsec: nat)
    requires |h| == HEADER_SIZE
    ensures Seconds(Stamped(h, sec, nsec)) == sec % 0x1_0000_0000
    ensures Nanoseconds(Stamped(h, sec, nsec)) == nsec % 0x1_0000_0000
    ensures Stamped(h, sec, nsec)[0] == h[0] && Size(Stamped(h, sec, nsec)) == Size(h)
  {
    FourDigits(sec);
    FourDigits(nsec);
    LowBytes(sec);
    LowBytes(nsec);
  }

  lemma LowBytes(v: nat)
    ensures Word(v % 256, Word(v / 256 % 256, Word(v / 256 / 256 % 256, v / 256 / 256 / 256 % 256))) ==
            v % 0x1_0000_0000
  {
    var a, b, c, d := v % 256, v / 256 % 256, v / 256 / 256 % 256, v / 256 / 256 / 256 % 256;
    var e := v / 256 / 256 / 256 / 256;
    assert v == a + 256 * (b + 256 * (c + 256 * (d + 256 * e)));
  }

  lemma FourBytes(a: byte, b: byte, c: byte, d: byte)
    ensures BigEndian(Word(a, Word(b, Word(c, d))), 4) == [d, c, b, a]
  {
    var v := Word(a, Word(b, Word(c, d)));
    FourDigits(v);
    assert v / 256 == Word(b, Word(c, d)) && v / 256 / 256 == Word(c, d) && v / 256 / 256 / 256 == d;
    var r := BigEndian(v, 4);
    assert r[0] == Digit(v, 3) == d && r[1] == Digit(v, 2) == c && r[2] == Digit(v, 1) == b && r[3] == Digit(v, 0) == a;
  }

  /** The fields of a swapped header are in network byte order (RFC 791, Appendix B). */
  lemma SwappedIsBigEndian(h: seq<byte>)
    requires |h| == HEADER_SIZE
    ensures Swapped(h) ==
            [h[0], h[1]] + BigEndian(Size(h), 2) + BigEndian(Seconds(h), 4) + BigEndian(Nanoseconds(h), 4)
  {
    FourDigits(Size(h));
    FourBytes(h[4], h[5], h[6], h[7]);
    FourBytes(h[8], h[9], h[10], h[11]);
  }

  // ----- The wire

  function Wire(p: Packet): seq<byte>
    requires Sendable(p)
  {
    Swapped(p.header) + p.payload
  }

  datatype Outcome =
    | Received(packet: Packet, rest: seq<byte>)
    | Refused(header: seq<byte>, rest: seq<byte>)

  /**
   * What `proto_recv_packet` makes of the stream `s` when its header buffer holds `stale`: a short header is not an
   * error, and what is missing from it is what the buffer held.
   */
  function Receive(stale: seq<byte>, s: seq<byte>): Outcome
    requires |stale| == HEADER_SIZE
  {
    var k := Min(HEADER_SIZE, |s|);
    var h := Swapped(Overlay(stale, 0, s[..k]));
    var rest := s[k..];
    if h[0] == NO_PKT then Refused(h, rest)
    else if |rest| < Size(h) then Refused(h, [])
    else Received(Packet(h, rest[..Size(h)]), rest[Size(h)..])
  }

  /** A packet sent is the packet received, whatever the header buffer held before. */
  lemma ReceiveSent(stale: seq<byte>, p: Packet, rest: seq<byte>)
    requires |stale| == HEADER_SIZE && Sendable(p)
    ensures Receive(stale, Wire(p) + rest) == Received(p, rest)
  {
    var s := Wire(p) + rest;
    assert s[..HEADER_SIZE] == Swapped(p.header);
    assert s[HEADER_SIZE..] == p.payload + rest;
    assert Overlay(stale, 0, s[..HEADER_SIZE]) == Swapped(p.header);
    SwappedTwice(p.header);
    assert (p.payload + rest)[..|p.payload|] == p.payload;
  }

  /** From a whole header on, the packet received is the one whose bytes are at the front of the stream. */
  lemma ReceiveIsWireInverse(stale: seq<byte>, s: seq<byte>, p: Packet, rest: seq<byte>)
    requires |stale| == HEADER_SIZE <= |s|
    ensures Receive(stale, s) == Received(p, rest) <==> Sendable(p) && s == Wire(p) + rest
  {
    if Sendable(p) && s == Wire(p) + rest {
      ReceiveSent(stale, p, rest);
    }
    if Receive(stale, s) == Received(p, rest) {
      assert Overlay(stale, 0, s[..HEADER_SIZE]) == s[..HEADER_SIZE];
      SwappedTwice(s[..HEADER_SIZE]);
      assert s == s[..HEADER_SIZE] + (p.payload + rest);
    }
  }

  /** A whole header gives a packet exactly when its type is not 0 and as many bytes follow as its size bytes say. */
  lemma WholeHeaderExact(stale: seq<byte>, s: seq<byte>)
    requires |stale| == HEADER_SIZE <= |s|
    ensures var high: int, low: int := s[2], s[3];
            Receive(stale, s).Received? <==> s[0] != 0 && |s| >= 12 + 256 * high + low
  {
    assert Overlay(stale, 0, s[..HEADER_SIZE]) == s[..HEADER_SIZE];
  }

  /** A stream that ends inside a payload is refused, however much of the payload has come. */
  lemma CutPayloadRefused(stale: seq<byte>, p: Packet, k: nat)
    requires |stale| == HEADER_SIZE && Sendable(p) && HEADER_SIZE <= k < |Wire(p)|
    ensures Receive(stale, Wire(p)[..k]).Refused?
  {
    var s := Wire(p)[..k];
    assert s[..HEADER_SIZE] == Swapped(p.header);
    assert Overlay(stale, 0, s[..HEADER_SIZE]) == Swapped(p.header);
    SwappedTwice(p.header);
  }

  /** A stream that ends inside a header is received as a packet exactly when the buffer then claims no payload. */
  lemma ShortHeaderExact(stale: seq<byte>, s: seq<byte>)
    requires |stale| == HEADER_SIZE && |s| < HEADER_SIZE
    ensures Receive(stale, s).Received? <==>
      var m := Overlay(stale, 0, s); m[0] != 0 && m[2] == 0 && m[3] == 0
  {
    assert s[..|s|] == s;
  }

  /** The end of the stream instead of a header: the header buffer is turned round and taken for one. */
  lemma ReceiveNothing(stale: seq<byte>)
    requires |stale| == HEADER_SIZE
    ensures var h := Swapped(stale);
            Receive(stale, []) ==
            if h[0] == NO_PKT || Size(h) > 0 then Refused(h, []) else Received(Packet(h, []), [])
  {
    OverlayNothing(stale, 0);
    var none: seq<byte> := [];
    assert none[..0] == [];
  }

  /** After a packet without payload, a closed connection is received as that packet with its timestamp turned round. */
  lemma ClosedAfterEmptyPacket(p: Packet)
    requires Sendable(p) && p.payload == []
    ensures Receive(p.header, []) == Received(Packet(Swapped(p.header), []), [])
  {
    ReceiveNothing(p.header);
  }

  // ----- Sequences of packets

  predicate AllSendable(ps: seq<Packet>) {
    forall i :: 0 <= i < |ps| ==> Sendable(ps[i])
  }

  function Wires(ps: seq<Packet>): seq<byte>
    requires AllSendable(ps)
  {
    if ps == [] then [] else Wire(ps[0]) + Wires(ps[1..])
  }

  lemma WiresHead(ps: seq<Packet>, rest: seq<byte>)
    requires AllSendable(ps) && ps != []
    ensures Wires(ps) + rest == Wire(ps[0]) + (Wires(ps[1..]) + rest)
  {
  }

  /** Two sequences of packets of one length, whatever follows each, are told apart by their bytes. */
  lemma {:induction false} WiresPrefix(ps: seq<Packet>, r: seq<byte>, qs: seq<Packet>, t: seq<byte>)
    requires AllSendable(ps) && AllSendable(qs) && |ps| == |qs|
    requires Wires(ps) + r == Wires(qs) + t
    ensures ps == qs && r == t
  {
    if ps == [] {
      assert [] + r == r && [] + t == t;
    } else {
      var stale := ps[0].header;
      WiresHead(ps, r);
      WiresHead(qs, t);
      ReceiveSent(stale, ps[0], Wires(ps[1..]) + r);
      ReceiveSent(stale, qs[0], Wires(qs[1..]) + t);
      WiresPrefix(ps[1..], r, qs[1..], t);
      assert ps == [ps[0]] + ps[1..] && qs == [qs[0]] + qs[1..];
    }
  }

  lemma {:induction false} WiresAppend(ps: seq<Packet>, qs: seq<Packet>)
    requires AllSendable(ps) && AllSendable(qs)
    ensures AllSendable(ps + qs) && Wires(ps + qs) == Wires(ps) + Wires(qs)
  {
    if ps == [] {
      assert ps + qs == qs;
    } else {
      WiresAppend(ps[1..], qs);
      assert ps + qs == [ps[0]] + (ps[1..] + qs);
      WiresHead(ps, Wires(qs));
    }
  }

  lemma {:induction false} WiresLong(ps: seq<Packet>)
    requires AllSendable(ps)
    ensures |Wires(ps)| >= 12 * |ps|
  {
    if ps == [] {
    } else {
      WiresLong(ps[1..]);
      assert |Wire(ps[0])| >= HEADER_SIZE;
    }
  }

  /** Different sequences of packets have different bytes. */
  lemma WiresInjective(ps: seq<Packet>, qs: seq<Packet>)
    requires AllSendable(ps) && AllSendable(qs) && Wires(ps) == Wires(qs)
    ensures ps == qs
  {
    if |ps| <= |qs| {
      WiresShorter(ps, qs);
    } else {
      WiresShorter(qs, ps);
    }
  }

  lemma WiresShorter(ps: seq<Packet>, qs: seq<Packet>)
    requires AllSendable(ps) && AllSendable(qs) && |ps| <= |qs| && Wires(ps) == Wires(qs)
    ensures ps == qs
  {
    var front, more := qs[..|ps|], qs[|ps|..];
    assert qs == front + more;
    NothingMore(ps, front, more);
  }

  lemma NothingMore(ps: seq<Packet>, front: seq<Packet>, more: seq<Packet>)
    requires AllSendable(ps) && AllSendable(front + more) && |ps| == |front| && Wires(ps) == Wires(front + more)
    ensures ps == front + more
  {
    BothSendable(front, more);
    WiresAppend(front, more);
    assert Wires(ps) + [] == Wires(ps);
    WiresPrefix(ps, [], front, Wires(more));
    WiresLong(more);
  }

  lemma BothSendable(ps: seq<Packet>, qs: seq<Packet>)
    requires AllSendable(ps + qs)
    ensures AllSendable(ps) && AllSendable(qs)
  {
    assert forall i :: 0 <= i < |ps| ==> ps[i] == (ps + qs)[i];
    assert forall i :: 0 <= i < |qs| ==> qs[i] == (ps + qs)[|ps| + i];
  }

  // ----- A receiver that uses one header buffer for up to `n` packets and stops at the first failure

  datatype Delivery = Delivery(packets: seq<Packet>, refused: bool, header: seq<byte>, rest: seq<byte>)

  function ReceiveUpTo(stale: seq<byte>, s: seq<byte>, n: nat): (d: Delivery)
    requires |stale| == HEADER_SIZE
    ensures |d.header| == HEADER_SIZE
    decreases n, 0
  {
    if n == 0 then Delivery([], false, stale, s) else Continue(Receive(stale, s), n - 1)
  }

  /** What follows a first packet. */
  function Continue(o: Outcome, m: nat): (d: Delivery)
    requires |if o.Received? then o.packet.header else o.header| == HEADER_SIZE
    ensures |d.header| == HEADER_SIZE
    decreases m, 1
  {
    match o
    case Refused(h, rest) => Delivery([], true, h, rest)
    case Received(p, rest) =>
      var d := ReceiveUpTo(p.header, rest, m);
      d.(packets := [p] + d.packets)
  }

  lemma FirstDelivered(stale: seq<byte>, s: seq<byte>, n: nat, p: Packet, rest: seq<byte>, m: nat, d: Delivery)
    requires |stale| == HEADER_SIZE && n == m + 1 && Receive(stale, s) == Received(p, rest)
    requires d == ReceiveUpTo(p.header, rest, m)
    ensures ReceiveUpTo(stale, s, n) == d.(packets := [p] + d.packets)
  {
  }

  /** What the header buffer holds after these packets. */
  function LastHeader(stale: seq<byte>, ps: seq<Packet>): seq<byte> {
    if ps == [] then stale else ps[|ps| - 1].header
  }

  lemma HeadFirst<T>(xs: seq<T>, ys: seq<T>)
    requires xs != []
    ensures [xs[0]] + (xs[1..] + ys) == xs + ys
  {
  }

  lemma LastHeaderRest(stale: seq<byte>, ps: seq<Packet>)
    requires ps != []
    ensures LastHeader(stale, ps) == LastHeader(ps[0].header, ps[1..])
  {
  }

  /** Whole packets at the front of a stream are delivered as they were sent; `d` is what the rest gives after them. */
  lemma {:induction false} ReceiveWires(stale: seq<byte>, ps: seq<Packet>, rest: seq<byte>, n: nat, m: nat, d: Delivery)
    requires |stale| == HEADER_SIZE && AllSendable(ps) && n == |ps| + m
    requires d == ReceiveUpTo(LastHeader(stale, ps), rest, m)
    ensures ReceiveUpTo(stale, Wires(ps) + rest, n) == d.(packets := ps + d.packets)
    decreases |ps|
  {
    if ps == [] {
      assert [] + rest == rest && [] + d.packets == d.packets;
    } else {
      var p, others, k := ps[0], ps[1..], |ps[1..]| + m;
      LastHeaderRest(stale, ps);
      ReceiveWires(p.header, others, rest, k, m, d);
      WiresHead(ps, rest);
      ReceiveSent(stale, p, Wires(others) + rest);
      var d1 := d.(packets := others + d.packets);
      FirstDelivered(stale, Wires(ps) + rest, n, p, Wires(others) + rest, k, d1);
      HeadFirst(ps, d.packets);
    }
  }

  /** Of a stream that breaks off inside a payload exactly the packets before that one arrive, and then a failure. */
  lemma CutStream(stale: seq<byte>, ps: seq<Packet>, p: Packet, k: nat, n: nat)
    requires |stale| == HEADER_SIZE && AllSendable(ps) && n > |ps|
    requires Sendable(p) && HEADER_SIZE <= k < |Wire(p)|
    ensures var d := ReceiveUpTo(stale, Wires(ps) + Wire(p)[..k], n);
            d.packets == ps && d.refused
  {
    var d := ReceiveUpTo(LastHeader(stale, ps), Wire(p)[..k], n - |ps|);
    ReceiveWires(stale, ps, Wire(p)[..k], n, n - |ps|, d);
    CutPayloadRefused(LastHeader(stale, ps), p, k);
  }

  lemma {:induction false} EmptyForever(h: seq<byte>, n: nat)
    requires |h| == HEADER_SIZE && h[0] != NO_PKT && Size(h) == 0
    ensures !ReceiveUpTo(h, [], n).refused && |ReceiveUpTo(h, [], n).packets| == n
    decreases n
  {
    if n == 0 {
    } else {
      ClosedAfterEmptyPacket(Packet(h, []));
      EmptyForever(Swapped(h), n - 1);
    }
  }

  /**
   * A connection closed after whole packets is noticed exactly when the last packet had a payload; otherwise the
   * receiver goes on receiving packets that nobody sent.
   */
  lemma CloseNoticedExact(stale: seq<byte>, ps: seq<Packet>, n: nat)
    requires |stale| == HEADER_SIZE && AllSendable(ps) && ps != [] && n > |ps|
    ensures var d, last := ReceiveUpTo(stale, Wires(ps), n), ps[|ps| - 1];
            && (d.refused <==> last.payload != [])
            && (last.payload != [] ==> d.packets == ps)
            && (last.payload == [] ==> |d.packets| == n)
  {
    var last := ps[|ps| - 1];
    assert Wires(ps) + [] == Wires(ps);
    ReceiveWires(stale, ps, [], n, n - |ps|, ReceiveUpTo(last.header, [], n - |ps|));
    if last.payload == [] {
      EmptyForever(last.header, n - |ps|);
    } else {
      ClosedAfterPayload(last);
    }
  }

  lemma ClosedAfterPayload(p: Packet)
    requires Sendable(p) && p.payload != []
    ensures Receive(p.header, []).Refused?
  {
    ReceiveNothing(p.header);
    SwappedSize(p.header);
  }

  lemma SwappedSize(h: seq<byte>)
    requires |h| == HEADER_SIZE
    ensures Size(Swapped(h)) == 0 <==> Size(h) == 0
  {
  }
}
