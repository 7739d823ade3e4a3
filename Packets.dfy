/** Packets as the decoder sees them: opaque apart from a flags word, in
    which FLAG_URGENT classifies a packet for the metrics, and a settable
    back-reference to the connection that received it. */
module Packets {
  import opened Buffers

  /** The member-to-member connection a decoder belongs to (TcpIpConnection);
      only its identity matters here. */
  class Connection {
  }

  /** Packet.FLAG_URGENT, the bit 1 << 4 of the flags word. */
  const FLAG_URGENT: bv16 := 0x10

  /** `conn` is null until the decoder tags the packet. */
  datatype Packet = Packet(flags: bv16, payload: seq<byte>, conn: Connection?)
  {
    /** Packet.isFlagRaised. */
    predicate IsFlagRaised(flag: bv16) { flags & flag != 0 }

    predicate IsUrgent() { IsFlagRaised(FLAG_URGENT) }

    /** Packet.setConn. */
    function WithConn(c: Connection?): Packet { this.(conn := c) }
  }

  /** How many of the packets raise FLAG_URGENT. */
  function UrgentCount(ps: seq<Packet>): nat
  {
    if ps == [] then 0 else (if ps[0].IsUrgent() then 1 else 0) + UrgentCount(ps[1..])
  }

  /** How many of the packets do not raise FLAG_URGENT. */
  function NormalCount(ps: seq<Packet>): nat
  {
    if ps == [] then 0 else (if ps[0].IsUrgent() then 0 else 1) + NormalCount(ps[1..])
  }

  /** The packets, in the same order, each tagged with connection `c` and
      otherwise unchanged. */
  function Tagged(ps: seq<Packet>, c: Connection?): (r: seq<Packet>)
    ensures |r| == |ps|
  {
    if ps == [] then [] else [ps[0].WithConn(c)] + Tagged(ps[1..], c)
  }

  /** Tagging keeps each packet in its place, sets its connection and
      changes nothing else about it. */
  lemma {:induction false} TaggedPacketwise(ps: seq<Packet>, c: Connection?)
    ensures forall i :: 0 <= i < |ps| ==> Tagged(ps, c)[i] == ps[i].WithConn(c)
  {
    if ps != [] {
      TaggedPacketwise(ps[1..], c);
      forall i | 0 < i < |ps|
        ensures Tagged(ps, c)[i] == ps[i].WithConn(c)
      {
        assert ps[1..][i - 1] == ps[i];
      }
    }
  }

  /** Every packet is counted by exactly one of the two counters. */
  lemma {:induction false} CountsPartition(ps: seq<Packet>)
    ensures UrgentCount(ps) + NormalCount(ps) == |ps|
  {
    if ps != [] {
      CountsPartition(ps[1..]);
    }
  }

  /** Counting a run of packets in two pieces gives the same totals. */
  lemma {:induction false} CountsAppend(a: seq<Packet>, b: seq<Packet>)
    ensures UrgentCount(a + b) == UrgentCount(a) + UrgentCount(b)
    ensures NormalCount(a + b) == NormalCount(a) + NormalCount(b)
  {
    if a != [] {
      assert (a + b)[1..] == a[1..] + b;
      CountsAppend(a[1..], b);
    } else {
      assert a + b == b;
    }
  }

  /** Tagging a run of packets in two pieces gives the same sequence. */
  lemma {:induction false} TaggedAppend(a: seq<Packet>, b: seq<Packet>, c: Connection?)
    ensures Tagged(a + b, c) == Tagged(a, c) + Tagged(b, c)
  {
    if a != [] {
      assert (a + b)[1..] == a[1..] + b;
      TaggedAppend(a[1..], b, c);
    } else {
      assert a + b == b;
    }
  }

  /** Dispatching one more packet after `done`: the consumer's sequence and
      the two counts step exactly as onPacketComplete steps them. */
  lemma OneMoreDispatched(accepted: seq<Packet>, done: seq<Packet>, p: Packet, c: Connection?)
    ensures accepted + Tagged(done, c) + [p.WithConn(c)] == accepted + Tagged(done + [p], c)
    ensures UrgentCount(done + [p]) == UrgentCount(done) + (if p.IsUrgent() then 1 else 0)
    ensures NormalCount(done + [p]) == NormalCount(done) + (if p.IsUrgent() then 0 else 1)
  {
    TaggedAppend(done, [p], c);
    CountsAppend(done, [p]);
    assert Tagged([p], c) == [p.WithConn(c)];
  }
}
