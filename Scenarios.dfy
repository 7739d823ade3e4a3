/** Whole onRead calls worked through for readers that behave in a given
    way on the bytes at hand. Each lemma states, about the run that
    PacketDecoder.OnRead dispatches and about the buffer it leaves behind,
    what a caller of onRead observes. */
module DecoderScenarios {
  import opened Buffers
  import opened Packets
  import opened PacketReading

  /** Received: an urgent packet A of 10 bytes, a normal packet B of 8 bytes
      and the first 5 bytes of a packet C, which the reader leaves unread.
      Then A and B are dispatched in that order, one priority and one normal
      packet are counted, and the buffer holds exactly the 5 bytes of C. */
  lemma TwoPacketsThenPartial<S(!new)>(parse: (S, seq<byte>) -> ReadStep<S>, s0: S, s1: S, s2: S, s3: S,
                                       received: BufferState, a: Packet, b: Packet)
    requires WellBehaved(parse) && received.Valid() && received.position == 23
    requires a.IsUrgent() && !b.IsUrgent()
    requires parse(s0, received.bytes[0..23]) == Complete(a, 10, s1)
    requires parse(s1, received.bytes[10..23]) == Complete(b, 8, s2)
    requires parse(s2, received.bytes[18..23]) == NoPacket(0, s3)
    ensures var run := Decode(parse, s0, received.bytes, 0, 23);
      run == Run([a, b], 18, s3, Partial) &&
      UrgentCount(run.packets) == 1 && NormalCount(run.packets) == 1 &&
      Restored(received, run.end).Written() == received.bytes[18..23]
  {
    var states, positions := [s0, s1, s2], [0, 10, 18];
    assert Link(parse, received.bytes, 23, s0, 0, a, s1, 10);
    assert Link(parse, received.bytes, 23, s1, 10, b, s2, 18);
    assert Chain(parse, received.bytes, 23, states, positions, [a, b]);
    ChainStopped(parse, received.bytes, 23, states, positions, [a, b]);
    assert [a, b][1..] == [b];
    assert UrgentCount([b]) == 0 && NormalCount([b]) == 1;
  }

  /** Received: exactly two whole packets. Both are dispatched, in wire
      order, within the one call, and the buffer is left empty. */
  lemma TwoWholePackets<S(!new)>(parse: (S, seq<byte>) -> ReadStep<S>, s0: S, s1: S, s2: S,
                                 received: BufferState, a: Packet, b: Packet, lengthA: nat)
    requires WellBehaved(parse) && received.Valid() && 0 < lengthA < received.position
    requires parse(s0, received.bytes[0..received.position]) == Complete(a, lengthA, s1)
    requires parse(s1, received.bytes[lengthA..received.position]) == Complete(b, received.position - lengthA, s2)
    ensures var run := Decode(parse, s0, received.bytes, 0, received.position);
      run == Run([a, b], received.position, s2, Drained) &&
      Restored(received, run.end).Written() == []
  {
    var n := received.position;
    var states, positions := [s0, s1, s2], [0, lengthA, n];
    assert Link(parse, received.bytes, n, s0, 0, a, s1, lengthA);
    assert Link(parse, received.bytes, n, s1, lengthA, b, s2, n);
    assert Chain(parse, received.bytes, n, states, positions, [a, b]);
    ChainDrained(parse, received.bytes, n, states, positions, [a, b]);
  }

  /** Received: three packets, and the reader fails while parsing the
      second. The first packet has been dispatched and counted by the time
      the failure propagates, and the buffer is still restored, holding
      whatever the reader had not consumed. */
  lemma FailureOnSecondPacket<S(!new)>(parse: (S, seq<byte>) -> ReadStep<S>, s0: S, s1: S, s2: S,
                                       received: BufferState, a: Packet, lengthA: nat, e: ReadError, used: nat)
    requires WellBehaved(parse) && received.Valid() && 0 < lengthA < received.position
    requires parse(s0, received.bytes[0..received.position]) == Complete(a, lengthA, s1)
    requires parse(s1, received.bytes[lengthA..received.position]) == Malformed(e, used, s2)
    ensures var run := Decode(parse, s0, received.bytes, 0, received.position);
      run == Run([a], lengthA + used, s2, Failed(e)) &&
      UrgentCount(run.packets) + NormalCount(run.packets) == 1 &&
      (a.IsUrgent() <==> UrgentCount(run.packets) == 1) &&
      Restored(received, run.end).Written() == received.bytes[lengthA + used..received.position]
  {
    var n := received.position;
    var states, positions := [s0, s1], [0, lengthA];
    assert Link(parse, received.bytes, n, s0, 0, a, s1, lengthA);
    assert Chain(parse, received.bytes, n, states, positions, [a]);
    ChainStopped(parse, received.bytes, n, states, positions, [a]);
  }
}
