/** The single-packet reader (PacketIOHelper) and the decode run it drives.

    The wire format is not part of this model: it is a total function
    `parse` from the reader's private state and the unread bytes to one
    step, and the reader is assumed only to obey the contract WellBehaved. */
module PacketReading {
  import opened Buffers
  import opened Packets

  /** The framing error the reader throws. */
  datatype ReadError = ReadError(message: string)

  /** What one call of the reader does, given the unread bytes:
      - NoPacket: no complete packet yet (readFrom returns null);
      - Complete: a whole packet was read;
      - Malformed: the bytes are not a valid packet (readFrom throws).
      `consumed` is how far the read position moves; `next` is the reader's
      new private state, which carries a partial packet across calls. */
  datatype ReadStep<S> =
    | NoPacket(consumed: nat, next: S)
    | Complete(packet: Packet, consumed: nat, next: S)
    | Malformed(error: ReadError, consumed: nat, next: S)

  /** A step never moves past the limit, and a step that yields a packet
      moves the position forward by at least one byte. */
  predicate StepFits<S>(step: ReadStep<S>, available: nat)
  {
    step.consumed <= available && (step.Complete? ==> 1 <= step.consumed)
  }

  /** The reader's contract, for every state and every window of bytes. */
  ghost predicate WellBehaved<S(!new)>(parse: (S, seq<byte>) -> ReadStep<S>)
  {
    forall s: S, bs: seq<byte> :: StepFits(parse(s, bs), |bs|)
  }

  /** Why a decode loop stopped. */
  datatype Stop = Drained | Partial | Failed(error: ReadError)

  /** One decode loop over a drain window: the packets in the order the
      reader produced them, the read position where the loop left off, the
      reader's state afterwards and why the loop stopped. */
  datatype Run<S> = Run(packets: seq<Packet>, end: nat, state: S, stop: Stop)

  /** The decode loop of PacketDecoder.onRead over the unread bytes
      bytes[from..to] (position `from`, limit `to`): while bytes remain, ask
      the reader for a packet; stop on no packet or on a failure. */
  function Decode<S(!new)>(parse: (S, seq<byte>) -> ReadStep<S>, state: S,
                           bytes: seq<byte>, from: nat, to: nat): (r: Run<S>)
    requires WellBehaved(parse) && from <= to <= |bytes|
    ensures from <= r.end <= to
    ensures |r.packets| <= r.end - from
    ensures r.stop == Drained ==> r.end == to
    decreases (to as int) - (from as int)
  {
    if from == to then Run([], from, state, Drained)
    else
      var step := parse(state, bytes[from..to]);
      assert StepFits(step, to - from);
      if step.Complete? then
        var rest := Decode(parse, step.next, bytes, from + step.consumed, to);
        Run([step.packet] + rest.packets, rest.end, rest.state, rest.stop)
      else
        Run([], from + step.consumed, step.next, if step.NoPacket? then Partial else Failed(step.error))
  }

  /** The loop asks the reader only while bytes remain: a run over an empty
      window is empty and leaves the reader alone, and a run that stopped
      for want of a packet or on a failure had bytes to offer. */
  lemma DecodeStopsOnlyWhenDone<S(!new)>(parse: (S, seq<byte>) -> ReadStep<S>, state: S,
                                         bytes: seq<byte>, from: nat, to: nat)
    requires WellBehaved(parse) && from <= to <= |bytes|
    ensures var r := Decode(parse, state, bytes, from, to);
      (r.stop != Drained ==> from < to) &&
      (from == to <==> r == Run([], from, state, Drained))
  {
    // Follows from the postconditions of Decode and one unfolding of it.
  }

  /** A run that had already produced `done` when it went on as `rest`. */
  function Resumed<S>(done: seq<Packet>, rest: Run<S>): Run<S>
  {
    Run(done + rest.packets, rest.end, rest.state, rest.stop)
  }

  /** One call of the reader, from `state` at position `from`, completed
      `packet`, moved the position to `next` and the state to `after`. */
  ghost predicate Link<S(!new)>(parse: (S, seq<byte>) -> ReadStep<S>, bytes: seq<byte>, to: nat,
                                state: S, from: nat, packet: Packet, after: S, next: nat)
  {
    from < next <= to <= |bytes| &&
    parse(state, bytes[from..to]) == Complete(packet, next - from, after)
  }

  /** A run whose first reader call completes a packet is that packet
      followed by the run from where the call left the reader. */
  lemma DecodePastPacket<S(!new)>(parse: (S, seq<byte>) -> ReadStep<S>, bytes: seq<byte>, to: nat,
                                  state: S, from: nat, packet: Packet, after: S, next: nat)
    requires WellBehaved(parse) && Link(parse, bytes, to, state, from, packet, after, next)
    ensures Decode(parse, state, bytes, from, to) == Resumed([packet], Decode(parse, after, bytes, next, to))
  {
  }

  /** A run whose first reader call yields no packet, or fails, ends right
      there, where that call left the position and the reader. */
  lemma DecodeStopsAt<S(!new)>(parse: (S, seq<byte>) -> ReadStep<S>, bytes: seq<byte>, to: nat,
                               state: S, from: nat)
    requires WellBehaved(parse) && from < to <= |bytes| && !parse(state, bytes[from..to]).Complete?
    ensures var step := parse(state, bytes[from..to]);
      Decode(parse, state, bytes, from, to) ==
      Run([], from + step.consumed, step.next, if step.NoPacket? then Partial else Failed(step.error))
  {
  }

  /** Resuming twice is resuming once with both prefixes. */
  lemma PrependResumed<S>(p: Packet, done: seq<Packet>, rest: Run<S>)
    ensures Resumed([p], Resumed(done, rest)) == Resumed([p] + done, rest)
  {
    assert [p] + (done + rest.packets) == ([p] + done) + rest.packets;
  }

  /** The reader was asked |done| times, each time from the state and the
      position the previous call left, and each time completed the next
      packet of `done`; the last position is still within the window. */
  ghost predicate Chain<S(!new)>(parse: (S, seq<byte>) -> ReadStep<S>, bytes: seq<byte>, to: nat,
                                 states: seq<S>, positions: seq<nat>, done: seq<Packet>)
  {
    |states| == |positions| == |done| + 1 && positions[0] <= to && positions[|done|] <= to <= |bytes| &&
    forall i :: 0 <= i < |done| ==>
      Link(parse, bytes, to, states[i], positions[i], done[i], states[i + 1], positions[i + 1])
  }

  /** A chain grows by one more completed packet from where it ends. */
  lemma ChainExtended<S(!new)>(parse: (S, seq<byte>) -> ReadStep<S>, bytes: seq<byte>, to: nat,
                               states: seq<S>, positions: seq<nat>, done: seq<Packet>,
                               packet: Packet, after: S, next: nat)
    requires Chain(parse, bytes, to, states, positions, done)
    requires Link(parse, bytes, to, states[|done|], positions[|done|], packet, after, next)
    ensures Chain(parse, bytes, to, states + [after], positions + [next], done + [packet])
  {
    var states', positions', done' := states + [after], positions + [next], done + [packet];
    forall i | 0 <= i < |done'|
      ensures Link(parse, bytes, to, states'[i], positions'[i], done'[i], states'[i + 1], positions'[i + 1])
    {
      if i < |done| {
        assert Link(parse, bytes, to, states[i], positions[i], done[i], states[i + 1], positions[i + 1]);
      }
    }
  }

  /** The packets completed along a chain are the first packets of the run
      that started at the chain's first state and position; the rest of
      that run is the run from where the chain ends. */
  lemma {:induction false} ChainIsPrefixOfRun<S(!new)>(parse: (S, seq<byte>) -> ReadStep<S>, bytes: seq<byte>, to: nat,
                                                     states: seq<S>, positions: seq<nat>, done: seq<Packet>)
    requires WellBehaved(parse) && Chain(parse, bytes, to, states, positions, done)
    ensures Decode(parse, states[0], bytes, positions[0], to) ==
      Resumed(done, Decode(parse, states[|done|], bytes, positions[|done|], to))
    decreases |done|
  {
    if done != [] {
      var n := |done|;
      assert Link(parse, bytes, to, states[0], positions[0], done[0], states[1], positions[1]);
      var states', positions', done' := states[1..], positions[1..], done[1..];
      forall i | 0 <= i < |done'|
        ensures Link(parse, bytes, to, states'[i], positions'[i], done'[i], states'[i + 1], positions'[i + 1])
      {
        assert Link(parse, bytes, to, states[i + 1], positions[i + 1], done[i + 1], states[i + 2], positions[i + 2]);
      }
      ChainIsPrefixOfRun(parse, bytes, to, states', positions', done');
      DecodePastPacket(parse, bytes, to, states[0], positions[0], done[0], states[1], positions[1]);
      PrependResumed(done[0], done', Decode(parse, states[n], bytes, positions[n], to));
      assert [done[0]] + done' == done;
    }
  }

  /** A chain that used up the whole window is the complete run. */
  lemma ChainDrained<S(!new)>(parse: (S, seq<byte>) -> ReadStep<S>, bytes: seq<byte>, to: nat,
                              states: seq<S>, positions: seq<nat>, done: seq<Packet>)
    requires WellBehaved(parse) && Chain(parse, bytes, to, states, positions, done)
    requires positions[|done|] == to
    ensures Decode(parse, states[0], bytes, positions[0], to) == Run(done, to, states[|done|], Drained)
  {
    ChainIsPrefixOfRun(parse, bytes, to, states, positions, done);
    assert done + [] == done;
  }

  /** A chain followed by a reader call that yields no packet, or fails, is
      the complete run. */
  lemma ChainStopped<S(!new)>(parse: (S, seq<byte>) -> ReadStep<S>, bytes: seq<byte>, to: nat,
                              states: seq<S>, positions: seq<nat>, done: seq<Packet>)
    requires WellBehaved(parse) && Chain(parse, bytes, to, states, positions, done)
    requires positions[|done|] < to
    requires !parse(states[|done|], bytes[positions[|done|]..to]).Complete?
    ensures var step := parse(states[|done|], bytes[positions[|done|]..to]);
      Decode(parse, states[0], bytes, positions[0], to) ==
      Run(done, positions[|done|] + step.consumed, step.next, if step.NoPacket? then Partial else Failed(step.error))
  {
    ChainIsPrefixOfRun(parse, bytes, to, states, positions, done);
    DecodeStopsAt(parse, bytes, to, states[|done|], positions[|done|]);
    assert done + [] == done;
  }

  /** The reader object: its wire format and its private parse state. */
  class PacketReader<S(!new)> {
    const parse: (S, seq<byte>) -> ReadStep<S>
    var state: S

    ghost predicate Valid()
    {
      WellBehaved(parse)
    }

    constructor (parse: (S, seq<byte>) -> ReadStep<S>, initial: S)
      requires WellBehaved(parse)
      ensures Valid() && this.parse == parse && state == initial
    {
      this.parse := parse;
      state := initial;
    }

    /** PacketIOHelper.readFrom: reads at most one packet from the unread
        bytes of `src`, moving its position past what it consumed. */
    method ReadFrom(src: ByteBuffer) returns (r: ReadResult)
      requires Valid() && src.Valid()
      modifies this, src`position
      ensures src.Valid() && src.limit == old(src.limit)
      ensures var step := parse(old(state), old(src.data[src.position..src.limit]));
        state == step.next && src.position == old(src.position) + step.consumed &&
        r == Outcome(step)
    {
      var step := parse(state, src.data[src.position..src.limit]);
      assert StepFits(step, src.limit - src.position);
      state := step.next;
      src.position := src.position + step.consumed;
      r := Outcome(step);
    }
  }

  /** What readFrom hands back to its caller: a packet, null, or an exception. */
  datatype ReadResult = PacketRead(packet: Packet) | NullPacket | ReadFailed(error: ReadError)

  function Outcome<S>(step: ReadStep<S>): ReadResult
  {
    match step
    case NoPacket(_, _) => NullPacket
    case Complete(p, _, _) => PacketRead(p)
    case Malformed(e, _, _) => ReadFailed(e)
  }
}
