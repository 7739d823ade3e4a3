/** PacketDecoder: the inbound handler for member-to-member traffic. Each
    onRead drains the receive buffer into as many packets as the reader can
    produce, counts, tags and hands each one to the consumer, and always
    leaves the buffer in write mode for the next socket read. */
module PacketDecoding {
  import opened Buffers
  import opened Packets
  import opened PacketReading

  /** HandlerStatus: what a handler tells the pipeline after a call. The
      decoder only ever returns CLEAN; DIRTY and BLOCKED mirror the rest
      of the enum. */
  datatype HandlerStatus = CLEAN | DIRTY | BLOCKED

  /** How an onRead call ends: a normal return or a propagated exception. */
  datatype OnReadResult = Returned(status: HandlerStatus) | Threw(error: ReadError)

  /** The destination `dst`: the packets accepted so far, in order. */
  class PacketConsumer {
    var accepted: seq<Packet>

    constructor ()
      ensures accepted == []
    {
      accepted := [];
    }

    method Accept(packet: Packet)
      modifies this
      ensures accepted == old(accepted) + [packet]
    {
      accepted := accepted + [packet];
    }
  }

  class PacketDecoder<S(!new)> {
    const connection: Connection
    const packetReader: PacketReader<S>
    const dst: PacketConsumer
    /** The receive buffer; null until handlerAdded. */
    var src: ByteBuffer?
    var priorityPacketsRead: nat
    var normalPacketsRead: nat

    /** The reader keeps its contract, and between calls the buffer, once
        allocated, is in write mode. */
    ghost predicate Valid()
      reads this, src
    {
      packetReader.Valid() &&
      (src != null ==> src.Valid() && src.limit == src.Capacity())
    }

    /** Attached: the buffer exists, so onRead may be called. */
    ghost predicate Ready()
      reads this, src
    {
      Valid() && src != null
    }

    /** The wire format `parse` and its `initial` state stand for the
        PacketIOHelper the decoder creates for itself. The two counters
        stand for the counter objects of the base class
        InboundHandlerWithCounters, which start at zero here. */
    constructor (connection: Connection, dst: PacketConsumer,
                 parse: (S, seq<byte>) -> ReadStep<S>, initial: S)
      requires WellBehaved(parse)
      ensures Valid() && src == null
      ensures this.connection == connection && this.dst == dst
      ensures fresh(packetReader) && packetReader.parse == parse && packetReader.state == initial
      ensures priorityPacketsRead == 0 && normalPacketsRead == 0
    {
      this.connection := connection;
      this.dst := dst;
      packetReader := new PacketReader(parse, initial);
      src := null;
      priorityPacketsRead, normalPacketsRead := 0, 0;
    }

    /** handlerAdded: allocates the receive buffer, empty and in write mode. */
    method HandlerAdded(capacity: nat)
      requires Valid()
      modifies this`src
      ensures Ready() && fresh(src) && fresh(src.data)
      ensures src.Capacity() == capacity && src.position == 0
    {
      src := new ByteBuffer.Allocate(capacity);
    }

    /** onPacketComplete: exactly one counter goes up, the packet is tagged
        with this decoder's connection and handed straight to `dst`. */
    method OnPacketComplete(packet: Packet)
      modifies this`priorityPacketsRead, this`normalPacketsRead, dst
      ensures priorityPacketsRead == old(priorityPacketsRead) + (if packet.IsUrgent() then 1 else 0)
      ensures normalPacketsRead == old(normalPacketsRead) + (if packet.IsUrgent() then 0 else 1)
      ensures dst.accepted == old(dst.accepted) + [packet.WithConn(connection)]
    {
      if packet.IsFlagRaised(FLAG_URGENT) {
        priorityPacketsRead := priorityPacketsRead + 1;
      } else {
        normalPacketsRead := normalPacketsRead + 1;
      }
      var tagged := packet.WithConn(connection);
      dst.Accept(tagged);
    }

    /** onRead. With `run` the decode loop over the bytes received since the
        last call: every packet of the run reaches `dst` in order, tagged and
        counted; the reader moves on to the run's final state; and the buffer
        ends up compacted or cleared from wherever the loop left it, so it is
        in write mode holding the unconsumed bytes. The call returns CLEAN
        unless the reader failed, and even then the buffer is restored. */
    method OnRead() returns (r: OnReadResult)
      requires Ready()
      modifies this`priorityPacketsRead, this`normalPacketsRead, dst, packetReader, src, src.data
      ensures Ready() && src == old(src) && src.limit == src.Capacity()
      ensures var run := Decode(packetReader.parse, old(packetReader.state), old(src.data[..]), 0, old(src.position));
        && dst.accepted == old(dst.accepted) + Tagged(run.packets, connection)
        && priorityPacketsRead == old(priorityPacketsRead) + UrgentCount(run.packets)
        && normalPacketsRead == old(normalPacketsRead) + NormalCount(run.packets)
        && (priorityPacketsRead - old(priorityPacketsRead)) + (normalPacketsRead - old(normalPacketsRead)) == |run.packets|
        && packetReader.state == run.state
        && src.State() == Restored(old(src.State()), run.end)
        && r == (if run.stop.Failed? then Threw(run.stop.error) else Returned(CLEAN))
    {
      ghost var received := src.State();
      ghost var run := Decode(packetReader.parse, packetReader.state, received.bytes, 0, received.position);
      src.Flip();
      // try
      r := DecodeAvailable();
      // finally
      src.CompactOrClear();
      CountsPartition(run.packets);
    }

    /** The body of onRead's try block: the decode loop over the unread
        bytes of `src`, which is in drain mode. It ends when the bytes run
        out, when the reader returns no packet, or when the reader fails, and
        leaves the position where the reader left it. */
    method DecodeAvailable() returns (r: OnReadResult)
      requires packetReader.Valid() && src != null && src.Valid()
      modifies this`priorityPacketsRead, this`normalPacketsRead, dst, packetReader, src`position
      ensures src.Valid() && src.limit == old(src.limit)
      ensures var run := Decode(packetReader.parse, old(packetReader.state), src.data[..], old(src.position), src.limit);
        && dst.accepted == old(dst.accepted) + Tagged(run.packets, connection)
        && priorityPacketsRead == old(priorityPacketsRead) + UrgentCount(run.packets)
        && normalPacketsRead == old(normalPacketsRead) + NormalCount(run.packets)
        && packetReader.state == run.state
        && src.position == run.end
        && r == (if run.stop.Failed? then Threw(run.stop.error) else Returned(CLEAN))
    {
      ghost var bytes := src.data[..];
      ghost var states: seq<S> := [packetReader.state];
      ghost var positions: seq<nat> := [src.position];
      ghost var done: seq<Packet> := [];
      ghost var stopped := false;
      ghost var run := Decode(packetReader.parse, packetReader.state, bytes, src.position, src.limit);
      r := Returned(CLEAN);
      while src.HasRemaining()
        invariant src.Valid() && src.limit == old(src.limit) && src.data[..] == bytes
        invariant Chain(packetReader.parse, bytes, src.limit, states, positions, done)
        invariant states[0] == old(packetReader.state) && positions[0] == old(src.position)
        invariant states[|done|] == packetReader.state && positions[|done|] == src.position
        invariant dst.accepted == old(dst.accepted) + Tagged(done, connection)
        invariant priorityPacketsRead == old(priorityPacketsRead) + UrgentCount(done)
        invariant normalPacketsRead == old(normalPacketsRead) + NormalCount(done)
        invariant r == Returned(CLEAN) && !stopped
        decreases src.limit - src.position
      {
        ghost var pos := src.position;
        assert bytes[pos..src.limit] == src.data[pos..src.limit];
        var packet := packetReader.ReadFrom(src);
        if !packet.PacketRead? {
          ChainStopped(packetReader.parse, bytes, src.limit, states, positions, done);
          if packet.ReadFailed? {
            r := Threw(packet.error);
            assert run == Run(done, src.position, packetReader.state, Failed(packet.error));
          } else {
            assert run == Run(done, src.position, packetReader.state, Partial);
          }
          stopped := true;
          break;
        }
        OneMoreDispatched(old(dst.accepted), done, packet.packet, connection);
        OnPacketComplete(packet.packet);
        ChainExtended(packetReader.parse, bytes, src.limit, states, positions, done,
                      packet.packet, packetReader.state, src.position);
        states, positions, done := states + [packetReader.state], positions + [src.position], done + [packet.packet];
      }
      if !stopped {
        ChainDrained(packetReader.parse, bytes, src.limit, states, positions, done);
        assert run == Run(done, src.limit, packetReader.state, Drained);
      }
    }
  }
}
