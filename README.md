# Hazelcast PacketDecoder, modelled in Dafny

`PacketDecoder` is the inbound handler at the end of Hazelcast's
member-to-member TCP pipeline. The networking layer fills the connection's
receive `ByteBuffer` and then calls `onRead`. `onRead` does four things:

- it flips the buffer into drain mode;
- it asks its `PacketIOHelper` for one packet at a time, while bytes remain
  and until the helper returns `null`;
- it hands each packet to `onPacketComplete`, which counts it as priority
  (`FLAG_URGENT` raised) or normal, tags it with the owning connection and
  passes it straight on to the destination consumer `dst`;
- in a `finally` block it compacts or clears the buffer, so the buffer is
  back in write mode whether the loop ended normally or the helper threw.

The model has five modules.

- `Buffers`:
  - the value `BufferState` with `flip`, `clear`, `compact`, and
    `IOUtil.compactOrClear` as functions;
  - `Restored`, which composes flip, consumption and compactOrClear;
  - a `ByteBuffer` class over an `array<byte>` whose methods are proved
    against those functions.
- `Packets`:
  - packets as a flags word (`bv16`, as Java's `char`), a payload and a
    settable connection;
  - the urgent/normal counting functions and connection tagging, with their
    lemmas.
- `PacketReading`:
  - the single-packet reader is a class holding a wire-format function
    `parse` and its private state, under the contract `WellBehaved`:
    a completed packet consumes between 1 byte and all available bytes,
    and any other step consumes no more than is available;
  - `Decode` is the specification of the decode loop;
  - `Chain` describes the reader calls the loop has made so far, and the
    lemmas tie `Chain` to `Decode`.
- `PacketDecoding`: the `PacketDecoder` class. `OnRead` is proved against
  `Decode` and `Restored`, with the loop itself in `DecodeAvailable`.
- `DecoderScenarios`: whole calls worked through for readers that behave in
  a given way on the bytes at hand.

The Java exception is modelled as the result `Threw(error)`. The `finally`
block is the `CompactOrClear` call, which runs on both exit paths.

## Model

| member | source | states |
|---|---|---|
| Buffers.Flipped | hazelcast/src/main/java/com/hazelcast/nio/tcp/PacketDecoder.java:58 | drain mode: the limit becomes the old position, the position becomes 0, and the bytes to read are exactly the bytes written |
| Buffers.ByteBuffer.Flip | hazelcast/src/main/java/com/hazelcast/nio/tcp/PacketDecoder.java:58 | the in-place flip leaves the buffer in the state `Flipped` gives |
| Buffers.Compacted | hazelcast/src/main/java/com/hazelcast/nio/tcp/PacketDecoder.java:70 | write mode; the unread bytes now sit at the front, in order, with the position just after them; the backing bytes beyond them are untouched |
| Buffers.Cleared | hazelcast/src/main/java/com/hazelcast/nio/tcp/PacketDecoder.java:70 | write mode and empty, keeping the same backing bytes |
| Buffers.CompactedOrCleared | hazelcast/src/main/java/com/hazelcast/nio/tcp/PacketDecoder.java:70 | in every case write mode with the same capacity, holding exactly the unread bytes in order; nothing changes in the bytes when none remain |
| Buffers.ByteBuffer.Compact | hazelcast/src/main/java/com/hazelcast/nio/tcp/PacketDecoder.java:70 | the in-place compact, a simultaneous array copy of the unread bytes to the front, ends in the state `Compacted` gives |
| Buffers.ByteBuffer.Clear | hazelcast/src/main/java/com/hazelcast/nio/tcp/PacketDecoder.java:70 | the in-place clear ends in the state `Cleared` gives: empty, in write mode, bytes untouched |
| Buffers.ByteBuffer.Allocate | hazelcast/src/main/java/com/hazelcast/nio/tcp/PacketDecoder.java:53 | a fresh array of the requested capacity, the buffer empty and in write mode |
| Buffers.ByteBuffer.HasRemaining | hazelcast/src/main/java/com/hazelcast/nio/tcp/PacketDecoder.java:60 | `src.hasRemaining()`: true exactly when the position is below the limit |
| Buffers.Put | hazelcast/src/main/java/com/hazelcast/nio/tcp/PacketDecoder.java:57 | no put happens on this line: `Put` models the write-mode precondition of `onRead`, a buffer filled by the socket read outside this core, whose bytes land after those already written, within the limit and keeping the capacity |
| Buffers.ByteBuffer.CompactOrClear | hazelcast/src/main/java/com/hazelcast/nio/tcp/PacketDecoder.java:70 | the in-place compactOrClear, including the array copy of compact, ends in the state `CompactedOrCleared` gives |
| Buffers.Restored | hazelcast/src/main/java/com/hazelcast/nio/tcp/PacketDecoder.java:58-71 | flip, consume a prefix, compactOrClear: write mode again, same capacity, holding exactly the received bytes that were not consumed, and empty if all were consumed |
| Buffers.FlipThenRestoreIsIdentity | hazelcast/src/main/java/com/hazelcast/nio/tcp/PacketDecoder.java:58-71 | an onRead that consumes nothing hands back exactly the buffer it received |
| Buffers.LeftoverComesFirst | hazelcast/src/main/java/com/hazelcast/nio/tcp/PacketDecoder.java:70 | the bytes left unread by one call come first in the next call's drain window, in order, before the newly appended bytes |
| Packets.Packet.IsFlagRaised | hazelcast/src/main/java/com/hazelcast/nio/tcp/PacketDecoder.java:75 | `packet.isFlagRaised(FLAG_URGENT)`: the flag bit is set in the packet's flags word |
| Packets.Packet.WithConn | hazelcast/src/main/java/com/hazelcast/nio/tcp/PacketDecoder.java:81 | `packet.setConn(connection)`: the same packet with its connection replaced |
| Packets.Tagged | hazelcast/src/main/java/com/hazelcast/nio/tcp/PacketDecoder.java:81 | `setConn` applied to every packet of a run, in order; the result has as many packets as the run |
| Packets.UrgentCount | hazelcast/src/main/java/com/hazelcast/nio/tcp/PacketDecoder.java:75-76 | the number of `priorityPacketsRead.inc()` calls over a run: the packets that raise FLAG_URGENT |
| Packets.NormalCount | hazelcast/src/main/java/com/hazelcast/nio/tcp/PacketDecoder.java:77-78 | the number of `normalPacketsRead.inc()` calls over a run: the packets that do not raise FLAG_URGENT |
| Packets.TaggedPacketwise | hazelcast/src/main/java/com/hazelcast/nio/tcp/PacketDecoder.java:81 | tagging keeps every packet in its place and changes only its connection, which becomes the given one |
| Packets.OneMoreDispatched | hazelcast/src/main/java/com/hazelcast/nio/tcp/PacketDecoder.java:74-84 | one more completed packet extends the consumer's sequence by that packet, tagged, and raises exactly its own count by one |
| Packets.CountsPartition | hazelcast/src/main/java/com/hazelcast/nio/tcp/PacketDecoder.java:75-79 | every packet is counted by exactly one of the urgent and normal counts |
| Packets.CountsAppend | hazelcast/src/main/java/com/hazelcast/nio/tcp/PacketDecoder.java:75-79 | the counts of a concatenation are the sums of the counts of its parts |
| Packets.TaggedAppend | hazelcast/src/main/java/com/hazelcast/nio/tcp/PacketDecoder.java:81 | tagging distributes over concatenation, so packets are tagged one at a time in order |
| PacketReading.PacketReader.ReadFrom | hazelcast/src/main/java/com/hazelcast/nio/tcp/PacketDecoder.java:61-62 | one reader call advances the position by what the step consumed, stays within the limit, updates the private state and returns the packet, null or the failure |
| PacketReading.Decode | hazelcast/src/main/java/com/hazelcast/nio/tcp/PacketDecoder.java:60-66 | the loop ends within the window, produces at most one packet per byte consumed, and ends at the limit when it stopped because no bytes remained |
| PacketReading.DecodeStopsOnlyWhenDone | hazelcast/src/main/java/com/hazelcast/nio/tcp/PacketDecoder.java:60-64 | over an empty window the loop asks nothing and changes nothing, and only then; a stop for want of a packet or on a failure happens only with bytes left |
| PacketReading.ChainExtended | hazelcast/src/main/java/com/hazelcast/nio/tcp/PacketDecoder.java:60-65 | one more completed reader call from where the loop stands extends the record of calls made |
| PacketReading.ChainIsPrefixOfRun | hazelcast/src/main/java/com/hazelcast/nio/tcp/PacketDecoder.java:60-65 | the packets the loop has completed so far are the first packets of the run, and the rest of the run continues from the reader state and position they left |
| PacketReading.ChainDrained | hazelcast/src/main/java/com/hazelcast/nio/tcp/PacketDecoder.java:60 | a loop that used up every byte has produced the whole run, stopped as drained |
| PacketReading.ChainStopped | hazelcast/src/main/java/com/hazelcast/nio/tcp/PacketDecoder.java:61-64 | a loop whose next reader call yields null or fails has produced the whole run, which stops where that call left the position |
| PacketDecoding.PacketDecoder.constructor | hazelcast/src/main/java/com/hazelcast/nio/tcp/PacketDecoder.java:43-49 | `connection` and `dst` are stored, a fresh reader is created as the field initialiser does, and no buffer exists yet; the two counters starting at zero are the model's stand-in for the base class's counter objects |
| PacketDecoding.PacketDecoder.HandlerAdded | hazelcast/src/main/java/com/hazelcast/nio/tcp/PacketDecoder.java:52-54 | a fresh, empty receive buffer in write mode with the requested capacity |
| PacketDecoding.PacketDecoder.OnPacketComplete | hazelcast/src/main/java/com/hazelcast/nio/tcp/PacketDecoder.java:74-84 | exactly one counter goes up by one, the priority one if and only if FLAG_URGENT is raised, and `dst` receives the packet tagged with this connection, appended after the packets it already had |
| PacketDecoding.PacketConsumer.Accept | hazelcast/src/main/java/com/hazelcast/nio/tcp/PacketDecoder.java:83 | `dst.accept`: the packet is appended after those the consumer already accepted |
| PacketDecoding.PacketDecoder.DecodeAvailable | hazelcast/src/main/java/com/hazelcast/nio/tcp/PacketDecoder.java:59-66 | the while loop performs exactly the run `Decode` describes: its packets reach `dst` in order and tagged, each is counted once, the reader and the position end where the run ends, and the result is CLEAN unless the run failed |
| PacketDecoding.PacketDecoder.OnRead | hazelcast/src/main/java/com/hazelcast/nio/tcp/PacketDecoder.java:57-72 | on every exit path, including a reader failure, the buffer is back in write mode at full capacity, holding exactly the unconsumed received bytes in order; the run's packets are dispatched in order, tagged and counted, with the counters together rising by the number of packets; the result is CLEAN, or the reader's failure |
| DecoderScenarios.TwoPacketsThenPartial | hazelcast/src/main/java/com/hazelcast/nio/tcp/PacketDecoder.java:57-84 | an urgent 10-byte packet, a normal 8-byte packet and 5 bytes of a third: both packets are dispatched in order, one priority and one normal are counted, and the buffer keeps exactly the 5 bytes |
| DecoderScenarios.TwoWholePackets | hazelcast/src/main/java/com/hazelcast/nio/tcp/PacketDecoder.java:60-66 | a buffer holding exactly two packets has both dispatched in wire order within one call and is left empty |
| DecoderScenarios.FailureOnSecondPacket | hazelcast/src/main/java/com/hazelcast/nio/tcp/PacketDecoder.java:59-71 | when the reader fails on the second packet, the first has been dispatched and counted once, and the buffer is restored holding the bytes the reader did not consume |

## Left out

- Wire format: `PacketIOHelper` and `Packet` are not part of this model. The reader is a `parse` function supplied when the decoder is built, and it is bound only by `WellBehaved`. So whether reading a stream in fragments gives the same packets as reading it whole, which depends on the reader's own state machine, is not proved.
- The reader contract `WellBehaved` lets a `NoPacket` step consume bytes, as a resumable reader copying a partial frame into its own state would. The stricter contract, where a `null` result leaves the position alone, is the special case `NoPacket(0, _)`, and `TwoPacketsThenPartial` uses that case.
- `initSrcBuffer` (from `InboundHandlerWithCounters`) is not part of this model. Its sizing of the buffer from the socket options becomes `HandlerAdded`'s `capacity` parameter.
- PacketDecoding.PacketDecoder.OnRead does not model `priorityPacketsRead` and `normalPacketsRead` as 64-bit counter objects that are read by other threads. They are unbounded `nat` fields, which cannot overflow at all; the source's 64-bit counters cannot realistically overflow either, so nothing observable is lost.
- Exceptions thrown by `dst.accept`, and I/O failures from below this core, are not modelled. The only failure is the reader's. Its exception becomes the result `Threw`, after the `finally` restoration has run.
- Threading, the NIO event loop, the socket read that fills the buffer, and the handler pipeline are not modelled. The socket read is reduced to `Put`.
- The values of `Packet.FLAG_URGENT` (bit 4) and the constants of `HandlerStatus` (CLEAN, DIRTY, BLOCKED) come from classes that are not part of this model. The model uses those values as they are documented.
- `PacketEncoder`, the outbound side, is not modelled.
