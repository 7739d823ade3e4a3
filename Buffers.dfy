/** The part of java.nio.ByteBuffer that the inbound framing loop relies on:
    a fixed-capacity byte array with a position and a limit, and the three
    cursor operations flip, compact and clear (with IOUtil.compactOrClear on top).

    In WRITE mode the bytes [0, position) have been received and limit is the
    capacity; in DRAIN mode the bytes [position, limit) are still unread. */
module Buffers {

  newtype byte = x: int | 0 <= x < 256

  /** A snapshot of a buffer: the backing bytes (their length is the
      capacity) and the two cursors. */
  datatype BufferState = BufferState(bytes: seq<byte>, position: nat, limit: nat)
  {
    predicate Valid() { position <= limit <= |bytes| }

    /** Write mode: the buffer is open for appending up to its capacity. */
    predicate WriteMode() { limit == |bytes| }

    /** In drain mode: the bytes not yet consumed. */
    function Remaining(): seq<byte>
      requires Valid()
    {
      bytes[position..limit]
    }

    /** In write mode: the bytes appended so far. */
    function Written(): seq<byte>
      requires Valid()
    {
      bytes[..position]
    }
  }

  /** ByteBuffer.flip: what was written becomes what is to be read. */
  function Flipped(s: BufferState): (r: BufferState)
    requires s.Valid()
    ensures r.Valid() && r.bytes == s.bytes
    ensures r.position == 0 && r.limit == s.position
    ensures r.Remaining() == s.Written()
  {
    BufferState(s.bytes, 0, s.position)
  }

  /** ByteBuffer.clear: empty and writable; the bytes themselves stay. */
  function Cleared(s: BufferState): (r: BufferState)
    ensures r.Valid() && r.WriteMode() && r.bytes == s.bytes
    ensures r.Written() == []
  {
    BufferState(s.bytes, 0, |s.bytes|)
  }

  /** ByteBuffer.compact: the unread bytes move to the front in their order,
      the position follows them, the limit reopens to the capacity. The
      backing bytes after the moved ones are left as they were. */
  function Compacted(s: BufferState): (r: BufferState)
    requires s.Valid()
    ensures r.Valid() && r.WriteMode() && |r.bytes| == |s.bytes|
    ensures r.Written() == s.Remaining()
    ensures r.bytes[r.position..] == s.bytes[r.position..]
  {
    var n := s.limit - s.position;
    BufferState(s.bytes[s.position..s.limit] + s.bytes[n..], n, |s.bytes|)
  }

  /** IOUtil.compactOrClear: compact when bytes remain, clear otherwise.
      Either way the unread bytes are kept, in order, at the front. */
  function CompactedOrCleared(s: BufferState): (r: BufferState)
    requires s.Valid()
    ensures r.Valid() && r.WriteMode() && |r.bytes| == |s.bytes|
    ensures r.Written() == s.Remaining()
    ensures s.position == s.limit ==> r.bytes == s.bytes
  {
    if s.position < s.limit then Compacted(s) else Cleared(s)
  }

  /** ByteBuffer.put of a byte sequence (what a socket read does to the
      buffer): the bytes land at the position, which moves past them. */
  function Put(s: BufferState, more: seq<byte>): (r: BufferState)
    requires s.Valid() && s.position + |more| <= s.limit
    ensures r.Valid() && r.limit == s.limit && |r.bytes| == |s.bytes|
    ensures r.Written() == s.Written() + more
  {
    var p := s.position;
    BufferState(s.bytes[..p] + more + s.bytes[p + |more|..], p + |more|, s.limit)
  }

  /** Switching to drain mode and straight back, reading nothing, gives
      back exactly the same buffer. */
  lemma FlipThenRestoreIsIdentity(s: BufferState)
    requires s.Valid() && s.WriteMode()
    ensures CompactedOrCleared(Flipped(s)) == s
  {
    // Follows from the contracts of Flipped and CompactedOrCleared.
  }

  /** Drain mode, then `consumed` bytes read, then compact-or-clear: the
      buffer is in write mode again and holds exactly the received bytes
      that were not consumed, in their order; if all were consumed it is
      empty. */
  function Restored(s: BufferState, consumed: nat): (r: BufferState)
    requires s.Valid() && consumed <= s.position
    ensures r.Valid() && r.WriteMode() && |r.bytes| == |s.bytes|
    ensures r.Written() == s.Written()[consumed..]
    ensures consumed == s.position ==> r.position == 0
  {
    var d := Flipped(s).(position := consumed);
    assert d.Remaining() == s.bytes[consumed..s.position];
    CompactedOrCleared(d)
  }

  /** The bytes left over by one decode call come first in the next call's
      drain window, before the bytes a socket read appended in between. */
  lemma LeftoverComesFirst(d: BufferState, more: seq<byte>)
    requires d.Valid()
    requires |d.Remaining()| + |more| <= |d.bytes|
    ensures var w := CompactedOrCleared(d);
      Flipped(Put(w, more)).Remaining() == d.Remaining() + more
  {
  }

  /** The connection's receive buffer, updated in place. */
  class ByteBuffer {
    const data: array<byte>
    var position: nat
    var limit: nat

    ghost predicate Valid()
      reads this
    {
      position <= limit <= data.Length
    }

    /** The whole buffer as a value. */
    function State(): BufferState
      reads this, data
    {
      BufferState(data[..], position, limit)
    }

    function Capacity(): nat
    {
      data.Length
    }

    /** ByteBuffer.hasRemaining. */
    function HasRemaining(): bool
      reads this
    {
      position < limit
    }

    /** ByteBuffer.allocate: an empty buffer in write mode. */
    constructor Allocate(capacity: nat)
      ensures Valid() && fresh(data) && Capacity() == capacity
      ensures State().WriteMode() && State().Written() == []
    {
      data := new byte[capacity];
      position, limit := 0, capacity;
    }

    method Flip()
      requires Valid()
      modifies this
      ensures Valid() && State() == Flipped(old(State()))
    {
      limit, position := position, 0;
    }

    method Clear()
      requires Valid()
      modifies this
      ensures Valid() && State() == Cleared(old(State()))
    {
      position, limit := 0, data.Length;
    }

    /** The unread bytes are copied to the front in one simultaneous move,
        as System.arraycopy does. */
    method Compact()
      requires Valid()
      modifies this, data
      ensures Valid() && State() == Compacted(old(State()))
    {
      var n := limit - position;
      ghost var before, from := data[..], position;
      forall k | 0 <= k < n {
        data[k] := data[position + k];
      }
      position, limit := n, data.Length;
      assert data[..] == before[from..from + n] + before[n..];
    }

    /** IOUtil.compactOrClear. */
    method CompactOrClear()
      requires Valid()
      modifies this, data
      ensures Valid() && State() == CompactedOrCleared(old(State()))
    {
      if HasRemaining() {
        Compact();
      } else {
        Clear();
      }
    }
  }
}
