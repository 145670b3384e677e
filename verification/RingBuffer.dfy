/** The capture ring (ring_buffer.c) as one thread sees it: two free-running counters over a
    byte array, with copies that wrap in two chunks. */
module RingBuffers {
  import opened Base
  import opened Resources

  /** Bytes between two counter snapshots, clamped to 0..capacity. */
  function UsedSnapshot(head: nat, tail: nat, capacity: nat): nat {
    if head < tail then 0
    else if head - tail > capacity then capacity
    else head - tail
  }

  /** Where a two-chunk copy that starts at counter value `start` puts its byte number i. */
  function ChunkSlot(start: nat, count: nat, i: nat, capacity: nat): (slot: nat)
    requires i < count <= capacity
  {
    var position := start % capacity;
    var first := Min(count, capacity - position);
    if i < first then position + i else i - first
  }

  ghost predicate Touched(start: nat, count: nat, slot: nat, capacity: nat)
    requires count <= capacity
  {
    exists i :: 0 <= i < count && ChunkSlot(start, count, i, capacity) == slot
  }

  lemma ChunksTouch(start: nat, count: nat, slot: nat, capacity: nat)
    requires count <= capacity && slot < capacity
    ensures var position := start % capacity;
            var first := Min(count, capacity - position);
            position <= slot < position + first || slot < count - first ==> Touched(start, count, slot, capacity)
  {
    var position := start % capacity;
    var first := Min(count, capacity - position);
    if position <= slot < position + first {
      assert ChunkSlot(start, count, slot - position, capacity) == slot;
    } else if slot < count - first {
      assert ChunkSlot(start, count, slot + first, capacity) == slot;
    }
  }

  lemma AtLeastOneTurn(turns: int, capacity: nat)
    requires turns >= 1
    ensures turns * capacity >= capacity
  {
  }

  /** Two stream positions share a slot only when they are at least one turn of the ring apart. */
  lemma SameSlot(i: nat, j: nat, capacity: nat)
    requires 0 < capacity && i < j && i % capacity == j % capacity
    ensures i + capacity <= j
  {
    var turns := j / capacity - i / capacity;
    assert j - i == turns * capacity;
    assert turns >= 1;
    AtLeastOneTurn(turns, capacity);
  }

  /** The two chunks together store byte i at slot (start + i) mod capacity. */
  lemma ChunkSlotIsModular(start: nat, count: nat, i: nat, capacity: nat)
    requires i < count <= capacity
    ensures ChunkSlot(start, count, i, capacity) == (start + i) % capacity < capacity
  {
    var p, q := start % capacity, start / capacity;
    assert start + i == q * capacity + (p + i);
    if p + i < capacity {
      ModUnique(start + i, q, p + i, capacity);
    } else {
      assert start + i == (q + 1) * capacity + (p + i - capacity);
      ModUnique(start + i, q + 1, p + i - capacity, capacity);
    }
  }

  lemma ModUnique(n: nat, q: nat, r: nat, capacity: nat)
    requires r < capacity && n == q * capacity + r
    ensures n % capacity == r && n / capacity == q
  {
    var turns := n / capacity - q;
    assert turns * capacity == r - n % capacity by {
      assert n == (n / capacity) * capacity + n % capacity;
    }
    if turns >= 1 { AtLeastOneTurn(turns, capacity); }
    if -turns >= 1 { AtLeastOneTurn(-turns, capacity); }
  }

  /** The counters are size_t. With a counter that wraps at `modulus`, the snapshot is the true
      occupancy exactly as long as both counters have wrapped equally often. */
  lemma SnapshotSurvivesWrap(head: nat, tail: nat, capacity: nat, modulus: nat)
    requires tail <= head <= tail + capacity && capacity < modulus
    ensures UsedSnapshot(head % modulus, tail % modulus, capacity) == head - tail
            <==> head / modulus == tail / modulus
  {
    var turns := head / modulus - tail / modulus;
    assert head - tail == turns * modulus + (head % modulus - tail % modulus) by {
      assert head == (head / modulus) * modulus + head % modulus;
      assert tail == (tail / modulus) * modulus + tail % modulus;
      assert turns * modulus == (head / modulus) * modulus - (tail / modulus) * modulus;
    }
    if turns >= 1 { AtLeastOneTurn(turns, modulus); }
    if -turns >= 1 { AtLeastOneTurn(-turns, modulus); }
  }

  /** What goes wrong at the first wrap: a ring that holds one byte reports none. */
  lemma SnapshotAfterWrapLosesData(capacity: nat)
    requires 0 < capacity < SIZE_MAX
    ensures UsedSnapshot((SIZE_MAX + 1) % (SIZE_MAX + 1), SIZE_MAX % (SIZE_MAX + 1), capacity) == 0
  {
  }

  /** The bytes of the stream from `tail` on stand in their slots. */
  ghost predicate Holds(memory: seq<byte>, stream: seq<byte>, tail: nat) {
    0 < |memory| && forall k :: tail <= k < |stream| ==> memory[k % |memory|] == stream[k]
  }

  lemma NothingHeld(memory: seq<byte>, stream: seq<byte>)
    requires 0 < |memory|
    ensures Holds(memory, stream, |stream|)
  {
  }

  lemma HoldsFewer(memory: seq<byte>, stream: seq<byte>, tail: nat, later: nat)
    requires Holds(memory, stream, tail) && tail <= later
    ensures Holds(memory, stream, later)
  {
  }

  /** A two-chunk copy of `input` at counter value `head` leaves the unread bytes before it alone
      and puts its own bytes where a modular read will find them. */
  lemma ChunksWritten(before: seq<byte>, after: seq<byte>, stream: seq<byte>, input: seq<byte>, tail: nat)
    requires |before| == |after| && 0 < |input| && tail <= |stream| && |stream| + |input| <= tail + |after|
    requires Holds(before, stream, tail)
    requires forall i :: 0 <= i < |input| ==> after[ChunkSlot(|stream|, |input|, i, |after|)] == input[i]
    requires forall s :: 0 <= s < |after| && !Touched(|stream|, |input|, s, |after|) ==> after[s] == before[s]
    ensures Holds(after, stream + input, tail)
  {
    forall k | tail <= k < |stream| + |input|
      ensures after[k % |after|] == (stream + input)[k]
    {
      if k >= |stream| {
        ChunkSlotIsModular(|stream|, |input|, k - |stream|, |after|);
      } else if Touched(|stream|, |input|, k % |after|, |after|) {
        var i :| 0 <= i < |input| && ChunkSlot(|stream|, |input|, i, |after|) == k % |after|;
        ChunkSlotIsModular(|stream|, |input|, i, |after|);
        SameSlot(k, |stream| + i, |after|);
        assert false;
      }
    }
  }

  /** memcpy into `target`, starting at `at`. */
  method CopyInto(target: array<byte>, at: nat, source: seq<byte>)
    requires at + |source| <= target.Length
    modifies target
    ensures forall i :: 0 <= i < |source| ==> target[at + i] == source[i]
    ensures forall s :: 0 <= s < target.Length && !(at <= s < at + |source|) ==> target[s] == old(target[s])
  {
    forall i | 0 <= i < |source| {
      target[at + i] := source[i];
    }
  }

  /** The one or two memcpy calls of a write: up to the end of the array, then from its start. */
  method CopyChunks(target: array<byte>, start: nat, input: seq<byte>)
    requires 0 < |input| <= target.Length
    modifies target
    ensures forall i :: 0 <= i < |input| ==> target[..][ChunkSlot(start, |input|, i, target.Length)] == input[i]
    ensures forall s :: 0 <= s < target.Length && !Touched(start, |input|, s, target.Length)
              ==> target[..][s] == old(target[..])[s]
  {
    var position := start % target.Length;
    var first := Min(|input|, target.Length - position);
    CopyInto(target, position, input[..first]);
    if |input| > first {
      CopyInto(target, 0, input[first..]);
    }
    forall s | 0 <= s < target.Length {
      ChunksTouch(start, |input|, s, target.Length);
    }
  }

  /** The one or two memcpy calls of a read. */
  method ReadChunks(source: array<byte>, start: nat, count: nat) returns (output: seq<byte>)
    requires 0 < count <= source.Length
    ensures |output| == count
    ensures forall i :: 0 <= i < count ==> output[i] == source[..][ChunkSlot(start, count, i, source.Length)]
  {
    var position := start % source.Length;
    var first := Min(count, source.Length - position);
    output := source[position..position + first];
    if count > first {
      output := output + source[..count - first];
    }
  }

  lemma ChunksRead(memory: seq<byte>, stream: seq<byte>, tail: nat, output: seq<byte>)
    requires tail + |output| <= |stream| && |output| <= |memory| && Holds(memory, stream, tail)
    requires forall i :: 0 <= i < |output| ==> output[i] == memory[ChunkSlot(tail, |output|, i, |memory|)]
    ensures output == stream[tail..tail + |output|]
  {
    forall i | 0 <= i < |output|
      ensures output[i] == stream[tail + i]
    {
      ChunkSlotIsModular(tail, |output|, i, |memory|);
    }
  }

  /** calloc */
  method Zeroed(heap: Heap, size: nat) returns (data: array<byte>)
    requires heap.Valid()
    modifies heap
    ensures heap.Valid() && heap.live == old(heap.live) + {data}
    ensures fresh(data) && data.Length == size && data[..] == Repeat(0, size)
  {
    data := new byte[size](_ => 0);
    heap.Acquire(data);
  }

  class RingBuffer {
    var data: array?<byte>
    var capacity: nat
    var head: nat
    var tail: nat
    var overflow: nat
    var underflow: nat

    // History of the calls since Init.
    ghost var accepted: seq<byte>
    ghost var delivered: seq<byte>
    ghost var offered: nat
    ghost var requested: nat

    ghost predicate Valid()
      reads this, data
    {
      && (data == null ==> capacity == 0)
      && (data != null ==> 0 < capacity == data.Length)
      && tail <= head <= tail + capacity
      && |accepted| == head
      && delivered == accepted[..tail]
      && (data != null ==> Holds(data[..], accepted, tail))
      && offered == head + overflow
      && requested == tail + underflow
    }

    /** The unread bytes, oldest first. */
    ghost function Contents(): (s: seq<byte>)
      requires Valid()
      reads this, data
      ensures delivered + s == accepted && |s| == head - tail
    {
      accepted[tail..]
    }

    constructor ()
      ensures Valid() && data == null && Contents() == [] && overflow == underflow == 0
    {
      data, capacity, head, tail, overflow, underflow := null, 0, 0, 0, 0, 0;
      accepted, delivered, offered, requested := [], [], 0, 0;
    }

    /** The pointer is overwritten before the allocation is checked, so a block held before is lost
        either way, and a failed allocation leaves its counters and capacity behind. */
    method Init(heap: Heap, size: nat, granted: bool) returns (status: Status)
      requires Valid() && heap.Valid()
      modifies this, heap
      ensures heap.Valid() && (old(data) == null || size == 0 || granted ==> Valid())
      ensures status == if size == 0 then InvalidArgument else if granted then Ok else IoError
      ensures status == InvalidArgument ==> unchanged(this) && heap.live == old(heap.live)
      ensures status == IoError ==>
                && data == null && heap.live == old(heap.live)
                && unchanged(`capacity, `head, `tail, `overflow, `underflow)
                && unchanged(`accepted, `delivered, `offered, `requested)
      ensures status == Ok ==>
                && data != null && fresh(data) && capacity == size && heap.live == old(heap.live) + {data}
                && Contents() == [] && overflow == underflow == 0 && offered == requested == 0
    {
      hide Holds, RingBuffer.Valid, RingBuffer.Contents;
      if size == 0 {
        return InvalidArgument;
      }
      if !granted {
        if data == null {
          WithoutBlock();
        }
        data := null;
        WithoutBlock();
        return IoError;
      }
      data := Zeroed(heap, size);
      capacity, head, tail, overflow, underflow := size, 0, 0, 0, 0;
      accepted, delivered, offered, requested := [], [], 0, 0;
      Blank();
      return Ok;
    }

    lemma WithoutBlock()
      requires data == null
      ensures Valid() <==>
              && capacity == 0 && head == tail == |accepted| && delivered == accepted
              && offered == head + overflow && requested == tail + underflow
    {
    }

    lemma Blank()
      requires data != null && 0 < capacity == data.Length && head == tail == overflow == underflow == 0
      requires accepted == delivered == [] && offered == requested == 0
      ensures Valid() && Contents() == []
    {
    }

    method Free(heap: Heap)
      requires Valid() && heap.Valid() && (data != null ==> data in heap.live)
      modifies this, heap
      ensures Valid() && heap.Valid() && data == null && Contents() == [] && overflow == underflow == 0
      ensures var given := if old(data) != null then {old(data)} else {};
              heap.live == old(heap.live) - given && heap.released == old(heap.released) + given
    {
      if data != null {
        heap.Release(data);
      }
      data, capacity, head, tail, overflow, underflow := null, 0, 0, 0, 0, 0;
      accepted, delivered, offered, requested := [], [], 0, 0;
    }

    method Write(input: seq<byte>) returns (written: nat)
      requires Valid()
      modifies this, data
      ensures Valid() && data == old(data) && capacity == old(capacity)
      ensures data == null ==> written == 0 && unchanged(this)
      ensures data != null ==>
                && written == Min(|input|, capacity - |old(Contents())|)
                && accepted == old(accepted) + input[..written]
                && overflow == old(overflow) + (|input| - written)
                && offered == old(offered) + |input|
      ensures Contents() == old(Contents()) + input[..written]
      ensures tail == old(tail) && underflow == old(underflow) && requested == old(requested)
    {
      hide Holds, Touched, ChunkSlot;
      if data == null {
        return 0;
      }
      var h, t := head, tail;
      var used := UsedSnapshot(h, t, capacity);
      var space := capacity - used;
      var toWrite := Min(|input|, space);
      if toWrite > 0 {
        CopyChunks(data, h, input[..toWrite]);
        ChunksWritten(old(data[..]), data[..], accepted, input[..toWrite], t);
        accepted := accepted + input[..toWrite];
        head := h + toWrite;
      }
      offered := offered + |input|;
      if toWrite < |input| {
        overflow := overflow + (|input| - toWrite);
      }
      return toWrite;
    }

    method Read(length: nat) returns (output: seq<byte>)
      requires Valid()
      modifies this
      ensures Valid() && data == old(data) && capacity == old(capacity)
      ensures data == null ==> output == [] && unchanged(this)
      ensures data != null ==>
                && output == old(Contents())[..Min(length, |old(Contents())|)]
                && delivered == old(delivered) + output
                && underflow == old(underflow) + (length - |output|)
                && requested == old(requested) + length
      ensures Contents() == old(Contents())[|output|..]
      ensures head == old(head) && overflow == old(overflow) && offered == old(offered)
      ensures accepted == old(accepted)
    {
      hide Holds, Touched, ChunkSlot;
      if data == null {
        return [];
      }
      var t, h := tail, head;
      var available := UsedSnapshot(h, t, capacity);
      var toRead := Min(length, available);
      output := [];
      if toRead > 0 {
        output := ReadChunks(data, t, toRead);
        ChunksRead(data[..], accepted, t, output);
        HoldsFewer(data[..], accepted, t, t + toRead);
        delivered := delivered + output;
        tail := t + toRead;
      }
      requested := requested + length;
      if toRead < length {
        underflow := underflow + (length - toRead);
      }
    }

    method Available() returns (n: nat)
      requires Valid()
      ensures n == |Contents()|
    {
      n := if data == null then 0 else UsedSnapshot(head, tail, capacity);
    }

    method Space() returns (n: nat)
      requires Valid()
      ensures n == capacity - |Contents()|
    {
      if data == null {
        return 0;
      }
      // Available never exceeds the capacity, so the C code's clamp to 0 is dead.
      var available := Available();
      n := capacity - available;
    }
  }
}
