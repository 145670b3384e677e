/** The three buffers that grow by doubling: the utterance under assembly (supervisor.c) and the
    two HTTP response buffers (stt_adapter.c, llm_adapter.c). */
module GrowthBuffers {
  import opened Base
  import opened Resources

  const UTTERANCE_INITIAL_CAPACITY: nat := 640 * 16
  const RESPONSE_INITIAL_CAPACITY: nat := 4096

  /** Double `capacity` until it holds `need` bytes. */
  function Fit(capacity: nat, need: nat): (fit: nat)
    requires 0 < capacity
    ensures need <= fit && capacity <= fit
    ensures need <= capacity ==> fit == capacity
    decreases need - capacity
  {
    if need <= capacity then capacity else Fit(2 * capacity, need)
  }

  /** base * 2^times */
  function Doubled(base: nat, times: nat): (d: nat)
    ensures base <= d
    decreases times
  {
    if times == 0 then base else Doubled(2 * base, times - 1)
  }

  /** Fit is the least base times a power of two that is large enough. */
  lemma {:induction false} FitIsLeast(base: nat, need: nat)
    requires 0 < base
    ensures exists k: nat :: Fit(base, need) == Doubled(base, k)
    ensures forall k: nat :: need <= Doubled(base, k) ==> Fit(base, need) <= Doubled(base, k)
    decreases need - base
  {
    if need <= base {
      assert base == Doubled(base, 0);
    } else {
      FitIsLeast(2 * base, need);
      var k: nat :| Fit(2 * base, need) == Doubled(2 * base, k);
      assert Fit(base, need) == Doubled(base, k + 1);
      forall j: nat | need <= Doubled(base, j)
        ensures Fit(base, need) <= Doubled(base, j)
      {
        assert Doubled(base, j) == Doubled(2 * base, j - 1);
      }
    }
  }

  /** Growing in two steps ends where growing in one would have. */
  lemma {:induction false} FitComposes(base: nat, first: nat, second: nat)
    requires 0 < base && first <= second
    ensures Fit(Fit(base, first), second) == Fit(base, second)
    decreases first - base
  {
    if first > base {
      FitComposes(2 * base, first, second);
    }
  }

  /** A growing block bounds what its growth costs: the bytes realloc has moved so far are fewer
      than the capacity it has reached. */
  lemma DoublingPaysForMoves(moved: nat, capacity: nat, need: nat)
    requires moved < capacity < need
    ensures moved + capacity < Fit(capacity, need)
  {
    assert Fit(capacity, need) == Fit(2 * capacity, need);
  }

  /** A need that the capacity already covers does not change the capacity the peak decides. */
  lemma FitCovers(base: nat, peak: nat, need: nat)
    requires 0 < base && need <= Fit(base, peak)
    ensures Fit(base, Max(peak, need)) == Fit(base, peak)
  {
    FitComposes(base, peak, Max(peak, need));
  }

  // ---------- The response buffers double a size_t without looking ----------

  /** The largest power of two a size_t holds. */
  const HALF: nat := 0x8000_0000_0000_0000

  /** What is left of `start` after a number of doublings in a size_t. */
  function Wrapped(start: nat, times: nat): nat
    decreases times
  {
    if times == 0 then start else Wrapped(2 * start % (SIZE_MAX + 1), times - 1)
  }

  lemma {:induction false} WrappedStaysBelow(start: nat, left: nat, times: nat)
    requires start == 0 || Doubled(start, left) == HALF
    ensures Wrapped(start, times) <= HALF
    decreases times
  {
    if times > 0 {
      if start == 0 || left == 0 {
        WrappedStaysBelow(0, 0, times - 1);
      } else {
        WrappedStaysBelow(2 * start, left - 1, times - 1);
      }
    }
  }

  lemma {:induction false} WrappedReachesHalf(start: nat, left: nat)
    requires Doubled(start, left) == HALF
    ensures Wrapped(start, left) == HALF
    decreases left
  {
    if left > 0 {
      WrappedReachesHalf(2 * start, left - 1);
    }
  }

  /** From any power of two, the unguarded doubling loop comes to an end if and only if the need is
      at most 2^63, and then without wrapping; above that it runs into 0 and never ends. */
  lemma DoublingLoopEnds(start: nat, left: nat, need: nat)
    requires 0 < start && Doubled(start, left) == HALF
    ensures (exists times :: need <= Wrapped(start, times)) <==> need <= HALF
    ensures need <= HALF ==> Fit(start, need) <= HALF
  {
    FitIsLeast(start, need);
    WrappedReachesHalf(start, left);
    forall times
      ensures Wrapped(start, times) <= HALF
    {
      WrappedStaysBelow(start, left, times);
    }
  }

  lemma {:induction false} DoubledInTwo(base: nat, first: nat, second: nat)
    ensures Doubled(base, first + second) == Doubled(Doubled(base, first), second)
    decreases first
  {
    if first > 0 {
      DoubledInTwo(2 * base, first - 1, second);
    }
  }

  lemma TenDoublings(base: nat, more: nat)
    ensures Doubled(base, 10 + more) == Doubled(1024 * base, more)
  {
    assert Doubled(base, 3) == 8 * base && Doubled(8 * base, 3) == 64 * base && Doubled(64 * base, 4) == 1024 * base;
    DoubledInTwo(base, 3, 7 + more);
    DoubledInTwo(8 * base, 3, 4 + more);
    DoubledInTwo(64 * base, 4, more);
  }

  /** Every capacity a response buffer can have is such a power of two. */
  lemma ResponseCapacitiesReachHalf()
    ensures Doubled(1, 63) == Doubled(RESPONSE_INITIAL_CAPACITY, 51) == HALF
  {
    TenDoublings(1, 53);
    assert Doubled(1024, 53) == Doubled(2048, 52) == Doubled(4096, 51);
    TenDoublings(0x1000, 41);
    TenDoublings(0x40_0000, 31);
    TenDoublings(0x1_0000_0000, 21);
    TenDoublings(0x400_0000_0000, 11);
    TenDoublings(0x10_0000_0000_0000, 1);
  }

  /** How appending to the utterance turns out; `granted` is realloc's answer if it is asked. */
  function UtteranceAppendStatus(size: nat, capacity: nat, count: nat, granted: bool): Status {
    if count == 0 then InvalidArgument
    else if size > Less(SIZE_MAX, count) then IoError
    else if size + count <= capacity then Ok
    else if Fit(if capacity == 0 then UTTERANCE_INITIAL_CAPACITY else capacity, size + count) > SIZE_MAX then IoError
    else if granted then Ok else IoError
  }

  function UtteranceCapacity(capacity: nat, need: nat): nat {
    if need <= capacity then capacity
    else Fit(if capacity == 0 then UTTERANCE_INITIAL_CAPACITY else capacity, need)
  }

  /** The largest capacity the utterance can have: 10240 * 2^50, the last doubling a size_t holds. */
  const LARGEST_UTTERANCE: nat := 0xA000_0000_0000_0000

  /** A capacity on the way there. */
  ghost predicate UtteranceSized(capacity: nat) {
    capacity == 0 || exists left: nat :: Doubled(capacity, left) == LARGEST_UTTERANCE
  }

  lemma InitialIsSized()
    ensures Doubled(UTTERANCE_INITIAL_CAPACITY, 50) == LARGEST_UTTERANCE
    ensures UtteranceSized(UTTERANCE_INITIAL_CAPACITY)
  {
    TenDoublings(0x2800, 40);
    TenDoublings(0xA0_0000, 30);
    TenDoublings(0x2_8000_0000, 20);
    TenDoublings(0xA00_0000_0000, 10);
    TenDoublings(0x28_0000_0000_0000, 0);
  }

  /** Doubling `start` until it covers `need` stays in a size_t if and only if the largest capacity
      covers it; what it arrives at is then on the way there too. */
  lemma {:induction false} FitInSizeT(start: nat, left: nat, need: nat)
    requires 0 < start && Doubled(start, left) == LARGEST_UTTERANCE
    ensures Fit(start, need) <= SIZE_MAX <==> need <= LARGEST_UTTERANCE
    ensures need <= LARGEST_UTTERANCE ==> UtteranceSized(Fit(start, need)) && Fit(start, need) <= LARGEST_UTTERANCE
    decreases left
  {
    if need <= start {
      assert start <= LARGEST_UTTERANCE;
    } else if left > 0 {
      FitInSizeT(2 * start, left - 1, need);
    }
  }

  /** An append that has something to append succeeds if and only if it fits in the block, or realloc
      grants the growth and the need is not beyond the largest capacity; it fails with IoError. */
  lemma AppendSucceedsExactly(size: nat, capacity: nat, count: nat, granted: bool)
    requires UtteranceSized(capacity) && size <= capacity <= SIZE_MAX && 0 < count
    ensures var status := UtteranceAppendStatus(size, capacity, count, granted);
            && (status == Ok <==> size + count <= capacity || (granted && size + count <= LARGEST_UTTERANCE))
            && status in {Ok, IoError}
  {
    InitialIsSized();
    var start := if capacity == 0 then UTTERANCE_INITIAL_CAPACITY else capacity;
    var left: nat :| Doubled(start, left) == LARGEST_UTTERANCE;
    FitInSizeT(start, left, size + count);
  }

  /** What an append leaves is again a capacity on the way to the largest. */
  lemma AppendKeepsSized(size: nat, capacity: nat, count: nat, granted: bool)
    requires UtteranceSized(capacity) && capacity <= SIZE_MAX
    requires UtteranceAppendStatus(size, capacity, count, granted) == Ok
    ensures UtteranceSized(UtteranceCapacity(capacity, size + count))
    ensures size + count <= UtteranceCapacity(capacity, size + count) <= SIZE_MAX
  {
    InitialIsSized();
    var start := if capacity == 0 then UTTERANCE_INITIAL_CAPACITY else capacity;
    var left: nat :| Doubled(start, left) == LARGEST_UTTERANCE;
    FitInSizeT(start, left, size + count);
  }

  /** The capacity that a peak need within a size_t decides. */
  lemma PeakIsSized(peak: nat)
    requires Fit(UTTERANCE_INITIAL_CAPACITY, peak) <= SIZE_MAX
    ensures UtteranceSized(Fit(UTTERANCE_INITIAL_CAPACITY, peak))
  {
    InitialIsSized();
    FitInSizeT(UTTERANCE_INITIAL_CAPACITY, 50, peak);
  }

  /** The guarded doubling loop: None if a size_t cannot hold the capacity. */
  method DoubleUntil(start: nat, need: nat) returns (capacity: Option<nat>)
    requires 0 < start <= SIZE_MAX
    ensures capacity == if Fit(start, need) > SIZE_MAX then None else Some(Fit(start, need))
  {
    var current := start;
    while current < need
      invariant 0 < current <= SIZE_MAX && Fit(current, need) == Fit(start, need)
    {
      if current > SIZE_MAX / 2 {
        return None;
      }
      current := current * 2;
    }
    return Some(current);
  }

  /** The bytes realloc may copy when `need` bytes are wanted: the whole old block if it grows. */
  function Moved(capacity: nat, need: nat): nat {
    if need <= capacity then 0 else capacity
  }

  /** One grown block. `peak` is the largest number of bytes a successful append ever needed, and
      `moved` the number of bytes realloc may have copied since the block was first allocated. */
  class Block {
    var data: array?<byte>
    var size: nat
    var capacity: nat
    ghost var base: nat
    ghost var peak: nat
    ghost var moved: nat

    ghost predicate Valid()
      reads this, data
    {
      && (data == null <==> capacity == 0)
      && (data != null ==> data.Length == capacity)
      && size <= capacity && size <= peak
      && 0 < base
      && (capacity == 0 ==> moved == 0 && peak == 0)
      && (capacity > 0 ==> capacity == Fit(base, peak) && moved < capacity)
      && (base == UTTERANCE_INITIAL_CAPACITY ==> capacity <= SIZE_MAX)
    }

    ghost function Bytes(): (s: seq<byte>)
      requires Valid()
      reads this, data
      ensures |s| == size
    {
      if data == null then [] else data[..size]
    }

    constructor Empty(ghost base: nat)
      requires 0 < base
      ensures Valid() && data == null && Bytes() == [] && this.base == base && peak == moved == 0
    {
      data, size, capacity := null, 0, 0;
      this.base, peak, moved := base, 0, 0;
    }

    /** malloc(1) with a terminating NUL, as before every transcription. */
    constructor OneByte()
      ensures Valid() && fresh(data) && capacity == 1 && Bytes() == [] && base == 1 && peak == moved == 0
    {
      data, size, capacity := new byte[1](_ => 0), 0, 1;
      base, peak, moved := 1, 0, 0;
    }

    /** realloc to the capacity the doubling loop arrived at. */
    method Resize(newCapacity: nat, ghost need: nat)
      requires Valid() && capacity < need && newCapacity == Fit(if capacity == 0 then base else capacity, need)
      requires base == UTTERANCE_INITIAL_CAPACITY ==> newCapacity <= SIZE_MAX
      modifies this
      ensures Valid() && fresh(data) && capacity == newCapacity && size == old(size) && Bytes() == old(Bytes())
      ensures base == old(base) && old(peak) < need == peak
      ensures moved == old(moved) + old(capacity)
    {
      if capacity > 0 {
        DoublingPaysForMoves(moved, capacity, need);
        FitComposes(base, peak, need);
      }
      peak, moved := need, moved + capacity;
      var resized := new byte[newCapacity](_ => 0);
      if data != null {
        forall i | 0 <= i < size {
          resized[i] := data[i];
        }
      }
      data, capacity := resized, newCapacity;
    }

    /** An append needs `need` bytes and the block has them. */
    ghost method Need(need: nat)
      requires Valid() && need <= capacity
      modifies this`peak
      ensures Valid() && peak == Max(old(peak), need) && Bytes() == old(Bytes())
    {
      if capacity > 0 {
        FitCovers(base, peak, need);
        peak := Max(peak, need);
      }
    }

    /** memcpy to the end of the used part. */
    method Put(bytes: seq<byte>)
      requires Valid() && data != null && size + |bytes| <= capacity && size + |bytes| <= peak
      modifies this`size, data
      ensures Valid() && size == old(size) + |bytes| && Bytes() == old(Bytes()) + bytes
    {
      forall i | 0 <= i < |bytes| {
        data[size + i] := bytes[i];
      }
      size := size + |bytes|;
    }

    /** The NUL behind the used part. */
    method Terminate()
      requires Valid() && size < capacity
      modifies data
      ensures Valid() && Bytes() == old(Bytes()) && data[size] == 0
    {
      data[size] := 0;
    }

    /** append_utterance_pcm */
    method AppendUtterance(heap: Heap, pcm: seq<byte>, granted: bool) returns (status: Status)
      requires Valid() && heap.Valid() && base == UTTERANCE_INITIAL_CAPACITY && |pcm| <= SIZE_MAX
      requires data != null ==> data in heap.live
      modifies this, data, heap
      ensures Valid() && heap.Valid() && base == old(base)
      ensures status == UtteranceAppendStatus(old(size), old(capacity), |pcm|, granted)
      ensures status == Ok <==>
              && |pcm| > 0
              && (|| old(size) + |pcm| <= old(capacity)
                  || (granted && old(size) + |pcm| <= LARGEST_UTTERANCE))
      ensures status in {Ok, IoError} || (status == InvalidArgument && |pcm| == 0)
      ensures status == Ok ==>
                && data != null && (data == old(data) || fresh(data))
                && Bytes() == old(Bytes()) + pcm
                && capacity == UtteranceCapacity(old(capacity), old(size) + |pcm|)
                && peak == Max(old(peak), old(size) + |pcm|)
                && moved == old(moved) + Moved(old(capacity), old(size) + |pcm|)
      ensures status != Ok ==> unchanged(this) && Bytes() == old(Bytes())
      ensures heap.live == old(heap.live) - (if old(data) != null then {old(data)} else {})
                           + (if data != null then {data} else {})
    {
      hide Block.Bytes, Fit;
      if |pcm| == 0 {
        return InvalidArgument;
      }
      PeakIsSized(peak);
      AppendSucceedsExactly(size, capacity, |pcm|, granted);
      if size > SIZE_MAX - |pcm| {
        return IoError;
      }
      var required := size + |pcm|;
      if required > capacity {
        var grown := Grow(heap, required, granted);
        if !grown {
          return IoError;
        }
      }
      Need(required);
      Put(pcm);
      return Ok;
    }

    /** The growth of the utterance: the guarded doubling, then realloc. */
    method Grow(heap: Heap, required: nat, granted: bool) returns (grown: bool)
      requires Valid() && heap.Valid() && base == UTTERANCE_INITIAL_CAPACITY && capacity < required <= SIZE_MAX
      requires data != null ==> data in heap.live
      modifies this, heap
      ensures Valid() && heap.Valid() && base == old(base)
      ensures var target := Fit(if old(capacity) == 0 then UTTERANCE_INITIAL_CAPACITY else old(capacity), required);
              && grown == (target <= SIZE_MAX && granted)
              && (grown ==> capacity == target)
      ensures grown ==>
                && fresh(data) && size == old(size) && Bytes() == old(Bytes())
                && old(peak) < required == peak && moved == old(moved) + old(capacity)
                && heap.live == old(heap.live) - (if old(data) != null then {old(data)} else {}) + {data}
      ensures !grown ==> unchanged(this) && heap.live == old(heap.live) && Bytes() == old(Bytes())
    {
      var newCapacity := DoubleUntil(if capacity == 0 then UTTERANCE_INITIAL_CAPACITY else capacity, required);
      if newCapacity.None? || !granted {
        return false;
      }
      Reallocate(heap, newCapacity.value, required);
      return true;
    }

    /** A successful realloc: the old block is given back, the new one is owed. */
    method Reallocate(heap: Heap, newCapacity: nat, ghost need: nat)
      requires Valid() && heap.Valid() && (data != null ==> data in heap.live)
      requires capacity < need && newCapacity == Fit(if capacity == 0 then base else capacity, need)
      requires base == UTTERANCE_INITIAL_CAPACITY ==> newCapacity <= SIZE_MAX
      modifies this, heap
      ensures Valid() && heap.Valid() && fresh(data) && base == old(base)
      ensures old(peak) < need == peak && moved == old(moved) + old(capacity)
      ensures capacity == newCapacity && size == old(size) && Bytes() == old(Bytes())
      ensures heap.live == old(heap.live) - (if old(data) != null then {old(data)} else {}) + {data}
    {
      if data != null {
        heap.Release(data);
      }
      Resize(newCapacity, need);
      heap.Acquire(data);
    }

    /** write_callback of the STT adapter, which always starts from one byte. Returns the number
        of bytes taken. */
    method AppendStt(chunk: seq<byte>, granted: bool) returns (taken: nat)
      requires Valid() && base in {1, RESPONSE_INITIAL_CAPACITY}
      requires capacity == 0 ==> base == RESPONSE_INITIAL_CAPACITY
      modifies this, data
      ensures Valid() && base == old(base) && (data == old(data) || fresh(data))
      ensures granted || old(size) + |chunk| < old(capacity) ==>
                && taken == |chunk| && Bytes() == old(Bytes()) + chunk && size < capacity && data[size] == 0
                && capacity == Fit(if old(capacity) == 0 then base else old(capacity), old(size) + |chunk| + 1)
                && peak == Max(old(peak), old(size) + |chunk| + 1)
                && moved == old(moved) + Moved(old(capacity), old(size) + |chunk| + 1)
      ensures !granted && old(size) + |chunk| >= old(capacity) ==>
                taken == 0 && unchanged(this) && Bytes() == old(Bytes())
    {
      hide Block.Bytes;
      if size + |chunk| + 1 > capacity {
        var newCapacity := if capacity == 0 then RESPONSE_INITIAL_CAPACITY else capacity;
        ghost var start := newCapacity;
        while newCapacity < size + |chunk| + 1
          invariant 0 < newCapacity && Fit(newCapacity, size + |chunk| + 1) == Fit(start, size + |chunk| + 1)
        {
          newCapacity := newCapacity * 2;
        }
        if !granted {
          return 0;
        }
        Resize(newCapacity, size + |chunk| + 1);
      }
      Need(size + |chunk| + 1);
      Put(chunk);
      Terminate();
      return |chunk|;
    }

    /** write_callback of the LLM adapter, which starts without a block. */
    method AppendLlm(chunk: seq<byte>, granted: bool) returns (taken: nat)
      requires Valid() && base == RESPONSE_INITIAL_CAPACITY
      modifies this, data
      ensures Valid() && base == old(base) && (data == old(data) || fresh(data))
      ensures granted || old(size) + |chunk| < old(capacity) ==>
                && taken == |chunk| && Bytes() == old(Bytes()) + chunk && size < capacity && data[size] == 0
                && capacity == Fit(if old(capacity) == 0 then base else old(capacity), old(size) + |chunk| + 1)
                && peak == Max(old(peak), old(size) + |chunk| + 1)
                && moved == old(moved) + Moved(old(capacity), old(size) + |chunk| + 1)
      ensures !granted && old(size) + |chunk| >= old(capacity) ==>
                taken == 0 && unchanged(this) && Bytes() == old(Bytes())
    {
      hide Block.Bytes;
      if size + |chunk| >= capacity {
        var newCapacity := if capacity == 0 then RESPONSE_INITIAL_CAPACITY else capacity * 2;
        ghost var start := if capacity == 0 then RESPONSE_INITIAL_CAPACITY else capacity;
        while newCapacity <= size + |chunk|
          invariant 0 < newCapacity && Fit(newCapacity, size + |chunk| + 1) == Fit(start, size + |chunk| + 1)
        {
          newCapacity := newCapacity * 2;
        }
        if !granted {
          return 0;
        }
        Resize(newCapacity, size + |chunk| + 1);
      }
      Need(size + |chunk| + 1);
      Put(chunk);
      Terminate();
      return |chunk|;
    }

    /** reset_utterance: forget the bytes, keep the block. */
    method Reset()
      requires Valid()
      modifies this`size
      ensures Valid() && Bytes() == [] && size == 0
    {
      size := 0;
    }

    method Free(heap: Heap)
      requires Valid() && heap.Valid() && (data != null ==> data in heap.live)
      modifies this, heap
      ensures Valid() && heap.Valid() && data == null && capacity == 0 && Bytes() == [] && base == old(base)
      ensures peak == moved == 0
      ensures var given := if old(data) != null then {old(data)} else {};
              heap.live == old(heap.live) - given && heap.released == old(heap.released) + given
    {
      if data != null {
        heap.Release(data);
      }
      data, size, capacity := null, 0, 0;
      peak, moved := 0, 0;
    }
  }
}
