/** The circular queues of utilities/artifact_queue.c. The artifact queue and the response queue
    are the same code over two element types, so one generic class stands for both. */
module BoundedQueues {
  import opened Base

  const QUEUE_CAPACITY: nat := 16

  /** How far behind the head a slot lies. The live window is the slots with offset below size. */
  function Offset(head: nat, slot: nat): nat
    requires head < QUEUE_CAPACITY && slot < QUEUE_CAPACITY
  {
    if slot >= head then slot - head else slot + QUEUE_CAPACITY - head
  }

  /** The live items stand in the slots from `head` on, in order; every other slot is zero. */
  ghost predicate Window<T>(slots: seq<T>, head: nat, live: seq<T>, zero: T) {
    && |slots| == QUEUE_CAPACITY && head < QUEUE_CAPACITY && |live| <= QUEUE_CAPACITY
    && forall slot :: 0 <= slot < QUEUE_CAPACITY ==>
         slots[slot] == if Offset(head, slot) < |live| then live[Offset(head, slot)] else zero
  }

  lemma WindowAfterEnqueue<T>(slots: seq<T>, head: nat, live: seq<T>, zero: T, item: T)
    requires Window(slots, head, live, zero) && |live| < QUEUE_CAPACITY
    ensures Window(slots[(head + |live|) % QUEUE_CAPACITY := item], head, live + [item], zero)
  {
  }

  lemma WindowAfterDequeue<T>(slots: seq<T>, head: nat, live: seq<T>, zero: T)
    requires Window(slots, head, live, zero) && live != []
    ensures slots[head] == live[0]
    ensures Window(slots[head := zero], (head + 1) % QUEUE_CAPACITY, live[1..], zero)
  {
  }

  lemma InWindow<T>(slots: seq<T>, head: nat, live: seq<T>, zero: T)
    requires Window(slots, head, live, zero)
    ensures |slots| == QUEUE_CAPACITY && head < QUEUE_CAPACITY && |live| <= QUEUE_CAPACITY
  {
  }

  class BoundedQueue<T(==)> {
    const items: array<T>
    const zero: T
    var head: nat
    var tail: nat
    var size: nat

    // History since the last Init.
    ghost var enqueued: seq<T>
    ghost var dequeued: seq<T>

    ghost predicate Valid()
      reads this, items
    {
      && items.Length == QUEUE_CAPACITY
      && tail == (head + size) % QUEUE_CAPACITY
      && |enqueued| == |dequeued| + size
      && dequeued == enqueued[..|dequeued|]
      && Window(items[..], head, enqueued[|dequeued|..], zero)
    }

    ghost function Contents(): (s: seq<T>)
      requires Valid()
      reads this, items
      ensures dequeued + s == enqueued && |s| == size
    {
      enqueued[|dequeued|..]
    }

    constructor (zero: T)
      ensures Valid() && Contents() == [] && fresh(items) && this.zero == zero
    {
      this.zero := zero;
      items := new T[QUEUE_CAPACITY](_ => zero);
      head, tail, size := 0, 0, 0;
      enqueued, dequeued := [], [];
    }

    /** memset of the whole struct. */
    method Init()
      requires Valid()
      modifies this, items
      ensures Valid() && Contents() == [] && enqueued == dequeued == []
    {
      forall slot | 0 <= slot < items.Length {
        items[slot] := zero;
      }
      head, tail, size := 0, 0, 0;
      enqueued, dequeued := [], [];
    }

    method Enqueue(item: T) returns (accepted: bool)
      requires Valid()
      modifies this, items
      ensures Valid()
      ensures accepted == (|old(Contents())| < QUEUE_CAPACITY)
      ensures accepted ==> Contents() == old(Contents()) + [item] && enqueued == old(enqueued) + [item]
      ensures !accepted ==> unchanged(this) && items[..] == old(items[..])
      ensures dequeued == old(dequeued)
    {
      if size >= QUEUE_CAPACITY {
        return false;
      }
      hide Window;
      WindowAfterEnqueue(items[..], head, Contents(), zero, item);
      items[tail] := item;
      assert items[..] == old(items[..])[tail := item];
      tail := (tail + 1) % QUEUE_CAPACITY;
      size := size + 1;
      enqueued := enqueued + [item];
      assert enqueued[|dequeued|..] == old(Contents()) + [item];
      return true;
    }

    method Dequeue() returns (item: Option<T>)
      requires Valid()
      modifies this, items
      ensures Valid()
      ensures item == if old(Contents()) == [] then None else Some(old(Contents())[0])
      ensures item.Some? ==> Contents() == old(Contents())[1..] && dequeued == old(dequeued) + [item.value]
      ensures item.None? ==> unchanged(this) && items[..] == old(items[..])
      ensures enqueued == old(enqueued)
    {
      if size == 0 {
        return None;
      }
      hide Window;
      InWindow(items[..], head, Contents(), zero);
      WindowAfterDequeue(items[..], head, Contents(), zero);
      item := Some(items[head]);
      items[head] := zero;
      assert items[..] == old(items[..])[head := zero];
      head := (head + 1) % QUEUE_CAPACITY;
      size := size - 1;
      dequeued := dequeued + [item.value];
      assert enqueued[|dequeued|..] == old(Contents())[1..];
    }

    method Size() returns (n: nat)
      requires Valid()
      ensures n == |Contents()|
    {
      n := size;
    }
  }
}
