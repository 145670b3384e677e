/** Whole lives of the growth buffers: any sequence of appends, failed or not, and resets. */
module GrowthRuns {
  import opened Base
  import opened Resources
  import opened GrowthBuffers

  datatype Kind = Utterance | Stt | Llm

  /** `granted` is realloc's answer if it is asked. Only the utterance is ever reset. */
  datatype Op = Append(bytes: seq<byte>, granted: bool) | Reset

  function BaseOf(kind: Kind): (base: nat)
    ensures 0 < base
  {
    match kind
    case Utterance => UTTERANCE_INITIAL_CAPACITY
    case Stt => 1
    case Llm => RESPONSE_INITIAL_CAPACITY
  }

  /** The response buffers keep room for a NUL. */
  function Need(kind: Kind, size: nat, count: nat): nat {
    size + count + if kind.Utterance? then 0 else 1
  }

  predicate Takes(kind: Kind, size: nat, capacity: nat, count: nat, granted: bool) {
    if kind.Utterance? then
      count > 0 && (size + count <= capacity || (granted && size + count <= LARGEST_UTTERANCE))
    else granted || Need(kind, size, count) <= capacity
  }

  /** The capacity that the peak need alone decides. The STT buffer starts with one byte. */
  function CapacityFor(kind: Kind, peak: nat): nat {
    if peak == 0 && !kind.Stt? then 0 else Fit(BaseOf(kind), peak)
  }

  /** Whether the last operation is an append that is taken. */
  ghost predicate LastTaken(kind: Kind, ops: seq<Op>)
    requires ops != []
    decreases |ops|, 0
  {
    var before, op := ops[..|ops| - 1], ops[|ops| - 1];
    op.Append? && Takes(kind, |Held(kind, before)|, CapacityFor(kind, PeakNeed(kind, before)), |op.bytes|, op.granted)
  }

  /** The chunks taken since the last reset, one after the other. */
  ghost function Held(kind: Kind, ops: seq<Op>): seq<byte>
    decreases |ops|, 1
  {
    if ops == [] || ops[|ops| - 1].Reset? then []
    else Held(kind, ops[..|ops| - 1]) + if LastTaken(kind, ops) then ops[|ops| - 1].bytes else []
  }

  ghost function LastNeed(kind: Kind, ops: seq<Op>): nat
    requires ops != [] && ops[|ops| - 1].Append?
    decreases |ops|, 0
  {
    Need(kind, |Held(kind, ops[..|ops| - 1])|, |ops[|ops| - 1].bytes|)
  }

  /** The most that any append taken so far has needed, resets or not. */
  ghost function PeakNeed(kind: Kind, ops: seq<Op>): nat
    decreases |ops|, 1
  {
    if ops == [] then 0
    else
      var before := PeakNeed(kind, ops[..|ops| - 1]);
      if LastTaken(kind, ops) then Max(before, LastNeed(kind, ops)) else before
  }

  /** All the bytes realloc may have copied: the old block, every time one is replaced. */
  ghost function TotalMoved(kind: Kind, ops: seq<Op>): nat {
    if ops == [] then 0
    else
      var before := ops[..|ops| - 1];
      TotalMoved(kind, before)
      + if LastTaken(kind, ops) then Moved(CapacityFor(kind, PeakNeed(kind, before)), LastNeed(kind, ops)) else 0
  }

  /** The peak need is an upper bound of every need met, and is one of them unless nothing was
      taken. */
  lemma {:induction false} PeakNeedIsLargest(kind: Kind, ops: seq<Op>)
    ensures forall n :: 0 < n <= |ops| && LastTaken(kind, ops[..n]) ==> LastNeed(kind, ops[..n]) <= PeakNeed(kind, ops)
    ensures || PeakNeed(kind, ops) == 0
            || exists n :: 0 < n <= |ops| && LastTaken(kind, ops[..n])
                           && LastNeed(kind, ops[..n]) == PeakNeed(kind, ops)
    decreases |ops|
  {
    if ops != [] {
      var before := ops[..|ops| - 1];
      PeakNeedIsLargest(kind, before);
      forall n | 0 < n <= |before|
        ensures before[..n] == ops[..n]
      {
      }
      assert ops[..|ops|] == ops;
    }
  }

  lemma CapacityGrows(kind: Kind, peak: nat, need: nat)
    requires 0 < need
    ensures var capacity := CapacityFor(kind, peak);
            CapacityFor(kind, Max(peak, need))
            == if need <= capacity then capacity else Fit(if capacity == 0 then BaseOf(kind) else capacity, need)
  {
    var capacity := CapacityFor(kind, peak);
    if need <= capacity {
      FitCovers(BaseOf(kind), peak, need);
    } else if capacity > 0 {
      FitComposes(BaseOf(kind), peak, need);
    }
  }

  /** Doubling pays for itself over the whole life of a buffer: all that realloc ever copied is
      less than the capacity reached. */
  lemma {:induction false} MovesStayBelowCapacity(kind: Kind, ops: seq<Op>)
    ensures var capacity := CapacityFor(kind, PeakNeed(kind, ops));
            TotalMoved(kind, ops) < capacity || TotalMoved(kind, ops) == capacity == 0
    decreases |ops|
  {
    if ops != [] {
      var before := ops[..|ops| - 1];
      MovesStayBelowCapacity(kind, before);
      if LastTaken(kind, ops) {
        var peak, need := PeakNeed(kind, before), LastNeed(kind, ops);
        CapacityGrows(kind, peak, need);
        var capacity := CapacityFor(kind, peak);
        if 0 < capacity < need {
          DoublingPaysForMoves(TotalMoved(kind, before), capacity, need);
        }
      }
    }
  }

  /** What a buffer is after `ops`. */
  ghost predicate Holds(block: Block, kind: Kind, ops: seq<Op>)
    reads block, block.data
  {
    && block.Valid() && block.base == BaseOf(kind)
    && block.Bytes() == Held(kind, ops)
    && block.peak == PeakNeed(kind, ops)
    && block.capacity == CapacityFor(kind, PeakNeed(kind, ops))
    && block.moved == TotalMoved(kind, ops)
  }

  /** One more operation on a buffer with a history. */
  method Perform(kind: Kind, block: Block, heap: Heap, ghost before: seq<Op>, op: Op)
    requires Holds(block, kind, before) && heap.Valid() && (op.Append? ==> |op.bytes| <= SIZE_MAX)
    requires kind.Utterance? && block.data != null ==> block.data in heap.live
    modifies block, block.data, heap
    ensures Holds(block, kind, before + [op]) && heap.Valid()
    ensures block.data == old(block.data) || fresh(block.data)
    ensures kind.Utterance? && block.data != null ==> block.data in heap.live
  {
    hide Fit, UtteranceAppendStatus, Block.Valid, CapacityFor, Held, PeakNeed, TotalMoved;
    OneMore(kind, before, op);
    match op
    case Reset =>
      block.Reset();
    case Append(bytes, granted) =>
      if kind.Utterance? {
        var _ := block.AppendUtterance(heap, bytes, granted);
      } else {
        PerformResponse(kind, block, before, bytes, granted);
      }
  }

  method PerformResponse(kind: Kind, block: Block, ghost before: seq<Op>, bytes: seq<byte>, granted: bool)
    requires Holds(block, kind, before) && !kind.Utterance?
    modifies block, block.data
    ensures Holds(block, kind, before + [Append(bytes, granted)])
    ensures block.data == old(block.data) || fresh(block.data)
  {
    hide Fit, Block.Valid, CapacityFor, Held, PeakNeed, TotalMoved;
    OneMore(kind, before, Append(bytes, granted));
    SttHasABlock(PeakNeed(kind, before));
    if kind.Stt? {
      var _ := block.AppendStt(bytes, granted);
    } else {
      var _ := block.AppendLlm(bytes, granted);
    }
  }

  lemma SttHasABlock(peak: nat)
    ensures 0 < CapacityFor(Stt, peak)
  {
  }

  /** What one more operation changes. */
  lemma OneMore(kind: Kind, before: seq<Op>, op: Op)
    ensures var ops, capacity := before + [op], CapacityFor(kind, PeakNeed(kind, before));
            && (op.Reset? ==>
                  && Held(kind, ops) == [] && PeakNeed(kind, ops) == PeakNeed(kind, before)
                  && TotalMoved(kind, ops) == TotalMoved(kind, before))
            && (op.Append? ==>
                  var need := Need(kind, |Held(kind, before)|, |op.bytes|);
                  if Takes(kind, |Held(kind, before)|, capacity, |op.bytes|, op.granted) then
                    && Held(kind, ops) == Held(kind, before) + op.bytes
                    && PeakNeed(kind, ops) == Max(PeakNeed(kind, before), need)
                    && TotalMoved(kind, ops) == TotalMoved(kind, before) + Moved(capacity, need)
                    && CapacityFor(kind, PeakNeed(kind, ops))
                       == if need <= capacity then capacity
                          else Fit(if capacity == 0 then BaseOf(kind) else capacity, need)
                  else
                    && Held(kind, ops) == Held(kind, before) && PeakNeed(kind, ops) == PeakNeed(kind, before)
                    && TotalMoved(kind, ops) == TotalMoved(kind, before))
  {
    hide Fit, CapacityFor;
    var ops := before + [op];
    assert ops[..|ops| - 1] == before;
    if op.Append? && LastTaken(kind, ops) {
      CapacityGrows(kind, PeakNeed(kind, before), LastNeed(kind, ops));
    }
  }

  /** Any life of any of the three buffers: it holds exactly the chunks taken since the last
      reset, its capacity is the least fit of the peak need, and all of realloc's copying together
      stays below that capacity. */
  method Live(kind: Kind, block: Block, heap: Heap, ops: seq<Op>)
    requires Holds(block, kind, []) && heap.Valid()
    requires forall i :: 0 <= i < |ops| && ops[i].Append? ==> |ops[i].bytes| <= SIZE_MAX
    requires kind.Utterance? && block.data != null ==> block.data in heap.live
    modifies block, block.data, heap
    ensures Holds(block, kind, ops) && (block.moved < block.capacity || block.moved == block.capacity == 0)
  {
    hide Held, PeakNeed, TotalMoved, CapacityFor, Fit, Block.Valid, Block.Bytes;
    for i := 0 to |ops|
      invariant Holds(block, kind, ops[..i]) && heap.Valid()
      invariant block.data == old(block.data) || fresh(block.data)
      invariant kind.Utterance? && block.data != null ==> block.data in heap.live
    {
      assert ops[..i] + [ops[i]] == ops[..i + 1];
      Perform(kind, block, heap, ops[..i], ops[i]);
    }
    assert ops[..|ops|] == ops;
    MovesStayBelowCapacity(kind, ops);
  }
}
