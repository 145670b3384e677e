/** The capture ring as its two threads see it (ring_buffer.c). Every load, plain byte store,
    plain byte load, publication and counter update of a call is one step, steps of the two
    threads interleave freely, and a load of the other thread's counter may return any value in
    that counter's modification order that is not older than the last one this thread saw.

    Memory is the log of the producer's plain stores. A plain load by the consumer may return
    any logged store to its slot that is not hidden behind a later one the consumer is known to
    have synchronised with, so a torn or early-overwritten byte would show up as a wrong value.
    Counters are natural numbers: the model covers runs that accept at most SIZE_MAX bytes. */
module SpscRing {
  import opened Base
  import opened RingBuffers

  /** A plain store into the array. `position` is the stream position of the byte stored. */
  datatype Store = Store(position: nat, slot: nat, value: byte)

  /** A release store of `head`, with the number of plain stores sequenced before it and the newest
      tail the producer had acquired. Whoever acquires the head has synchronised with both. */
  datatype Published = Published(head: nat, stores: nat, tailSeen: nat)

  datatype Producer =
    | PIdle
    | PCalled(input: seq<byte>)
    | PLoaded(input: seq<byte>, head: nat)
    | PCopying(input: seq<byte>, head: nat, toWrite: nat, done: set<nat>)
    | PCounting(input: seq<byte>, toWrite: nat)
    | PSpace(head: nat)

  datatype Consumer =
    | CIdle
    | CCalled(length: nat)
    | CLoaded(length: nat, tail: nat)
    | CCopying(length: nat, tail: nat, toRead: nat, got: map<nat, byte>)
    | CCounting(length: nat, toRead: nat)
    | CAvailable(head: nat)

  datatype State = State(
    capacity: nat,
    log: seq<Store>,
    heads: seq<Published>,
    tails: seq<nat>,
    headSeen: nat,
    tailSeen: nat,
    overflow: nat,
    underflow: nat,
    producer: Producer,
    consumer: Consumer,
    // The answers of the last space() and available() call not yet used up.
    space: nat,
    available: nat,
    // History.
    accepted: seq<byte>,
    delivered: seq<byte>,
    offered: nat,
    requested: nat)
  {
    ghost predicate Shaped() {
      0 < capacity && heads != [] && tails != [] && headSeen < |heads| && tailSeen < |tails|
    }

    ghost function Head(): nat
      requires heads != []
    {
      heads[|heads| - 1].head
    }

    ghost function Tail(): nat
      requires tails != []
    {
      tails[|tails| - 1]
    }
  }

  ghost function Init(capacity: nat): State {
    State(capacity, [], [Published(0, 0, 0)], [0], 0, 0, 0, 0, PIdle, CIdle, 0, 0, [], [], 0, 0)
  }

  datatype Step =
    | CallWrite(input: seq<byte>)
    | ProducerLoadHead
    | ProducerLoadTail(which: nat)
    | StoreByte(position: nat)
    | PublishHead
    | CountOverflow
    | CallSpace
    | SpaceLoadTail(which: nat)
    | CallRead(length: nat)
    | ConsumerLoadTail
    | ConsumerLoadHead(which: nat)
    | LoadByte(i: nat, value: byte)
    | PublishTail
    | CountUnderflow
    | CallAvailable(which: nat)
    | AvailableLoadTail

  /** Store p is the last one to its slot among the first `stores` stores, or is not one of them. */
  ghost predicate NotHidden(log: seq<Store>, p: nat, stores: nat)
    requires p < |log|
  {
    forall q :: p < q < stores && q < |log| ==> log[q].slot != log[p].slot
  }

  /** A plain load of `slot` may return `value`, for a thread synchronised with the first
      `stores` stores. The array starts zeroed. */
  ghost predicate MayLoad(log: seq<Store>, stores: nat, slot: nat, value: byte) {
    || (exists p :: 0 <= p < |log| && log[p].slot == slot && log[p].value == value && NotHidden(log, p, stores))
    || (value == 0 && forall p :: 0 <= p < stores && p < |log| ==> log[p].slot != slot)
  }

  ghost predicate Enabled(s: State, step: Step)
    requires s.Shaped()
  {
    match step
    case CallWrite(_) => s.producer.PIdle?
    case ProducerLoadHead => s.producer.PCalled?
    case ProducerLoadTail(which) => s.producer.PLoaded? && s.tailSeen <= which < |s.tails|
    case StoreByte(k) =>
      && s.producer.PCopying? && s.producer.toWrite <= Min(|s.producer.input|, s.capacity)
      && s.producer.head <= k < s.producer.head + s.producer.toWrite && k !in s.producer.done
    case PublishHead =>
      && s.producer.PCopying? && s.producer.toWrite <= |s.producer.input|
      && forall k :: s.producer.head <= k < s.producer.head + s.producer.toWrite ==> k in s.producer.done
    case CountOverflow => s.producer.PCounting? && s.producer.toWrite <= |s.producer.input|
    case CallSpace => s.producer.PIdle?
    case SpaceLoadTail(which) => s.producer.PSpace? && s.tailSeen <= which < |s.tails|
    case CallRead(_) => s.consumer.CIdle?
    case ConsumerLoadTail => s.consumer.CCalled?
    case ConsumerLoadHead(which) => s.consumer.CLoaded? && s.headSeen <= which < |s.heads|
    case LoadByte(i, value) =>
      && s.consumer.CCopying? && i < s.consumer.toRead <= s.capacity && i !in s.consumer.got
      && MayLoad(s.log, s.heads[s.headSeen].stores,
                 ChunkSlot(s.consumer.tail, s.consumer.toRead, i, s.capacity), value)
    case PublishTail =>
      && s.consumer.CCopying?
      && forall i :: 0 <= i < s.consumer.toRead ==> i in s.consumer.got
    case CountUnderflow => s.consumer.CCounting? && s.consumer.toRead <= s.consumer.length
    case CallAvailable(which) => s.consumer.CIdle? && s.headSeen <= which < |s.heads|
    case AvailableLoadTail => s.consumer.CAvailable?
  }

  ghost function Apply(s: State, step: Step): State
    requires s.Shaped() && Enabled(s, step)
  {
    match step
    // write(): lines 84-105
    case CallWrite(input) =>
      s.(producer := PCalled(input), offered := s.offered + |input|)
    case ProducerLoadHead =>
      s.(producer := PLoaded(s.producer.input, s.Head()))
    case ProducerLoadTail(which) =>
      var used := UsedSnapshot(s.producer.head, s.tails[which], s.capacity);
      var toWrite := Min(|s.producer.input|, Less(s.capacity, used));
      s.(tailSeen := which,
         producer := if toWrite > 0 then PCopying(s.producer.input, s.producer.head, toWrite, {})
                     else PCounting(s.producer.input, 0))
    case StoreByte(k) =>
      var p := s.producer;
      s.(log := s.log + [Store(k, ChunkSlot(p.head, p.toWrite, k - p.head, s.capacity), p.input[k - p.head])],
         producer := p.(done := p.done + {k}))
    case PublishHead =>
      var p := s.producer;
      s.(heads := s.heads + [Published(p.head + p.toWrite, |s.log|, s.tailSeen)],
         accepted := s.accepted + p.input[..p.toWrite],
         space := Less(s.space, p.toWrite),
         producer := PCounting(p.input, p.toWrite))
    case CountOverflow =>
      s.(overflow := s.overflow + (|s.producer.input| - s.producer.toWrite), producer := PIdle)
    // space(), through available(): lines 144-158
    case CallSpace =>
      s.(producer := PSpace(s.Head()))
    case SpaceLoadTail(which) =>
      s.(tailSeen := which,
         space := Less(s.capacity, UsedSnapshot(s.producer.head, s.tails[which], s.capacity)),
         producer := PIdle)
    // read(): lines 116-136
    case CallRead(length) =>
      s.(consumer := CCalled(length), requested := s.requested + length)
    case ConsumerLoadTail =>
      s.(consumer := CLoaded(s.consumer.length, s.Tail()))
    case ConsumerLoadHead(which) =>
      var toRead := Min(s.consumer.length, UsedSnapshot(s.heads[which].head, s.consumer.tail, s.capacity));
      s.(headSeen := which,
         consumer := if toRead > 0 then CCopying(s.consumer.length, s.consumer.tail, toRead, map[])
                     else CCounting(s.consumer.length, 0))
    case LoadByte(i, value) =>
      s.(consumer := s.consumer.(got := s.consumer.got[i := value]))
    case PublishTail =>
      var c := s.consumer;
      s.(tails := s.tails + [c.tail + c.toRead],
         delivered := s.delivered + seq(c.toRead, i requires 0 <= i < c.toRead => c.got[i]),
         available := Less(s.available, c.toRead),
         consumer := CCounting(c.length, c.toRead))
    case CountUnderflow =>
      s.(underflow := s.underflow + (s.consumer.length - s.consumer.toRead), consumer := CIdle)
    // available(): lines 144-146
    case CallAvailable(which) =>
      s.(headSeen := which, consumer := CAvailable(s.heads[which].head))
    case AvailableLoadTail =>
      s.(available := UsedSnapshot(s.consumer.head, s.Tail(), s.capacity), consumer := CIdle)
  }

  // ---------- The invariant ----------

  ghost predicate HeadsInv(heads: seq<Published>) {
    && (forall i, j :: 0 <= i <= j < |heads| ==> heads[i].head <= heads[j].head)
    && (forall i :: 0 <= i < |heads| ==> heads[i].stores == heads[i].head)
  }

  ghost predicate TailsInv(tails: seq<nat>) {
    forall i, j :: 0 <= i <= j < |tails| ==> tails[i] <= tails[j]
  }

  /** What the two counters, the two histories and the two outstanding promises agree on. */
  ghost predicate CountersInv(s: State) {
    && s.Shaped()
    && HeadsInv(s.heads)
    && TailsInv(s.tails)
    && s.Head() == |s.accepted|
    && s.Tail() + s.available <= s.heads[s.headSeen].head
    && s.Head() + s.space <= s.tails[s.tailSeen] + s.capacity
    && s.delivered == s.accepted[..s.Tail()]
  }

  ghost predicate ProducerInv(s: State)
    requires s.Shaped()
  {
    match s.producer
    case PIdle => s.offered == s.Head() + s.overflow
    case PCalled(input) => s.offered == s.Head() + s.overflow + |input|
    case PLoaded(input, head) => s.offered == s.Head() + s.overflow + |input| && head == s.Head()
    case PCopying(input, head, toWrite, done) =>
      && s.offered == s.Head() + s.overflow + |input|
      && head == s.Head()
      && 0 < toWrite <= |input|
      && head + toWrite <= s.tails[s.tailSeen] + s.capacity
      && toWrite <= s.capacity
      && (forall k :: k in done ==> head <= k < head + toWrite)
    case PCounting(input, toWrite) => toWrite <= |input| && s.offered == s.Head() + s.overflow + (|input| - toWrite)
    case PSpace(head) => s.offered == s.Head() + s.overflow && head == s.Head()
  }

  ghost predicate ConsumerInv(s: State)
    requires s.Shaped()
  {
    match s.consumer
    case CIdle => s.requested == s.Tail() + s.underflow
    case CCalled(length) => s.requested == s.Tail() + s.underflow + length
    case CLoaded(length, tail) => s.requested == s.Tail() + s.underflow + length && tail == s.Tail()
    case CCopying(length, tail, toRead, got) =>
      && s.requested == s.Tail() + s.underflow + length
      && tail == s.Tail()
      && 0 < toRead <= length
      && tail + toRead <= s.heads[s.headSeen].head <= |s.accepted|
      && toRead <= s.capacity
      && (forall i :: i in got ==> i < toRead && got[i] == s.accepted[tail + i])
    case CCounting(length, toRead) => toRead <= length && s.requested == s.Tail() + s.underflow + (length - toRead)
    case CAvailable(head) => s.requested == s.Tail() + s.underflow && head == s.heads[s.headSeen].head
  }

  ghost function InFlight(p: Producer): set<nat> {
    if p.PCopying? then p.done else {}
  }

  /** The accepted stream followed by what the write call in flight is adding. */
  ghost function Stream(s: State): seq<byte> {
    if s.producer.PCopying? && s.producer.toWrite <= |s.producer.input|
    then s.accepted + s.producer.input[..s.producer.toWrite] else s.accepted
  }

  ghost predicate Logged(log: seq<Store>, position: nat) {
    exists p :: 0 <= p < |log| && log[p].position == position
  }

  ghost predicate Placed(log: seq<Store>, stream: seq<byte>, capacity: nat)
    requires 0 < capacity
  {
    forall p :: 0 <= p < |log| ==>
      && log[p].position < |stream|
      && log[p].slot == log[p].position % capacity
      && log[p].value == stream[log[p].position]
  }

  /** Publishing head h tells the consumer about exactly the stores of the first h bytes. */
  ghost predicate Bounded(log: seq<Store>, heads: seq<Published>) {
    forall i, p :: 0 <= i < |heads| && 0 <= p < |log| ==>
      (p < heads[i].stores <==> log[p].position < heads[i].head)
  }

  /** No byte overtakes one that is a whole turn of the ring older. */
  ghost predicate Paced(log: seq<Store>, capacity: nat) {
    forall p, q :: 0 <= p < q < |log| ==> log[p].position < log[q].position + capacity
  }

  ghost predicate Complete(log: seq<Store>, head: nat, inFlight: set<nat>) {
    && |log| == head + |inFlight|
    && (forall k :: 0 <= k < head || k in inFlight ==> Logged(log, k))
    && (forall p :: 0 <= p < |log| ==> log[p].position < head || log[p].position in inFlight)
  }

  /** The log holds every accepted byte, and of a write in flight exactly the bytes done. */
  ghost predicate LogInv(s: State)
    requires s.Shaped()
  {
    && Placed(s.log, Stream(s), s.capacity)
    && Bounded(s.log, s.heads)
    && Paced(s.log, s.capacity)
    && Complete(s.log, s.Head(), InFlight(s.producer))
  }

  ghost predicate ThreadsInv(s: State) {
    CountersInv(s) && ProducerInv(s) && ConsumerInv(s)
  }

  /** A head was published by a producer that knew it would not run over the tail it had seen. */
  ghost predicate SyncInv(s: State)
    requires s.Shaped()
  {
    forall i :: 0 <= i < |s.heads| ==>
      s.heads[i].tailSeen <= s.tailSeen && s.heads[i].head <= s.tails[s.heads[i].tailSeen] + s.capacity
  }

  ghost predicate Inv(s: State) {
    ThreadsInv(s) && LogInv(s) && SyncInv(s)
  }

  lemma InitInv(capacity: nat)
    requires 0 < capacity
    ensures Inv(Init(capacity))
  {
  }

  /** Whatever the memory model lets a reader load for byte k, once it has synchronised with the
      store of byte k, is that byte, as long as the stream is less than a turn ahead. */
  lemma CandidateIsExact(log: seq<Store>, stream: seq<byte>, capacity: nat, k: nat, stores: nat, value: byte)
    requires 0 < capacity && Placed(log, stream, capacity) && Paced(log, capacity)
    requires k < |stream| <= k + capacity && Logged(log, k)
    requires forall p :: 0 <= p < |log| && log[p].position == k ==> p < stores
    requires MayLoad(log, stores, k % capacity, value)
    ensures value == stream[k]
  {
    var p0 :| 0 <= p0 < |log| && log[p0].position == k;
    var p :| 0 <= p < |log| && log[p].slot == k % capacity && log[p].value == value && NotHidden(log, p, stores);
    var j := log[p].position;
    if j < k {
      SameSlot(j, k, capacity);
      assert false;
    } else if j > k {
      SameSlot(k, j, capacity);
      assert false;
    }
  }

  lemma LoadsAreExact(s: State, k: nat, stores: nat, value: byte)
    requires ThreadsInv(s) && LogInv(s)
    requires s.Tail() <= k < s.Head()
    requires forall p :: 0 <= p < |s.log| && s.log[p].position == k ==> p < stores
    requires MayLoad(s.log, stores, k % s.capacity, value)
    ensures value == s.accepted[k]
  {
    hide ConsumerInv, HeadsInv, Placed, Bounded, Paced, MayLoad, Logged;
    CandidateIsExact(s.log, Stream(s), s.capacity, k, stores, value);
  }

  // ---------- Preservation, step by step ----------

  lemma StoreKeepsComplete(log: seq<Store>, head: nat, inFlight: set<nat>, store: Store)
    requires Complete(log, head, inFlight) && store.position !in inFlight
    ensures Complete(log + [store], head, inFlight + {store.position})
  {
    var log' := log + [store];
    assert log'[|log|] == store;
    forall k | Logged(log, k)
      ensures Logged(log', k)
    {
      var p :| 0 <= p < |log| && log[p].position == k;
      assert log'[p].position == k;
    }
  }

  lemma StoreKeepsPlaced(log: seq<Store>, stream: seq<byte>, capacity: nat, store: Store)
    requires 0 < capacity && Placed(log, stream, capacity)
    requires store.position < |stream|
    requires store.slot == store.position % capacity && store.value == stream[store.position]
    ensures Placed(log + [store], stream, capacity)
  {
  }

  lemma StoreKeepsLog(s: State, k: nat)
    requires ThreadsInv(s) && LogInv(s) && Enabled(s, StoreByte(k))
    ensures LogInv(Apply(s, StoreByte(k)))
  {
    hide Placed, Bounded, Paced, Complete, ChunkSlot, HeadsInv, TailsInv, ConsumerInv;
    var t := Apply(s, StoreByte(k));
    var p := s.producer;
    var store := t.log[|s.log|];
    assert Stream(t) == Stream(s);
    ChunkSlotIsModular(p.head, p.toWrite, k - p.head, s.capacity);
    StoreKeepsPlaced(s.log, Stream(s), s.capacity, store);
    StoreKeepsComplete(s.log, s.Head(), p.done, store);
    StoreKeepsOrder(s, store);
  }

  lemma StoreKeepsOrder(s: State, store: Store)
    requires CountersInv(s) && s.producer.PCopying? && ProducerInv(s) && LogInv(s)
    requires s.Head() <= store.position
    ensures Bounded(s.log + [store], s.heads) && Paced(s.log + [store], s.capacity)
  {
    forall i | 0 <= i < |s.heads|
      ensures s.heads[i].head <= s.Head() <= |s.log|
    {
    }
  }

  lemma DoneAll(done: set<nat>, from: nat, to: nat)
    requires from <= to
    requires forall k :: k in done <==> from <= k < to
    ensures |done| == to - from
  {
    if from < to {
      DoneAll(done - {from}, from + 1, to);
    } else {
      assert done == {};
    }
  }

  lemma PublishKeepsLog(log: seq<Store>, heads: seq<Published>, head: nat, done: set<nat>, to: nat, tailSeen: nat)
    requires Complete(log, head, done) && Bounded(log, heads) && head <= to
    requires forall k :: k in done <==> head <= k < to
    ensures |log| == to
    ensures Complete(log, to, {})
    ensures Bounded(log, heads + [Published(to, |log|, tailSeen)])
  {
    DoneAll(done, head, to);
  }

  lemma PublishHeadKeepsLog(s: State)
    requires ThreadsInv(s) && LogInv(s) && Enabled(s, PublishHead)
    ensures LogInv(Apply(s, PublishHead)) && |s.log| == s.Head() + s.producer.toWrite
  {
    var t := Apply(s, PublishHead);
    var p := s.producer;
    PublishKeepsLog(s.log, s.heads, s.Head(), p.done, p.head + p.toWrite, s.tailSeen);
    assert Stream(t) == Stream(s);
  }

  /** No other step touches what LogInv speaks of. */
  lemma OthersKeepLog(s: State, step: Step)
    requires ThreadsInv(s) && LogInv(s) && Enabled(s, step) && !step.StoreByte? && !step.PublishHead?
    ensures LogInv(Apply(s, step))
  {
    var t := Apply(s, step);
    assert t.log == s.log && t.heads == s.heads && t.capacity == s.capacity;
    assert InFlight(t.producer) == InFlight(s.producer);
    assert Stream(t) == Stream(s) || Stream(s) <= Stream(t);
  }

  lemma PublishHeadKeepsThreads(s: State)
    requires ThreadsInv(s) && Enabled(s, PublishHead) && |s.log| == s.Head() + s.producer.toWrite
    ensures ThreadsInv(Apply(s, PublishHead))
  {
  }

  lemma PublishTailKeepsThreads(s: State)
    requires ThreadsInv(s) && Enabled(s, PublishTail)
    ensures ThreadsInv(Apply(s, PublishTail))
  {
    assert Apply(s, PublishTail).delivered == s.accepted[..s.Tail() + s.consumer.toRead];
  }

  lemma ProducerLoadsKeepThreads(s: State, step: Step)
    requires ThreadsInv(s) && Enabled(s, step) && (step.ProducerLoadTail? || step.SpaceLoadTail?)
    ensures ThreadsInv(Apply(s, step))
  {
    hide HeadsInv;
    assert s.tails[s.tailSeen] <= s.tails[step.which] <= s.Tail();
  }

  lemma ConsumerLoadsKeepThreads(s: State, step: Step)
    requires ThreadsInv(s) && Enabled(s, step) && (step.ConsumerLoadHead? || step.CallAvailable?)
    ensures ThreadsInv(Apply(s, step))
  {
    hide TailsInv;
    assert s.heads[s.headSeen].head <= s.heads[step.which].head <= s.Head();
  }

  ghost predicate WriterStep(step: Step) {
    || step.CallWrite? || step.ProducerLoadHead? || step.StoreByte? || step.CountOverflow? || step.CallSpace?
  }

  ghost predicate ReaderStep(step: Step) {
    || step.CallRead? || step.ConsumerLoadTail? || step.LoadByte? || step.CountUnderflow? || step.AvailableLoadTail?
  }

  lemma WriterStepsKeepThreads(s: State, step: Step)
    requires ThreadsInv(s) && Enabled(s, step) && WriterStep(step)
    ensures ThreadsInv(Apply(s, step))
  {
    hide HeadsInv, TailsInv;
    var t := Apply(s, step);
    assert t.heads == s.heads && t.tails == s.tails && t.headSeen == s.headSeen && t.tailSeen == s.tailSeen;
    assert t.consumer == s.consumer;
  }

  lemma ReaderStepsKeepThreads(s: State, step: Step)
    requires ThreadsInv(s) && Enabled(s, step) && ReaderStep(step)
    requires step.LoadByte? ==>
               s.consumer.tail + step.i < |s.accepted| && step.value == s.accepted[s.consumer.tail + step.i]
    ensures ThreadsInv(Apply(s, step))
  {
    hide HeadsInv, TailsInv, MayLoad;
    var t := Apply(s, step);
    assert t.heads == s.heads && t.tails == s.tails && t.headSeen == s.headSeen && t.tailSeen == s.tailSeen;
    assert t.producer == s.producer;
  }

  lemma LoadByteIsExact(s: State, step: Step)
    requires Inv(s) && Enabled(s, step) && step.LoadByte?
    ensures s.consumer.tail + step.i < |s.accepted| && step.value == s.accepted[s.consumer.tail + step.i]
  {
    hide ProducerInv, Placed, Paced, TailsInv, SyncInv, MayLoad, ChunkSlot;
    ChunkSlotIsModular(s.consumer.tail, s.consumer.toRead, step.i, s.capacity);
    LoadsAreExact(s, s.consumer.tail + step.i, s.heads[s.headSeen].stores, step.value);
  }

  lemma StepKeepsThreads(s: State, step: Step)
    requires Inv(s) && Enabled(s, step)
    ensures ThreadsInv(Apply(s, step))
  {
    if step.PublishHead? {
      PublishHeadKeepsLog(s);
      PublishHeadKeepsThreads(s);
    } else if step.PublishTail? {
      PublishTailKeepsThreads(s);
    } else if step.ProducerLoadTail? || step.SpaceLoadTail? {
      ProducerLoadsKeepThreads(s, step);
    } else if step.ConsumerLoadHead? || step.CallAvailable? {
      ConsumerLoadsKeepThreads(s, step);
    } else if WriterStep(step) {
      WriterStepsKeepThreads(s, step);
    } else {
      if step.LoadByte? {
        LoadByteIsExact(s, step);
      }
      ReaderStepsKeepThreads(s, step);
    }
  }

  lemma StepKeepsLog(s: State, step: Step)
    requires Inv(s) && Enabled(s, step)
    ensures LogInv(Apply(s, step))
  {
    if step.StoreByte? {
      StoreKeepsLog(s, step.position);
    } else if step.PublishHead? {
      PublishHeadKeepsLog(s);
    } else {
      OthersKeepLog(s, step);
    }
  }

  lemma StepKeepsSync(s: State, step: Step)
    requires Inv(s) && Enabled(s, step)
    ensures Apply(s, step).Shaped() && SyncInv(Apply(s, step))
  {
    hide LogInv, HeadsInv, TailsInv, ConsumerInv;
    var t := Apply(s, step);
    assert s.tails <= t.tails && s.tailSeen <= t.tailSeen;
    assert !step.PublishHead? ==> t.heads == s.heads;
  }

  // ---------- Runs ----------

  /** A run: states[k+1] is reached from states[k] by steps[k], whoever takes it. */
  ghost predicate IsRun(states: seq<State>, steps: seq<Step>) {
    && |states| == |steps| + 1
    && 0 < states[0].capacity && states[0] == Init(states[0].capacity)
    && forall k :: 0 <= k < |steps| ==>
         states[k].Shaped() && Enabled(states[k], steps[k]) && states[k + 1] == Apply(states[k], steps[k])
  }

  lemma {:induction false} RunKeepsInv(states: seq<State>, steps: seq<Step>)
    requires IsRun(states, steps)
    ensures Inv(states[|steps|])
    decreases |steps|
  {
    if |steps| == 0 {
      InitInv(states[0].capacity);
    } else {
      var n := |steps| - 1;
      assert IsRun(states[..n + 1], steps[..n]);
      RunKeepsInv(states[..n + 1], steps[..n]);
      StepKeepsThreads(states[n], steps[n]);
      StepKeepsLog(states[n], steps[n]);
      StepKeepsSync(states[n], steps[n]);
    }
  }

  // ---------- What every run guarantees ----------

  /** The byte an up-to-date reader finds in a slot. */
  ghost function Memory(log: seq<Store>, slot: nat): byte {
    if log == [] then 0
    else if log[|log| - 1].slot == slot then log[|log| - 1].value
    else Memory(log[..|log| - 1], slot)
  }

  /** The unread window: what the slots from tail up to head hold. */
  ghost function Window(s: State): seq<byte>
    requires s.Shaped() && s.Tail() <= s.Head()
  {
    seq(s.Head() - s.Tail(), i requires 0 <= i < s.Head() - s.Tail() => Memory(s.log, (s.Tail() + i) % s.capacity))
  }

  lemma {:induction false} MemoryMayBeLoaded(log: seq<Store>, slot: nat)
    ensures MayLoad(log, |log|, slot, Memory(log, slot))
    decreases |log|
  {
    if log != [] && log[|log| - 1].slot == slot {
      assert NotHidden(log, |log| - 1, |log|);
    } else if log != [] {
      var shorter := log[..|log| - 1];
      MemoryMayBeLoaded(shorter, slot);
      if p :| 0 <= p < |shorter| && shorter[p].slot == slot && shorter[p].value == Memory(log, slot)
              && NotHidden(shorter, p, |shorter|) {
        assert log[p] == shorter[p];
        assert NotHidden(log, p, |log|);
      }
    }
  }

  /** FIFO: in every reachable state, bytes handed out followed by the unread window are exactly
      the bytes accepted, and the window never exceeds the capacity. */
  lemma DeliveredThenWindowIsAccepted(states: seq<State>, steps: seq<Step>)
    requires IsRun(states, steps)
    ensures var s := states[|steps|];
            s.Shaped() && s.Tail() <= s.Head() <= s.Tail() + s.capacity && s.delivered + Window(s) == s.accepted
  {
    hide LogInv, ProducerInv, ConsumerInv, SyncInv;
    RunKeepsInv(states, steps);
    var s := states[|steps|];
    InBounds(s);
    forall i | 0 <= i < s.Head() - s.Tail()
      ensures Window(s)[i] == s.accepted[s.Tail() + i]
    {
      WindowIsAccepted(s, i);
    }
  }

  lemma InBounds(s: State)
    requires CountersInv(s)
    ensures s.Tail() <= s.Head() <= s.Tail() + s.capacity
  {
  }

  lemma WindowIsAccepted(s: State, i: nat)
    requires ThreadsInv(s) && LogInv(s) && s.Tail() + i < s.Head()
    ensures Memory(s.log, (s.Tail() + i) % s.capacity) == s.accepted[s.Tail() + i]
  {
    hide Placed, Bounded, Paced, Complete, ProducerInv, ConsumerInv, MayLoad;
    MemoryMayBeLoaded(s.log, (s.Tail() + i) % s.capacity);
    LoadsAreExact(s, s.Tail() + i, |s.log|, Memory(s.log, (s.Tail() + i) % s.capacity));
  }

  /** No data race: the slots a write in flight stores to and the slots a read in flight loads
      from are disjoint. */
  lemma CopiesNeverTouchTheSameSlot(states: seq<State>, steps: seq<Step>, i: nat, j: nat)
    requires IsRun(states, steps)
    requires states[|steps|].producer.PCopying? && states[|steps|].consumer.CCopying?
    requires i < states[|steps|].producer.toWrite <= states[|steps|].capacity
    requires j < states[|steps|].consumer.toRead <= states[|steps|].capacity
    ensures var s := states[|steps|];
            ChunkSlot(s.producer.head, s.producer.toWrite, i, s.capacity)
              != ChunkSlot(s.consumer.tail, s.consumer.toRead, j, s.capacity)
  {
    RunKeepsInv(states, steps);
    var s := states[|steps|];
    var p, c := s.producer, s.consumer;
    ChunksApart(p.head, p.toWrite, i, c.tail, c.toRead, j, s.capacity);
  }

  ghost function SlotOf(position: nat, capacity: nat): nat
    requires 0 < capacity
  {
    position % capacity
  }

  /** Every older byte in a slot that the write in flight stores to was read before the tail that
      the writer has acquired. */
  ghost predicate WriteFollowsReads(s: State)
    requires s.Shaped() && s.producer.PCopying? && s.producer.toWrite <= s.capacity
  {
    var p := s.producer;
    forall i, q :: 0 <= i < p.toWrite && 0 <= q < p.head + i
                   && SlotOf(q, s.capacity) == ChunkSlot(p.head, p.toWrite, i, s.capacity)
      ==> q < s.tails[s.tailSeen]
  }

  /** Every store ever made to a slot that the read in flight loads from came before the head that
      the reader has acquired. */
  ghost predicate ReadFollowsWrites(s: State)
    requires s.Shaped() && s.consumer.CCopying? && s.consumer.toRead <= s.capacity
  {
    var c := s.consumer;
    forall i, p :: 0 <= i < c.toRead && 0 <= p < |s.log|
                   && s.log[p].slot == ChunkSlot(c.tail, c.toRead, i, s.capacity)
      ==> p < s.heads[s.headSeen].stores
  }

  /** No data race in the sense of C11: conflicting accesses to a slot, whenever they were made, are
      ordered by an acquire of what was released after the earlier one. */
  lemma ConflictingCopiesAreOrdered(states: seq<State>, steps: seq<Step>)
    requires IsRun(states, steps)
    ensures states[|steps|].Shaped()
    ensures var s := states[|steps|];
            s.producer.PCopying? ==> s.producer.toWrite <= s.capacity && WriteFollowsReads(s)
    ensures var s := states[|steps|];
            s.consumer.CCopying? ==> s.consumer.toRead <= s.capacity && ReadFollowsWrites(s)
  {
    RunKeepsInv(states, steps);
    var s := states[|steps|];
    if s.producer.PCopying? {
      WriterIsOrdered(s);
    }
    if s.consumer.CCopying? {
      ReaderIsOrdered(s);
    }
  }

  lemma WriterIsOrdered(s: State)
    requires Inv(s) && s.producer.PCopying?
    ensures s.producer.toWrite <= s.capacity && WriteFollowsReads(s)
  {
    hide LogInv, SyncInv, HeadsInv, TailsInv, ConsumerInv, ChunkSlot;
    var p := s.producer;
    forall i, q | 0 <= i < p.toWrite && 0 <= q < p.head + i
                  && SlotOf(q, s.capacity) == ChunkSlot(p.head, p.toWrite, i, s.capacity)
      ensures q < s.tails[s.tailSeen]
    {
      ChunkSlotIsModular(p.head, p.toWrite, i, s.capacity);
      SameSlot(q, p.head + i, s.capacity);
    }
  }

  lemma ReaderIsOrdered(s: State)
    requires Inv(s) && s.consumer.CCopying?
    ensures s.consumer.toRead <= s.capacity && ReadFollowsWrites(s)
  {
    hide SyncInv, HeadsInv, TailsInv, Paced, Complete, ChunkSlot;
    var c := s.consumer;
    StreamIsNear(s);
    forall i, p | 0 <= i < c.toRead && 0 <= p < |s.log|
                  && s.log[p].slot == ChunkSlot(c.tail, c.toRead, i, s.capacity)
      ensures p < s.heads[s.headSeen].stores
    {
      ChunkSlotIsModular(c.tail, c.toRead, i, s.capacity);
      var k, j := c.tail + i, s.log[p].position;
      if k < j {
        SameSlot(k, j, s.capacity);
      }
      assert j <= k < s.heads[s.headSeen].head;
    }
  }

  /** Nothing stored is a turn of the ring ahead of the tail. */
  lemma StreamIsNear(s: State)
    requires ThreadsInv(s)
    ensures |Stream(s)| <= s.Tail() + s.capacity
  {
    assert s.tails[s.tailSeen] <= s.Tail();
  }

  lemma ChunksApart(head: nat, toWrite: nat, i: nat, tail: nat, toRead: nat, j: nat, capacity: nat)
    requires i < toWrite <= capacity && j < toRead <= capacity
    requires tail + j < head + i < tail + j + capacity
    ensures ChunkSlot(head, toWrite, i, capacity) != ChunkSlot(tail, toRead, j, capacity)
  {
    ChunkSlotIsModular(head, toWrite, i, capacity);
    ChunkSlotIsModular(tail, toRead, j, capacity);
    if (head + i) % capacity == (tail + j) % capacity {
      SameSlot(tail + j, head + i, capacity);
      assert false;
    }
  }

  /** However stale the counter a call loads, neither clamp of the snapshot fires for it. */
  lemma ClampsNeverFire(states: seq<State>, steps: seq<Step>, which: nat)
    requires IsRun(states, steps)
    ensures var s := states[|steps|];
            && s.Shaped()
            && ((s.producer.PLoaded? || s.producer.PSpace?) && s.tailSeen <= which < |s.tails| ==>
                  s.tails[which] <= s.producer.head <= s.tails[which] + s.capacity)
            && (s.consumer.CLoaded? && s.headSeen <= which < |s.heads| ==>
                  s.consumer.tail <= s.heads[which].head <= s.consumer.tail + s.capacity)
            && (s.consumer.CAvailable? ==> s.Tail() <= s.consumer.head <= s.Tail() + s.capacity)
  {
    RunKeepsInv(states, steps);
    var s := states[|steps|];
    assert s.tailSeen <= which < |s.tails| ==> s.tails[s.tailSeen] <= s.tails[which] <= s.Tail();
    assert s.headSeen <= which < |s.heads| ==> s.heads[s.headSeen].head <= s.heads[which].head <= s.Head();
    assert s.heads[s.headSeen].head <= s.Head();
  }

  /** Between calls every byte offered is published or counted as overflow, and every byte
      requested is handed out or counted as underflow. */
  lemma EveryByteIsAccountedFor(states: seq<State>, steps: seq<Step>)
    requires IsRun(states, steps)
    ensures var s := states[|steps|];
            && s.Shaped()
            && (s.producer.PIdle? ==> s.offered == s.Head() + s.overflow)
            && (s.consumer.CIdle? ==> s.requested == s.Tail() + s.underflow)
  {
    RunKeepsInv(states, steps);
  }

  /** After space() returned n, writes of up to n bytes in all are taken whole, and after
      available() returned n, reads of up to n bytes in all are served whole, whatever the other
      thread does in between and whichever published counter value the call loads. */
  lemma PromisesAreKept(states: seq<State>, steps: seq<Step>, step: Step)
    requires IsRun(states, steps) && states[|steps|].Shaped() && Enabled(states[|steps|], step)
    ensures var s := states[|steps|];
            && (step.ProducerLoadTail? && |s.producer.input| <= s.space ==>
                  var p := Apply(s, step).producer;
                  if |s.producer.input| == 0 then p == PCounting([], 0)
                  else p.PCopying? && p.toWrite == |s.producer.input|)
            && (step.ConsumerLoadHead? && s.consumer.length <= s.available ==>
                  var c := Apply(s, step).consumer;
                  if s.consumer.length == 0 then c == CCounting(0, 0)
                  else c.CCopying? && c.toRead == s.consumer.length)
  {
    RunKeepsInv(states, steps);
    var s := states[|steps|];
    if step.ProducerLoadTail? {
      assert s.tails[s.tailSeen] <= s.tails[step.which] <= s.Tail();
    } else if step.ConsumerLoadHead? {
      assert s.heads[s.headSeen].head <= s.heads[step.which].head <= s.Head();
    }
  }

  /** Each call takes or answers as much as the counters it loads allow: a write fills the free space
      it sees or takes its whole input, a read empties what it sees or takes its whole length, space()
      answers the whole free space it sees and available() all the unread bytes it sees. */
  lemma LoadsAreUsedInFull(states: seq<State>, steps: seq<Step>, step: Step)
    requires IsRun(states, steps) && states[|steps|].Shaped() && Enabled(states[|steps|], step)
    ensures var s, t := states[|steps|], Apply(states[|steps|], step);
            && (step.ProducerLoadTail? ==>
                  var toWrite := if t.producer.PCopying? then t.producer.toWrite else 0;
                  && s.producer.head == s.Head() && toWrite <= |s.producer.input|
                  && s.Head() + toWrite <= s.tails[step.which] + s.capacity
                  && (toWrite == |s.producer.input| || s.Head() + toWrite == s.tails[step.which] + s.capacity)
                  && (if toWrite > 0 then t.producer == PCopying(s.producer.input, s.Head(), toWrite, {})
                      else t.producer == PCounting(s.producer.input, 0)))
            && (step.ConsumerLoadHead? ==>
                  var toRead := if t.consumer.CCopying? then t.consumer.toRead else 0;
                  && s.consumer.tail == s.Tail() && toRead <= s.consumer.length
                  && s.Tail() + toRead <= s.heads[step.which].head
                  && (toRead == s.consumer.length || s.Tail() + toRead == s.heads[step.which].head)
                  && (if toRead > 0 then t.consumer == CCopying(s.consumer.length, s.Tail(), toRead, map[])
                      else t.consumer == CCounting(s.consumer.length, 0)))
            && (step.SpaceLoadTail? ==> s.Head() + t.space == s.tails[step.which] + s.capacity)
            && (step.AvailableLoadTail? ==> s.Tail() + t.available == s.consumer.head)
            && (step.CallAvailable? ==> t.consumer == CAvailable(s.heads[step.which].head))
  {
    hide LogInv, SyncInv;
    RunKeepsInv(states, steps);
    var s := states[|steps|];
    if step.ProducerLoadTail? || step.SpaceLoadTail? {
      assert s.tails[s.tailSeen] <= s.tails[step.which] <= s.Tail();
    } else if step.ConsumerLoadHead? {
      assert s.heads[s.headSeen].head <= s.heads[step.which].head <= s.Head();
    }
  }

  /** The argument of the last write() of a run. */
  ghost function LastWrite(steps: seq<Step>): seq<byte> {
    if steps == [] then []
    else
      var last := steps[|steps| - 1];
      if last.CallWrite? then last.input else LastWrite(steps[..|steps| - 1])
  }

  /** The argument of the last read() of a run. */
  ghost function LastRead(steps: seq<Step>): nat {
    if steps == [] then 0
    else
      var last := steps[|steps| - 1];
      if last.CallRead? then last.length else LastRead(steps[..|steps| - 1])
  }

  ghost predicate Writing(p: Producer, input: seq<byte>) {
    p.PIdle? || p.PSpace? || p.input == input
  }

  ghost predicate Reading(c: Consumer, length: nat) {
    c.CIdle? || c.CAvailable? || c.length == length
  }

  lemma StepKeepsArguments(s: State, step: Step, input: seq<byte>, length: nat)
    requires s.Shaped() && Enabled(s, step) && Writing(s.producer, input) && Reading(s.consumer, length)
    ensures Writing(Apply(s, step).producer, if step.CallWrite? then step.input else input)
    ensures Reading(Apply(s, step).consumer, if step.CallRead? then step.length else length)
  {
    hide MayLoad;
  }

  lemma {:induction false} CallsKeepTheirArguments(states: seq<State>, steps: seq<Step>)
    requires IsRun(states, steps)
    ensures Writing(states[|steps|].producer, LastWrite(steps)) && Reading(states[|steps|].consumer, LastRead(steps))
    decreases |steps|
  {
    hide Apply, Enabled;
    if steps == [] {
      Idle(states[0].capacity);
    } else {
      var n := |steps| - 1;
      assert IsRun(states[..n + 1], steps[..n]);
      CallsKeepTheirArguments(states[..n + 1], steps[..n]);
      StepKeepsArguments(states[n], steps[n], LastWrite(steps[..n]), LastRead(steps[..n]));
    }
  }

  lemma Idle(capacity: nat)
    ensures Init(capacity).producer == PIdle && Init(capacity).consumer == CIdle
  {
  }

  /** What a run has accepted, delivered and counted as missed changes only where a call publishes or
      counts, and then by what the caller passed in and gets out. */
  lemma HistoriesAreTrue(states: seq<State>, steps: seq<Step>, step: Step)
    requires IsRun(states, steps) && states[|steps|].Shaped() && Enabled(states[|steps|], step)
    ensures Apply(states[|steps|], step).Shaped()
    ensures var s, t := states[|steps|], Apply(states[|steps|], step);
            && (if step.PublishHead? then
                  && s.producer.toWrite <= |LastWrite(steps)|
                  && t.accepted == s.accepted + LastWrite(steps)[..s.producer.toWrite]
                  && t.Head() == s.Head() + s.producer.toWrite
                else t.accepted == s.accepted && t.heads == s.heads)
            && (if step.PublishTail? then
                  && s.Tail() + s.consumer.toRead <= |s.accepted|
                  && t.delivered == s.delivered + s.accepted[s.Tail()..s.Tail() + s.consumer.toRead]
                  && t.Tail() == s.Tail() + s.consumer.toRead
                else t.delivered == s.delivered && t.tails == s.tails)
            && t.overflow == s.overflow + (if step.CountOverflow? then |LastWrite(steps)| - s.producer.toWrite else 0)
            && t.underflow == s.underflow + (if step.CountUnderflow? then LastRead(steps) - s.consumer.toRead else 0)
  {
    hide LogInv, SyncInv, MayLoad, HeadsInv, TailsInv;
    RunKeepsInv(states, steps);
    CallsKeepTheirArguments(states, steps);
    if step.PublishTail? {
      DeliveredIsTrue(states[|steps|]);
    }
  }

  lemma DeliveredIsTrue(s: State)
    requires ThreadsInv(s) && Enabled(s, PublishTail)
    ensures s.Tail() + s.consumer.toRead <= |s.accepted|
    ensures Apply(s, PublishTail).delivered == s.delivered + s.accepted[s.Tail()..s.Tail() + s.consumer.toRead]
  {
    hide HeadsInv, TailsInv, ProducerInv, MayLoad;
    var c := s.consumer;
    forall i | 0 <= i < c.toRead
      ensures c.got[i] == s.accepted[s.Tail()..s.Tail() + c.toRead][i]
    {
    }
  }

  /** No call ever blocks: in every reachable state a thread inside a call can take a step of it,
      whatever the other thread does. */
  lemma CallsNeverBlock(states: seq<State>, steps: seq<Step>)
    requires IsRun(states, steps)
    ensures var s := states[|steps|];
            && s.Shaped()
            && (!s.producer.PIdle? ==> exists step :: ProducerStep(step) && Enabled(s, step))
            && (!s.consumer.CIdle? ==> exists step :: ConsumerStep(step) && Enabled(s, step))
  {
    hide LogInv, SyncInv;
    RunKeepsInv(states, steps);
    var s := states[|steps|];
    if !s.producer.PIdle? {
      var step := ProducerNext(s);
    }
    if !s.consumer.CIdle? {
      var step := ConsumerNext(states, steps);
    }
  }

  ghost predicate ProducerStep(step: Step) {
    || step.CallWrite? || step.ProducerLoadHead? || step.ProducerLoadTail? || step.StoreByte? || step.PublishHead?
    || step.CountOverflow? || step.CallSpace? || step.SpaceLoadTail?
  }

  ghost predicate ConsumerStep(step: Step) {
    !ProducerStep(step)
  }

  lemma ProducerNext(s: State) returns (step: Step)
    requires Inv(s) && !s.producer.PIdle?
    ensures ProducerStep(step) && Enabled(s, step)
  {
    hide LogInv, SyncInv, HeadsInv, TailsInv, ConsumerInv;
    match s.producer
    case PCalled(_) => step := ProducerLoadHead;
    case PLoaded(_, _) => step := ProducerLoadTail(s.tailSeen);
    case PCopying(input, head, toWrite, done) =>
      if k: nat :| head <= k < head + toWrite && k !in done {
        step := StoreByte(k);
      } else {
        step := PublishHead;
      }
    case PCounting(_, _) => step := CountOverflow;
    case PSpace(_) => step := SpaceLoadTail(s.tailSeen);
  }

  lemma ConsumerNext(states: seq<State>, steps: seq<Step>) returns (step: Step)
    requires IsRun(states, steps) && Inv(states[|steps|]) && !states[|steps|].consumer.CIdle?
    ensures ConsumerStep(step) && Enabled(states[|steps|], step)
  {
    hide LogInv, SyncInv, HeadsInv, TailsInv, ProducerInv, MayLoad;
    var s := states[|steps|];
    match s.consumer
    case CCalled(_) => step := ConsumerLoadTail;
    case CLoaded(_, _) => step := ConsumerLoadHead(s.headSeen);
    case CCopying(length, tail, toRead, got) =>
      if i: nat :| i < toRead && i !in got {
        ReaderSeesExactlyTheByte(states, steps, i, s.accepted[tail + i]);
        step := LoadByte(i, s.accepted[tail + i]);
      } else {
        step := PublishTail;
      }
    case CCounting(_, _) => step := CountUnderflow;
    case CAvailable(_) => step := AvailableLoadTail;
  }

  /** available() called by a third thread loads some published head in one state and some
      published tail in a later one. However stale the two are, its answer overstates the occupancy
      at the second load exactly if the tail is further behind than the head and the ring is not
      full. */
  lemma ObserverOverstatesExactly(
      states: seq<State>, steps: seq<Step>, earlier: nat, later: nat, whichHead: nat, whichTail: nat)
    requires IsRun(states, steps) && earlier <= later <= |steps|
    requires whichHead < |states[earlier].heads| && whichTail < |states[later].tails|
    ensures var s := states[later];
            var head, tail := states[earlier].heads[whichHead].head, s.tails[whichTail];
            && s.Shaped() && tail <= s.Tail() <= s.Head() && head <= s.Head()
            && (UsedSnapshot(head, tail, s.capacity) > s.Head() - s.Tail() <==>
                s.Tail() - tail > s.Head() - head && s.Head() < s.Tail() + s.capacity)
  {
    HeadsOnlyGrow(states, steps, earlier, later);
    assert IsRun(states[..later + 1], steps[..later]);
    RunKeepsInv(states[..later + 1], steps[..later]);
    var s := states[later];
    assert s.heads[whichHead].head <= s.Head();
    assert s.tails[whichTail] <= s.Tail();
    assert s.heads[s.headSeen].head <= s.Head();
  }

  /** A head that was acquired rules out every tail older than the one the producer had seen when it
      published that head. So the upper clamp never fires for a third thread either, the answer is
      the difference of the two loads wherever that is not negative, and it overstates the occupancy
      exactly if the tail is further behind than the head. */
  lemma ObserverNeverClampedAbove(
      states: seq<State>, steps: seq<Step>, earlier: nat, later: nat, whichHead: nat, whichTail: nat)
    requires IsRun(states, steps) && earlier <= later <= |steps|
    requires whichHead < |states[earlier].heads|
    requires states[earlier].heads[whichHead].tailSeen <= whichTail < |states[later].tails|
    ensures var s := states[later];
            var head, tail := states[earlier].heads[whichHead].head, s.tails[whichTail];
            var answer := UsedSnapshot(head, tail, s.capacity);
            && s.Shaped() && s.Tail() <= s.Head()
            && head <= tail + s.capacity
            && answer == Less(head, tail)
            && (answer > s.Head() - s.Tail() <==> s.Tail() - tail > s.Head() - head)
  {
    ObserverOverstatesExactly(states, steps, earlier, later, whichHead, whichTail);
    HeadsOnlyGrow(states, steps, earlier, later);
    assert IsRun(states[..later + 1], steps[..later]);
    RunKeepsInv(states[..later + 1], steps[..later]);
    var s := states[later];
    assert s.tails[s.heads[whichHead].tailSeen] <= s.tails[whichTail];
  }

  lemma {:induction false} HeadsOnlyGrow(states: seq<State>, steps: seq<Step>, earlier: nat, later: nat)
    requires IsRun(states, steps) && earlier <= later <= |steps|
    ensures states[earlier].heads <= states[later].heads && states[earlier].capacity == states[later].capacity
    decreases later - earlier
  {
    if earlier < later {
      HeadsOnlyGrow(states, steps, earlier, later - 1);
      assert states[later] == Apply(states[later - 1], steps[later - 1]);
    }
  }

  /** A read in flight is never stuck and never sees a wrong byte: the memory model lets it load
      the accepted byte, and nothing else. */
  lemma ReaderSeesExactlyTheByte(states: seq<State>, steps: seq<Step>, i: nat, value: byte)
    requires IsRun(states, steps) && states[|steps|].Shaped() && states[|steps|].consumer.CCopying?
    requires i < states[|steps|].consumer.toRead && states[|steps|].consumer.toRead <= states[|steps|].capacity
    ensures var s := states[|steps|]; var c := s.consumer;
            && c.tail + i < |s.accepted|
            && (MayLoad(s.log, s.heads[s.headSeen].stores, ChunkSlot(c.tail, c.toRead, i, s.capacity), value)
                <==> value == s.accepted[c.tail + i])
  {
    hide Inv, ThreadsInv, LogInv, MayLoad;
    RunKeepsInv(states, steps);
    var s := states[|steps|];
    var k := s.consumer.tail + i;
    ChunkSlotIsModular(s.consumer.tail, s.consumer.toRead, i, s.capacity);
    ReaderBounds(s, i);
    MemoryMayBeLoaded(s.log, k % s.capacity);
    LoadsAreExact(s, k, |s.log|, Memory(s.log, k % s.capacity));
    NewestIsVisible(s.log, s.heads[s.headSeen].stores, k % s.capacity, s.accepted[k]);
    if MayLoad(s.log, s.heads[s.headSeen].stores, k % s.capacity, value) {
      LoadsAreExact(s, k, s.heads[s.headSeen].stores, value);
    }
  }

  lemma ReaderBounds(s: State, i: nat)
    requires Inv(s) && s.consumer.CCopying? && i < s.consumer.toRead
    ensures var k, stores := s.consumer.tail + i, s.heads[s.headSeen].stores;
            && ThreadsInv(s) && LogInv(s) && s.Tail() <= k < s.Head() == |s.accepted|
            && (exists p :: 0 <= p < |s.log| && s.log[p].slot == k % s.capacity)
            && (forall p :: 0 <= p < |s.log| && s.log[p].position == k ==> p < stores)
  {
    hide Paced, TailsInv, ProducerInv;
    var k := s.consumer.tail + i;
    assert Logged(s.log, k);
    var p :| 0 <= p < |s.log| && s.log[p].position == k;
    assert s.log[p].slot == k % s.capacity;
  }

  /** What the newest reader may load from a written slot, every reader may load. */
  lemma NewestIsVisible(log: seq<Store>, stores: nat, slot: nat, value: byte)
    requires MayLoad(log, |log|, slot, value) && exists p :: 0 <= p < |log| && log[p].slot == slot
    ensures MayLoad(log, stores, slot, value)
  {
    if p :| 0 <= p < |log| && log[p].slot == slot && log[p].value == value && NotHidden(log, p, |log|) {
      assert NotHidden(log, p, stores);
    }
  }

  lemma Extend(states: seq<State>, steps: seq<Step>, from: State, step: Step, to: State)
    returns (states': seq<State>, steps': seq<Step>)
    requires IsRun(states, steps) && states[|steps|] == from
    requires from.Shaped() && Enabled(from, step) && Apply(from, step) == to
    ensures IsRun(states', steps') && states'[|steps'|] == to
  {
    states', steps' := states + [to], steps + [step];
  }

  ghost function WithProducer(producer: Producer): State {
    Init(1).(producer := producer, offered := 1)
  }

  ghost function OneByteStored(): State {
    WithProducer(PCopying([7], 0, 1, {0})).(log := [Store(0, 0, 7)])
  }

  ghost function OneByteWritten(consumer: Consumer): State {
    OneByteStored().(heads := [Published(0, 0, 0), Published(1, 1, 0)], producer := PCounting([7], 1),
                     accepted := [7], requested := 1, consumer := consumer)
  }

  lemma StartWriting() returns (states: seq<State>, steps: seq<Step>)
    ensures IsRun(states, steps) && states[|steps|] == WithProducer(PCopying([7], 0, 1, {}))
  {
    var called, loaded, copying := PCalled([7]), PLoaded([7], 0), PCopying([7], 0, 1, {});
    states, steps := [Init(1)], [];
    states, steps := Extend(states, steps, Init(1), CallWrite([7]), WithProducer(called));
    states, steps := Extend(states, steps, WithProducer(called), ProducerLoadHead, WithProducer(loaded));
    states, steps := Extend(states, steps, WithProducer(loaded), ProducerLoadTail(0), WithProducer(copying));
  }

  lemma StoreTheByte()
    ensures var copying := WithProducer(PCopying([7], 0, 1, {}));
            Enabled(copying, StoreByte(0)) && Apply(copying, StoreByte(0)) == OneByteStored()
  {
    assert [] + [Store(0, 0, 7)] == [Store(0, 0, 7)] && {} + {0 as nat} == {0};
  }

  lemma PublishTheByte()
    ensures Enabled(OneByteStored(), PublishHead)
            && Apply(OneByteStored(), PublishHead) == OneByteWritten(CIdle).(requested := 0)
  {
    hide NotHidden, MayLoad, ChunkSlot;
    assert [] + [7 as byte][..1] == [7];
    assert [Published(0, 0, 0)] + [Published(1, 1, 0)] == [Published(0, 0, 0), Published(1, 1, 0)];
  }

  lemma WriteOneByte() returns (states: seq<State>, steps: seq<Step>)
    ensures IsRun(states, steps) && states[|steps|] == OneByteWritten(CIdle).(requested := 0)
  {
    states, steps := StartWriting();
    StoreTheByte();
    PublishTheByte();
    var copying, stored := WithProducer(PCopying([7], 0, 1, {})), OneByteStored();
    states, steps := Extend(states, steps, copying, StoreByte(0), stored);
    states, steps := Extend(states, steps, stored, PublishHead, Apply(stored, PublishHead));
  }

  ghost function OneByteCopying(got: map<nat, byte>): State {
    OneByteWritten(CCopying(1, 0, 1, got)).(headSeen := 1)
  }

  lemma StartReading() returns (states: seq<State>, steps: seq<Step>)
    ensures IsRun(states, steps) && states[|steps|] == OneByteCopying(map[])
  {
    states, steps := WriteOneByte();
    var called, loaded := OneByteWritten(CCalled(1)), OneByteWritten(CLoaded(1, 0));
    states, steps := Extend(states, steps, OneByteWritten(CIdle).(requested := 0), CallRead(1), called);
    states, steps := Extend(states, steps, called, ConsumerLoadTail, loaded);
    states, steps := Extend(states, steps, loaded, ConsumerLoadHead(1), OneByteCopying(map[]));
  }

  lemma FinishReading()
    ensures var copying, copied := OneByteCopying(map[]), OneByteCopying(map[0 := 7]);
            && Enabled(copying, LoadByte(0, 7)) && Apply(copying, LoadByte(0, 7)) == copied
            && Enabled(copied, PublishTail) && Apply(copied, PublishTail).tails == [0, 1]
            && Apply(copied, PublishTail).heads == copied.heads && copied.heads[|copied.heads| - 1].tailSeen == 0
  {
    var copying := OneByteCopying(map[]);
    assert copying.log[0].slot == 0 && NotHidden(copying.log, 0, 1);
  }

  /** One byte through a ring of one slot, after which a third thread with a stale tail is told
      that a byte is waiting although the ring is empty. */
  lemma StaleTailOverstates() returns (states: seq<State>, steps: seq<Step>)
    ensures IsRun(states, steps)
    ensures var s := states[|steps|];
            && s.Shaped() && s.Head() == s.Tail() == 1 && s.tails == [0, 1] && s.heads[|s.heads| - 1].tailSeen == 0
            && UsedSnapshot(s.Head(), s.tails[0], s.capacity) == 1
  {
    states, steps := StartReading();
    FinishReading();
    var copying, copied := OneByteCopying(map[]), OneByteCopying(map[0 := 7]);
    states, steps := Extend(states, steps, copying, LoadByte(0, 7), copied);
    states, steps := Extend(states, steps, copied, PublishTail, Apply(copied, PublishTail));
  }
}
