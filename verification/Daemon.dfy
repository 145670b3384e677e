/** main.c from supervisor_init to supervisor_stop, and what the whole program run delivers. */
module Daemon {
  import opened Base
  import opened Resources
  import opened RingBuffers
  import opened BoundedQueues
  import opened VadDetectors
  import opened GrowthBuffers
  import opened Segmentations
  import opened AudioCaptures
  import opened Adapters
  import opened Configs
  import opened Pipelines
  import opened PipelineRuns
  import opened Conversations
  import opened Ledgers
  import opened ArtifactPaths
  import opened Supervisors

  /** supervisor_init over a zeroed struct. */
  method InitSupervisor(config: Config, w: World, kernel: Kernel) returns (s: Supervisor)
    requires kernel.Valid() && kernel.children == {} && kernel.descriptors == {}
    requires w.runtimeDir == config.runtimeDir
    requires w.timeoutMs == if config.vadSilenceMs > 0 then config.vadSilenceMs else 0
    ensures s.Valid() && s.state == Ready && s.PipeNow() == INITIAL_PIPE && s.heap.live == {}
    ensures s.config == config && s.w == w && s.capture.kernel == kernel && s.NothingHeld()
    ensures fresh(s) && fresh(s.capture) && fresh(s.ring) && fresh(s.vad) && fresh(s.stt) && fresh(s.llm)
    ensures fresh(s.utterance) && fresh(s.artifacts) && fresh(s.artifacts.items)
    ensures fresh(s.responses) && fresh(s.responses.items) && fresh(s.heap) && fresh(s.directory)
  {
    hide BoundedQueue.Valid, RingBuffer.Valid, AudioCapture.Valid, VadDetector.Valid, BoundedQueue.Contents,
         Block.Valid, Supervisor.Valid, Supervisor.PipeNow, Kernel.Valid;
    var capture := new AudioCapture(kernel);
    var ring := new RingBuffer();
    var vad := new VadDetector();
    var stt := new SttAdapter();
    var llm := new LlmAdapter();
    var utterance := new Block.Empty(UTTERANCE_INITIAL_CAPACITY);
    var artifacts := new BoundedQueue(NO_ARTIFACT);
    var responses := new BoundedQueue(NO_RESPONSE);
    var heap := new Heap();
    var directory := new RuntimeDir();
    s := new Supervisor(config, w, capture, ring, vad, stt, llm, utterance, artifacts, responses, heap, directory);
  }

  lemma OneMoreChunk(w: World, chunks: seq<seq<byte>>, chunk: seq<byte>)
    ensures Concat(chunks + [chunk]) == Concat(chunks) + chunk
    ensures Run(w, chunks).1 == Ok ==> Run(w, chunks + [chunk]) == Tick(w, Run(w, chunks).0, chunk)
  {
    hide Tick;
    assert (chunks + [chunk])[..|chunks|] == chunks;
  }

  lemma NoChunks(w: World)
    ensures Concat([]) == [] && Run(w, []) == (INITIAL_PIPE, Ok)
  {
  }

  /** The loop of main, until the shutdown flag is seen after `ticks` rounds or a tick fails.
      `chunks` is what the capture delivered, tick by tick. */
  method TickUntilShutdown(s: Supervisor, ticks: nat) returns (status: Status, ghost chunks: seq<seq<byte>>)
    requires s.Valid() && s.state == Running && s.PipeNow() == INITIAL_PIPE && s.capture.kernel.received == []
    modifies s, s.capture, s.capture.kernel, s.ring, s.ring.data, s.vad, s.vad.backend, s.utterance, s.utterance.data,
             s.artifacts, s.artifacts.items, s.responses, s.responses.items, s.directory, s.heap
    ensures s.Valid() && s.state == Running
    ensures forall i :: 0 <= i < |chunks| ==> |chunks[i]| <= CHUNK_BYTES
    ensures Concat(chunks) == s.capture.kernel.received
    ensures s.PipeNow() == Run(s.w, chunks).0 && (status == Ok ==> Run(s.w, chunks).1 == Ok)
    ensures |chunks| <= ticks && (status == Ok ==> |chunks| == ticks)
    ensures Run(s.w, chunks).1 != Ok ==> status == Run(s.w, chunks).1
  {
    hide Supervisor.Valid, Supervisor.PipeNow, Tick, ListenDid, Run, Concat;
    NoChunks(s.w);
    status, chunks := Ok, [];
    for tick := 0 to ticks
      invariant s.Valid() && s.state == Running && status == Ok && |chunks| == tick
      invariant s.vad.backend == old(s.vad.backend) && s.ring.data == old(s.ring.data)
      invariant s.utterance.data == old(s.utterance.data) || fresh(s.utterance.data)
      invariant forall i :: 0 <= i < |chunks| ==> |chunks[i]| <= CHUNK_BYTES
      invariant Concat(chunks) == s.capture.kernel.received
      invariant (s.PipeNow(), Ok) == Run(s.w, chunks)
    {
      ghost var chunk;
      status, chunk := s.RunOnce();
      if chunk.Some? {
        OneMoreChunk(s.w, chunks, chunk.value);
        chunks := chunks + [chunk.value];
      }
      if status != Ok {
        return;
      }
    }
  }

  /** The program from init to stop. Whatever the kernel, libfvad, the file system and the servers
      answer: nothing stays allocated or open; a child stays unreaped only if a signal interrupted
      a blocking waitpid; what was finalized, answered and left on disk is what the pipeline makes of
      the bytes that came out of the capture pipe; and every transcribed utterance was answered. If
      no pipeline stage failed, the finalized utterances are the segmentation of those bytes. */
  method RunDaemon(config: Config, w: World, kernel: Kernel, answers: StartAnswers, ticks: nat)
    returns (s: Supervisor, started: Status, status: Status, ghost chunks: seq<seq<byte>>)
    requires kernel.Valid() && kernel.children == {} && kernel.descriptors == {} && kernel.received == []
    requires w.runtimeDir == config.runtimeDir
    requires w.timeoutMs == if config.vadSilenceMs > 0 then config.vadSilenceMs else 0
    modifies kernel
    ensures s.Valid() && s.state == Stopped && s.heap.live == {}
    ensures kernel.descriptors == {} && (kernel.children == {} <==> Interruptions(kernel.trace) == 0)
    ensures Concat(chunks) == kernel.received && forall i :: 0 <= i < |chunks| ==> |chunks[i]| <= CHUNK_BYTES
    ensures s.config == config
    ensures started == Ok <==>
            && 0 <= config.vadAggressiveness <= 3 && config.vadSilenceMs > 0 && config.sttApiBaseUrl != ""
            && answers == StartAnswers(SetUp, true, Loaded, true, true)
    ensures started != Ok ==> chunks == [] && status == started
    ensures |chunks| <= ticks && (status == Ok ==> |chunks| == ticks)
    ensures var core := Run(w, chunks).0.core;
            s.finalized == core.finalized && s.emitted == core.emitted && s.directory.files == core.files
    ensures |chunks| < SEQUENCE_LIMIT ==>
              && LedgerInv(w, Run(w, chunks).0.core)
              && s.emitted == Earned(w, s.finalized)
              && s.directory.files.Keys == KeptPaths(w, Run(w, chunks).0.core.nextId)
              && forall i :: 0 <= i < |s.finalized| ==> Stored(w, s.directory.files, s.finalized[i])
    ensures started == Ok && status == Ok ==> Run(w, chunks).1 == Ok
    ensures started == Ok && |chunks| < SEQUENCE_LIMIT && Run(w, chunks).1 != Ok ==> status == IoError
    ensures started == Ok && Run(w, chunks).1 == Ok ==>
              var frames := Frames(kernel.received);
              forall cut :: IsSegmentation(Verdicts(w, frames), CeilDiv(w.timeoutMs, CADENCE_MS), cut) ==>
                s.finalized == Spoken(frames, cut.closed) && s.emitted == Answers(w, |cut.closed|)
  {
    hide Tick, Supervisor.Valid, Supervisor.PipeNow, Supervisor.CoreNow, IsSegmentation, Frames, Verdicts, Spoken,
         Answers, Discarded, Steady, Sized, Earned, KeptPaths, LedgerInv, Stored, Run;
    s := InitSupervisor(config, w, kernel);
    started := s.Start(answers);
    chunks, status := [], started;
    if started == Ok {
      status, chunks := TickUntilShutdown(s, ticks);
    }
    RunIsFrameByFrame(w, chunks);
    AtRest(s);
    if |chunks| < SEQUENCE_LIMIT {
      RunKeepsLedgers(w, chunks);
      LedgerSays(w, Run(w, chunks).0.core);
      RunFailsWithIoError(w, chunks);
    }
    if started == Ok && Run(w, chunks).1 == Ok {
      SegmentationOfRun(w, chunks);
    }
    var _ := s.Stop();
    OutsideRunning(s);
  }

  lemma LedgerSays(w: World, c: Core)
    requires LedgerInv(w, c)
    ensures c.emitted == Earned(w, c.finalized) && c.files.Keys == KeptPaths(w, c.nextId)
    ensures forall i :: 0 <= i < |c.finalized| ==> Stored(w, c.files, c.finalized[i])
  {
    hide Earned, KeptPaths, Stored;
  }

  /** A supervisor between ticks has nothing queued. */
  lemma AtRest(s: Supervisor)
    requires s.Valid() && Steady(s.PipeNow())
    ensures s.artifacts.Contents() == [] && Discarded(s.w, s.directory.files, []) == s.directory.files
    ensures var core := s.PipeNow().core;
            s.finalized == core.finalized && s.emitted == core.emitted && s.directory.files == core.files
  {
  }

  lemma SegmentationOfRun(w: World, chunks: seq<seq<byte>>)
    requires 0 < w.timeoutMs && forall i :: 0 <= i < |chunks| ==> |chunks[i]| <= CHUNK_BYTES
    requires Run(w, chunks).1 == Ok
    ensures var frames, core := Frames(Concat(chunks)), Run(w, chunks).0.core;
            forall s :: IsSegmentation(Verdicts(w, frames), CeilDiv(w.timeoutMs, CADENCE_MS), s) ==>
              core.finalized == Spoken(frames, s.closed) && core.emitted == Answers(w, |s.closed|)
  {
    hide IsSegmentation, Frames, Verdicts, Spoken, Answers, Run;
    var frames := Frames(Concat(chunks));
    forall s | IsSegmentation(Verdicts(w, frames), CeilDiv(w.timeoutMs, CADENCE_MS), s)
      ensures Run(w, chunks).0.core.finalized == Spoken(frames, s.closed)
              && Run(w, chunks).0.core.emitted == Answers(w, |s.closed|)
    {
      ErrorFreeRunSegments(w, chunks, s);
    }
  }

  datatype Call = StartCall(answers: StartAnswers) | RunOnceCall | StopCall

  /** Any sequence of calls after init, in any order, whatever each returns: between calls nothing
      is queued, less than a frame is buffered and nothing was dropped; outside RUNNING nothing is
      allocated or open; a stop is final. Before and after it, what was finalized, answered and left
      on disk is what the pipeline makes of the bytes from the pipe, errors or not, and the ledgers
      of ids, answers and files hold. */
  method AnyCalls(s: Supervisor, calls: seq<Call>) returns (ghost chunks: seq<seq<byte>>)
    requires s.Valid() && s.state == Ready && s.PipeNow() == INITIAL_PIPE && s.NothingHeld()
    requires s.capture.kernel.received == []
    modifies s, s.capture, s.capture.kernel, s.ring, s.vad, s.stt, s.llm, s.utterance,
             s.artifacts, s.artifacts.items, s.responses, s.responses.items, s.directory, s.heap
    ensures s.Valid() && Steady(s.PipeNow())
    ensures s.state != Running ==> s.heap.live == {} && s.capture.kernel.descriptors == {}
    ensures s.state != Running ==> (s.capture.kernel.children == {} <==> Interruptions(s.capture.kernel.trace) == 0)
    ensures StopCall in calls ==> s.state == Stopped
    ensures s.state in {Ready, Running, Stopped}
    ensures Chunked(chunks, s.capture.kernel.received) && |chunks| <= |calls|
    ensures s.state == Running ==> s.PipeNow() == Persist(s.w, chunks)
    ensures var core := Persist(s.w, chunks).core;
            s.finalized == core.finalized && s.emitted == core.emitted && s.directory.files == core.files
    ensures |calls| < SEQUENCE_LIMIT ==> LedgerInv(s.w, Persist(s.w, chunks).core)
  {
    hide Supervisor.Valid, Supervisor.PipeNow, Steady, Persist, Chunked, LedgerInv;
    SteadyWhenIdle(INITIAL_PIPE);
    chunks := [];
    NothingYet(s.w);
    for i := 0 to |calls|
      invariant s.Valid() && Steady(s.PipeNow()) && s.state in {Ready, Running, Stopped}
      invariant s.vad.backend == null || fresh(s.vad.backend)
      invariant s.ring.data == null || fresh(s.ring.data)
      invariant s.utterance.data == null || fresh(s.utterance.data)
      invariant StopCall in calls[..i] ==> s.state == Stopped
      invariant Chunked(chunks, s.capture.kernel.received) && |chunks| <= i
      invariant s.state == Ready ==> chunks == [] && s.PipeNow() == INITIAL_PIPE
      invariant s.state == Running ==> s.PipeNow() == Persist(s.w, chunks)
      invariant PutOut(s.PipeNow().core, Persist(s.w, chunks).core)
    {
      chunks := OneCall(s, calls[i], chunks);
    }
    assert calls[..|calls|] == calls;
    OutsideRunning(s);
    AtRest(s);
    if |calls| < SEQUENCE_LIMIT {
      ChunkedLedgers(s.w, chunks, s.capture.kernel.received);
    }
  }

  /** The pieces a stream came in. */
  ghost predicate Chunked(chunks: seq<seq<byte>>, stream: seq<byte>) {
    Concat(chunks) == stream && forall i :: 0 <= i < |chunks| ==> |chunks[i]| <= CHUNK_BYTES
  }

  /** The same utterances, responses and files. */
  ghost predicate PutOut(c: Core, d: Core) {
    c.finalized == d.finalized && c.emitted == d.emitted && c.files == d.files
  }

  lemma NothingYet(w: World)
    ensures Chunked([], []) && Persist(w, []) == INITIAL_PIPE
  {
  }

  lemma ChunkedLedgers(w: World, chunks: seq<seq<byte>>, stream: seq<byte>)
    requires Chunked(chunks, stream) && |chunks| < SEQUENCE_LIMIT
    ensures LedgerInv(w, Persist(w, chunks).core)
  {
    hide LedgerInv, Persist;
    LedgersAlwaysHold(w, chunks);
  }

  lemma PersistOneMore(w: World, chunks: seq<seq<byte>>, stream: seq<byte>, chunk: seq<byte>)
    requires Chunked(chunks, stream) && |chunk| <= CHUNK_BYTES
    ensures Chunked(chunks + [chunk], stream + chunk)
    ensures Persist(w, chunks + [chunk]) == Tick(w, Persist(w, chunks), chunk).0
  {
    hide Tick;
    assert (chunks + [chunk])[..|chunks|] == chunks;
  }

  method OneCall(s: Supervisor, call: Call, ghost before: seq<seq<byte>>) returns (ghost chunks: seq<seq<byte>>)
    requires s.Valid() && Steady(s.PipeNow()) && s.state in {Ready, Running, Stopped}
    requires Chunked(before, s.capture.kernel.received) && PutOut(s.PipeNow().core, Persist(s.w, before).core)
    requires s.state == Ready ==> before == [] && s.PipeNow() == INITIAL_PIPE
    requires s.state == Running ==> s.PipeNow() == Persist(s.w, before)
    modifies s, s.capture, s.capture.kernel, s.ring, s.ring.data, s.vad, s.vad.backend, s.stt, s.llm, s.utterance,
             s.utterance.data, s.artifacts, s.artifacts.items, s.responses, s.responses.items, s.directory, s.heap
    ensures s.Valid() && Steady(s.PipeNow()) && s.state in {Ready, Running, Stopped}
    ensures call == StopCall || old(s.state) == Stopped ==> s.state == Stopped
    ensures s.vad.backend in {null, old(s.vad.backend)} || fresh(s.vad.backend)
    ensures s.ring.data in {null, old(s.ring.data)} || fresh(s.ring.data)
    ensures s.utterance.data in {null, old(s.utterance.data)} || fresh(s.utterance.data)
    ensures Chunked(chunks, s.capture.kernel.received) && PutOut(s.PipeNow().core, Persist(s.w, chunks).core)
    ensures |before| <= |chunks| <= |before| + 1
    ensures s.state == Ready ==> chunks == [] && s.PipeNow() == INITIAL_PIPE
    ensures s.state == Running ==> s.PipeNow() == Persist(s.w, chunks)
  {
    hide Supervisor.Valid, Supervisor.PipeNow, Tick, Steady, ListenDid, Persist, Chunked;
    chunks := before;
    NothingYet(s.w);
    match call
    case StartCall(answers) =>
      var _ := s.Start(answers);
    case RunOnceCall =>
      ghost var received := s.capture.kernel.received;
      ghost var p := s.PipeNow();
      var _, chunk := s.RunOnce();
      if s.state == Running && chunk.Some? {
        TickHandlesOneFrame(s.w, p, chunk.value);
        PersistOneMore(s.w, before, received, chunk.value);
        chunks := before + [chunk.value];
      } else {
        assert received + [] == received;
      }
    case StopCall =>
      AtRest(s);
      var _ := s.Stop();
      SteadyWhenIdle(s.PipeNow());
  }

  lemma SteadyWhenIdle(p: Pipe)
    requires var c := p.core;
             p == Pipe([], 0, INITIAL_CORE.(files := c.files, finalized := c.finalized, emitted := c.emitted))
    ensures Steady(p)
  {
  }

  lemma OutsideRunning(s: Supervisor)
    requires s.Valid()
    ensures s.state != Running ==> s.heap.live == {} && s.capture.kernel.descriptors == {}
    ensures s.state != Running ==> (s.capture.kernel.children == {} <==> Interruptions(s.capture.kernel.trace) == 0)
  {
    hide Interruptions, ChildrenAfter;
  }
}
