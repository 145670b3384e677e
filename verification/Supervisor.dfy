/** The supervisor (supervisor.c): the modules it owns, its lifecycle, and run_once, proved
    against the pipeline functions. */
module Supervisors {
  import opened Base
  import opened Resources
  import opened RingBuffers
  import opened BoundedQueues
  import opened VadDetectors
  import opened GrowthBuffers
  import opened ArtifactPaths
  import opened AudioCaptures
  import opened Adapters
  import opened Configs
  import opened Pipelines

  datatype Lifecycle = Ready | Running | Stopping | Stopped

  /** How the module initialisers of one start call turn out. */
  datatype StartAnswers = StartAnswers(vad: Setup, sttCurl: bool, prompt: Prompt, llmCurl: bool, ringMemory: bool)

  /** The directory the WAV files of this run are in. */
  class RuntimeDir {
    var files: map<string, WavFile>

    constructor ()
      ensures files == map[]
    {
      files := map[];
    }

    method Write(path: string, file: WavFile)
      modifies this
      ensures files == old(files)[path := file]
    {
      files := files[path := file];
    }

    method Unlink(path: string, succeeds: bool)
      modifies this
      ensures files == if succeeds then old(files) - {path} else old(files)
    {
      if succeeds {
        files := files - {path};
      }
    }
  }

  /** What a tick asks of the kernel: start arecord if it is not running, and if it is then, read. */
  ghost predicate ListenDid(calls: seq<SysCall>, device: string, active: bool, pid: int, fd: int,
                            status: Status, bytes: seq<byte>) {
    if active then ReadDid(calls, pid, fd, CHUNK_BYTES, status, bytes)
    else
      || (status != Ok && bytes == [] && exists p, f :: StartDid(calls, device, status, p, f))
      || (&& 5 <= |calls| && calls[1].PipeCall? && calls[1].ends.Some? && calls[2].ForkCall?
          && StartDid(calls[..5], device, Ok, calls[2].pid, calls[1].ends.value.0)
          && ReadDid(calls[5..], calls[2].pid, calls[1].ends.value.0, CHUNK_BYTES, status, bytes))
  }

  /** A tick reports that something is unimplemented, which ends main's loop without an error
      message, exactly if arecord was not running and cannot be executed. */
  lemma UnimplementedMeansNoRecorder(calls: seq<SysCall>, device: string, active: bool, pid: int, fd: int,
                                     status: Status, bytes: seq<byte>)
    requires ListenDid(calls, device, active, pid, fd, status, bytes)
    ensures status == Unimplemented <==> !active && calls == [AccessCall(false)]
  {
    hide StartDid;
    if !active && status != Ok && bytes == [] && exists p, f :: StartDid(calls, device, status, p, f) {
      var p, f :| StartDid(calls, device, status, p, f);
      StartSucceedsExactly(calls, device, status, p, f);
    }
  }

  lemma ListenStartFails(calls: seq<SysCall>, device: string, active: bool, pid: int, fd: int,
                         childPid: int, stdoutFd: int, status: Status)
    requires !active && status != Ok && StartDid(calls, device, status, childPid, stdoutFd)
    ensures ListenDid(calls, device, active, pid, fd, status, [])
  {
    hide StartDid, ReadDid;
  }

  lemma ListenOnly(calls: seq<SysCall>, device: string, pid: int, fd: int, status: Status, bytes: seq<byte>)
    requires ReadDid(calls, pid, fd, CHUNK_BYTES, status, bytes)
    ensures ListenDid(calls, device, true, pid, fd, status, bytes)
  {
  }

  lemma ListenAfterStart(calls: seq<SysCall>, split: nat, device: string, active: bool, pid: int, fd: int,
                         childPid: int, stdoutFd: int, status: Status, bytes: seq<byte>)
    requires split <= |calls|
    requires !active && StartDid(calls[..split], device, Ok, childPid, stdoutFd)
    requires ReadDid(calls[split..], childPid, stdoutFd, CHUNK_BYTES, status, bytes)
    ensures ListenDid(calls, device, active, pid, fd, status, bytes)
  {
    hide ReadDid;
    assert split == 5;
  }

  class Supervisor {
    const config: Config
    const w: World

    var state: Lifecycle
    const capture: AudioCapture
    const ring: RingBuffer
    const vad: VadDetector
    const stt: SttAdapter
    const llm: LlmAdapter
    var ttsInitialized: bool
    const utterance: Block
    const artifacts: BoundedQueue<Artifact>
    const responses: BoundedQueue<Response>
    var nextId: nat

    const heap: Heap
    const directory: RuntimeDir

    // What has passed through the two queues.
    ghost var finalized: seq<Utterance>
    ghost var emitted: seq<Response>

    // ---------- The abstract state ----------

    ghost predicate StagesValid()
      reads this, vad, utterance, utterance.data, artifacts, artifacts.items, responses, responses.items
    {
      && vad.Valid()
      && utterance.Valid() && utterance.base == UTTERANCE_INITIAL_CAPACITY
      && artifacts.Valid() && artifacts.zero == NO_ARTIFACT
      && responses.Valid() && responses.zero == NO_RESPONSE
    }

    ghost function CoreNow(): Core
      requires StagesValid()
      reads this, vad, vad.backend, utterance, utterance.data, artifacts, artifacts.items,
            responses, responses.items, directory
    {
      Core(if vad.backend == null then [] else vad.backend.history, vad.State(),
           utterance.Bytes(), utterance.capacity, artifacts.Contents(), responses.Contents(),
           nextId, directory.files, finalized, emitted)
    }

    ghost function PipeNow(): Pipe
      requires StagesValid() && ring.Valid()
      reads this, vad, vad.backend, utterance, utterance.data, artifacts, artifacts.items, responses, responses.items,
            directory, ring, ring.data
    {
      Pipe(ring.Contents(), ring.overflow, CoreNow())
    }

    /** Different owners never share a handle or an array. */
    ghost predicate Apart()
      reads ring, utterance, stt, llm
    {
      && (stt.curl != null ==> stt.curl != llm.curl)
      && (ring.data != null ==> ring.data != utterance.data)
      && (ring.data != null ==> ring.data as object !in {artifacts.items as object, responses.items as object})
      && (utterance.data != null ==>
            utterance.data as object !in {artifacts.items as object, responses.items as object})
      && artifacts.items as object != responses.items as object
    }

    /** libfvad is set up as this supervisor's configuration says. */
    ghost predicate Listening()
      reads vad
    {
      vad.backend != null && vad.backend.verdicts == w.verdicts && vad.timeoutMs == w.timeoutMs
    }

    /** Everything owed back. */
    ghost function Owned(): set<object>
      reads vad, stt, llm, ring, utterance
    {
      (if vad.backend == null then {} else {vad.backend})
      + (if stt.curl == null then {} else {stt.curl})
      + (if llm.curl == null then {} else {llm.curl})
      + (if ring.data == null then {} else {ring.data})
      + (if utterance.data == null then {} else {utterance.data})
    }

    ghost predicate NothingHeld()
      reads vad, stt, llm, ring, utterance
    {
      vad.backend == null && stt.curl == null && llm.curl == null && ring.data == null && utterance.data == null
    }

    ghost predicate Valid()
      reads this, capture, capture.kernel, ring, ring.data, vad, stt, llm, utterance, utterance.data,
            artifacts, artifacts.items, responses, responses.items, heap, directory
      ensures Valid() ==> StagesValid() && ring.Valid()
    {
      && StagesValid() && Apart()
      && capture.Valid() && ring.Valid() && stt.Valid() && llm.Valid() && heap.Valid()
      && heap.live == Owned()
      && w.runtimeDir == config.runtimeDir
      && w.timeoutMs == (if config.vadSilenceMs > 0 then config.vadSilenceMs else 0)
      && (if state == Running
          then && Listening() && stt.curl != null && llm.curl != null
               && ring.data != null && ring.capacity == RING_CAPACITY_BYTES
          else NothingHeld() && !capture.active)
      && (state == Ready ==>
            directory.files == map[] && finalized == [] && emitted == [] && nextId == 0 && artifacts.Contents() == [])
    }

    /** Over zeroed modules, as supervisor_init leaves them. */
    constructor (config: Config, w: World, capture: AudioCapture, ring: RingBuffer, vad: VadDetector, stt: SttAdapter,
                 llm: LlmAdapter, utterance: Block, artifacts: BoundedQueue<Artifact>,
                 responses: BoundedQueue<Response>, heap: Heap, directory: RuntimeDir)
      requires w.runtimeDir == config.runtimeDir
      requires w.timeoutMs == if config.vadSilenceMs > 0 then config.vadSilenceMs else 0
      requires capture.Valid() && !capture.active && ring.Valid() && ring.data == null
      requires ring.Contents() == [] && ring.overflow == 0
      requires vad.Valid() && vad.backend == null && vad.State() == VadState(false, 0)
      requires stt.Valid() && stt.curl == null && llm.Valid() && llm.curl == null
      requires utterance.Valid() && utterance.data == null && utterance.base == UTTERANCE_INITIAL_CAPACITY
      requires artifacts.Valid() && artifacts.zero == NO_ARTIFACT && artifacts.Contents() == []
      requires responses.Valid() && responses.zero == NO_RESPONSE && responses.Contents() == []
      requires artifacts.items as object != responses.items as object
      requires heap.Valid() && heap.live == {} && directory.files == map[]
      ensures Valid() && state == Ready && PipeNow() == INITIAL_PIPE
      ensures this.config == config && this.w == w && this.capture == capture && this.heap == heap
      ensures this.ring == ring && this.vad == vad && this.stt == stt && this.llm == llm && this.utterance == utterance
      ensures this.artifacts == artifacts && this.responses == responses && this.directory == directory
    {
      hide BoundedQueue.Valid, RingBuffer.Valid, AudioCapture.Valid, VadDetector.Valid, BoundedQueue.Contents;
      this.config, this.w, state := config, w, Ready;
      this.capture, this.ring, this.vad, this.stt, this.llm := capture, ring, vad, stt, llm;
      this.utterance, this.artifacts, this.responses := utterance, artifacts, responses;
      this.heap, this.directory := heap, directory;
      ttsInitialized, nextId := false, 0;
      finalized, emitted := [], [];
    }

    // ---------- One frame ----------

    /** write_wav_file */
    method WriteWavFile(id: nat, path: string, pcm: seq<byte>) returns (status: Status)
      modifies directory
      ensures status == if |pcm| % 2 != 0 then InvalidArgument else if w.wav(id) == Written then Ok else IoError
      ensures directory.files ==
              if |pcm| % 2 != 0 then old(directory.files)
              else match w.wav(id)
                   case CannotOpen => old(directory.files)
                   case WriteFails => Pipelines.Unlink(w, old(directory.files)[path := Partial], id, path)
                   case Written => old(directory.files)[path := Complete(pcm)]
    {
      if |pcm| % 2 != 0 {
        return InvalidArgument;
      }
      match w.wav(id)
      case CannotOpen =>
        return IoError;
      case WriteFails =>
        directory.Write(path, Partial);
        directory.Unlink(path, w.unlinked(id));
        return IoError;
      case Written =>
        directory.Write(path, Complete(pcm));
        return Ok;
    }

    method FinalizeUtterance() returns (status: Status)
      requires StagesValid() && Apart()
      modifies this`nextId, this`finalized, utterance`size, artifacts, artifacts.items, directory
      ensures StagesValid()
      ensures (CoreNow(), status) == Finalize(w, old(CoreNow()))
    {
      hide BoundedQueue.Valid, BoundedQueue.Contents, VadDetector.Valid, VadDetector.State, BuildPath, PathText,
           StoreUtterance, Apart;
      if utterance.size == 0 || utterance.data == null {
        utterance.Reset();
        return Ok;
      }
      var id := nextId;
      nextId := nextId + 1;
      var pcm := utterance.data[..utterance.size];
      var path := BuildPath(w.runtimeDir, id);
      if path.None? {
        utterance.Reset();
        return IoError;
      }
      StoreIgnoresBuffer(w, CoreNow(), id, pcm, path.value, []);
      status := WriteAndQueue(id, pcm, path.value);
      utterance.Reset();
    }

    /** Write the file; if that succeeds, queue its artifact. */
    method WriteAndQueue(id: nat, pcm: seq<byte>, path: string) returns (status: Status)
      requires StagesValid() && Apart()
      modifies this`finalized, artifacts, artifacts.items, directory
      ensures StagesValid()
      ensures (CoreNow(), status) == StoreUtterance(w, old(CoreNow()), id, pcm, path)
    {
      hide BoundedQueue.Valid, BoundedQueue.Contents, VadDetector.Valid, VadDetector.State, Block.Valid, Block.Bytes,
           Pipelines.Unlink;
      status := WriteWavFile(id, path, pcm);
      if status != Ok {
        return status;
      }
      QueueArtifact(id, pcm, path);
    }

    /** Queue the artifact, or drop it and its file when the queue is full. */
    method QueueArtifact(id: nat, pcm: seq<byte>, path: string)
      requires artifacts.Valid()
      modifies this`finalized, artifacts, artifacts.items, directory
      ensures artifacts.Valid()
      ensures var full := |old(artifacts.Contents())| >= QUEUE_CAPACITY;
              && artifacts.Contents() == (if full then old(artifacts.Contents())
                                          else old(artifacts.Contents()) + [Artifact(id, |pcm|, path)])
              && finalized == (if full then old(finalized) else old(finalized) + [Utterance(id, pcm)])
              && directory.files == (if full then Pipelines.Unlink(w, old(directory.files), id, path)
                                     else old(directory.files))
    {
      hide BoundedQueue.Valid;
      var accepted := artifacts.Enqueue(Artifact(id, |pcm|, path));
      if accepted {
        finalized := finalized + [Utterance(id, pcm)];
      } else {
        directory.Unlink(path, w.unlinked(id));
      }
    }

    method AppendFrame(frame: Frame, ghost number: nat, granted: bool) returns (status: Status)
      requires StagesValid() && Apart() && heap.Valid() && |frame| == FRAME_BYTES && granted == w.granted(number)
      requires utterance.data != null ==> utterance.data in heap.live
      modifies utterance, utterance.data, heap
      ensures StagesValid() && heap.Valid()
      ensures utterance.data == old(utterance.data) || fresh(utterance.data)
      ensures heap.live == old(heap.live) - (if old(utterance.data) != null then {old(utterance.data)} else {})
                           + (if utterance.data != null then {utterance.data} else {})
      ensures (CoreNow(), status) == Append(w, old(CoreNow()), frame, number)
    {
      hide BoundedQueue.Valid, BoundedQueue.Contents, VadDetector.Valid, VadDetector.State, Block.Valid, Block.Bytes,
           UtteranceAppendStatus, UtteranceCapacity;
      status := utterance.AppendUtterance(heap, frame, granted);
    }

    /** The detector's part of the drain loop; a speech start empties the utterance. */
    method HearFrame(frame: Frame) returns (status: Status, event: Event)
      requires StagesValid() && Listening() && |frame| == FRAME_BYTES
      modifies vad, vad.backend, utterance`size
      ensures StagesValid() && Listening() && vad.backend == old(vad.backend)
      ensures var c := old(CoreNow());
              var heard := c.(seen := c.seen + [frame]);
              var verdict := w.verdicts(heard.seen);
              if verdict < 0 then status == IoError && CoreNow() == heard
              else
                var (vad, e) := VadStep(c.vad, w.timeoutMs, verdict == 1, FRAME_MS);
                status == Ok && event == e
                && CoreNow() == heard.(vad := vad, utterance := if e == SpeechStart then [] else c.utterance)
    {
      hide BoundedQueue.Valid, BoundedQueue.Contents, Block.Valid, VadStep;
      status, event := vad.ProcessFrame(frame, FRAME_SAMPLES, FRAME_MS, NoEvent);
      if status == Ok && event == SpeechStart {
        utterance.Reset();
      }
    }

    /** The body of the drain loop for one frame that has been read from the ring. */
    method HandleFrame(frame: Frame) returns (status: Status)
      requires StagesValid() && Apart() && Listening() && heap.Valid() && |frame| == FRAME_BYTES
      requires utterance.data != null ==> utterance.data in heap.live
      modifies this`nextId, this`finalized, vad, vad.backend, utterance, utterance.data, artifacts, artifacts.items,
               directory, heap
      ensures StagesValid() && Listening() && vad.backend == old(vad.backend) && heap.Valid()
      ensures utterance.data == old(utterance.data) || fresh(utterance.data)
      ensures heap.live == old(heap.live) - (if old(utterance.data) != null then {old(utterance.data)} else {})
                           + (if utterance.data != null then {utterance.data} else {})
      ensures (CoreNow(), status) == ProcessFrame(w, old(CoreNow()), frame)
    {
      hide BoundedQueue.Valid, BoundedQueue.Contents, VadDetector.Valid, Assemble, Block.Valid, StagesValid, VadStep;
      var wasActive := vad.speechActive;
      var event;
      status, event := HearFrame(frame);
      if status != Ok {
        return status;
      }
      var number := |vad.backend.history| - 1;
      status := AssembleUtterance(frame, event, wasActive, number, w.granted(number));
    }

    /** Append the frame if its event says so, and finalize if it ends the utterance. */
    method AssembleUtterance(frame: Frame, event: Event, wasActive: bool, ghost number: nat, granted: bool)
      returns (status: Status)
      requires StagesValid() && Apart() && heap.Valid() && |frame| == FRAME_BYTES && granted == w.granted(number)
      requires utterance.data != null ==> utterance.data in heap.live
      modifies this`nextId, this`finalized, utterance, utterance.data, artifacts, artifacts.items, directory, heap
      ensures StagesValid() && heap.Valid()
      ensures utterance.data == old(utterance.data) || fresh(utterance.data)
      ensures heap.live == old(heap.live) - (if old(utterance.data) != null then {old(utterance.data)} else {})
                           + (if utterance.data != null then {utterance.data} else {})
      ensures (CoreNow(), status) == Assemble(w, old(CoreNow()), frame, event, wasActive, number)
    {
      hide BoundedQueue.Valid, BoundedQueue.Contents, VadDetector.Valid, Pipelines.Finalize, Pipelines.Append,
           Block.Valid, StagesValid, CoreNow;
      assert CoreNow() == old(CoreNow());
      if event == SpeechStart || (event == SpeechContinue && wasActive) || (event == SpeechEnd && wasActive) {
        status := AppendFrame(frame, number, granted);
        if status != Ok {
          return status;
        }
      }
      if event == SpeechEnd {
        status := FinalizeUtterance();
        return status;
      }
      return Ok;
    }

    // ---------- One tick ----------

    /** What holds of the running pipeline between frames. */
    ghost predicate Operating()
      reads this, ring, ring.data, vad, stt, llm, utterance, utterance.data, artifacts, artifacts.items,
            responses, responses.items, heap
    {
      && StagesValid() && Apart() && Listening()
      && ring.Valid() && ring.data != null && ring.capacity == RING_CAPACITY_BYTES
      && heap.Valid() && heap.live == Owned()
    }

    /** One iteration of the drain loop. The ring holds a whole frame, so the C code's short-read
        error cannot occur. */
    method DrainFrame() returns (status: Status)
      requires Operating() && |ring.Contents()| >= FRAME_BYTES
      modifies this`nextId, this`finalized, ring, vad, vad.backend, utterance, utterance.data,
               artifacts, artifacts.items, directory, heap
      ensures Operating() && vad.backend == old(vad.backend) && ring.data == old(ring.data)
      ensures utterance.data == old(utterance.data) || fresh(utterance.data)
      ensures var p := old(PipeNow());
              && (CoreNow(), status) == ProcessFrame(w, p.core, p.ring[..FRAME_BYTES])
              && ring.Contents() == p.ring[FRAME_BYTES..] && ring.overflow == p.dropped
    {
      hide ProcessFrame, BoundedQueue.Valid, BoundedQueue.Contents, VadDetector.Valid, VadDetector.State, Block.Valid,
           Block.Bytes, RingBuffer.Valid, RingBuffer.Contents, StagesValid, Listening, CoreNow;
      var frame := ring.Read(FRAME_BYTES);
      status := HandleFrame(frame);
    }

    method DrainCaptureRingIntoVad() returns (status: Status)
      requires Operating()
      modifies this`nextId, this`finalized, ring, vad, vad.backend, utterance, utterance.data,
               artifacts, artifacts.items, directory, heap
      ensures Operating() && vad.backend == old(vad.backend) && ring.data == old(ring.data)
      ensures utterance.data == old(utterance.data) || fresh(utterance.data)
      ensures (PipeNow(), status) == Drain(w, old(PipeNow()))
    {
      hide ProcessFrame, BoundedQueue.Valid, BoundedQueue.Contents, VadDetector.Valid, VadDetector.State, Block.Valid,
           Block.Bytes, RingBuffer.Valid, RingBuffer.Contents, StagesValid, Apart, Listening, Owned, CoreNow;
      var available := ring.Available();
      while available >= FRAME_BYTES
        invariant Operating() && available == |ring.Contents()|
        invariant vad.backend == old(vad.backend) && ring.data == old(ring.data)
        invariant utterance.data == old(utterance.data) || fresh(utterance.data)
        invariant Drain(w, PipeNow()) == Drain(w, old(PipeNow()))
        decreases available
      {
        status := DrainFrame();
        if status != Ok {
          return status;
        }
        available := ring.Available();
      }
      return Ok;
    }

    method EnqueueLlmResponse(id: nat, text: string, usedFallback: bool)
      requires responses.Valid()
      modifies responses, responses.items
      ensures responses.Valid()
      ensures responses.Contents() ==
              if |old(responses.Contents())| >= QUEUE_CAPACITY then old(responses.Contents())
              else old(responses.Contents()) + [Response(id, usedFallback, Truncate(text, RESPONSE_TEXT_MAX))]
    {
      var _ := responses.Enqueue(Response(id, usedFallback, Truncate(text, RESPONSE_TEXT_MAX)));
    }

    method ProcessSttQueue() returns (status: Status)
      requires StagesValid() && Apart()
      modifies artifacts, artifacts.items, responses, responses.items, directory
      ensures StagesValid()
      ensures (CoreNow(), status) == Transcribe(w, old(CoreNow()))
    {
      hide BoundedQueue.Valid, BoundedQueue.Contents, VadDetector.Valid, VadDetector.State, Block.Valid, Block.Bytes,
           Answer;
      var next := artifacts.Dequeue();
      if next.None? {
        return Ok;
      }
      status := TranscribeArtifact(next.value);
    }

    /** What process_stt_queue does with the artifact it has taken. */
    method TranscribeArtifact(artifact: Artifact) returns (status: Status)
      requires StagesValid() && Apart()
      modifies responses, responses.items, directory
      ensures StagesValid()
      ensures (CoreNow(), status) == Answer(w, old(CoreNow()), artifact)
    {
      hide BoundedQueue.Valid, BoundedQueue.Contents, VadDetector.Valid, VadDetector.State, Block.Valid, Block.Bytes,
           Truncate;
      var transcript := w.stt(artifact.id);
      if transcript.None? {
        return IoError;
      }
      if artifact.path != "" {
        directory.Unlink(artifact.path, w.unlinked(artifact.id));
      }
      var generated := w.llm(artifact.id);
      if generated.None? {
        EnqueueLlmResponse(artifact.id, FALLBACK_TEXT, true);
      } else {
        EnqueueLlmResponse(artifact.id, generated.value, false);
      }
      return Ok;
    }

    method DrainLlmResponseQueue()
      requires StagesValid() && Apart()
      modifies responses, responses.items, this`emitted
      ensures StagesValid()
      ensures CoreNow() == EmitOne(old(CoreNow()))
    {
      hide BoundedQueue.Valid, BoundedQueue.Contents, VadDetector.Valid, VadDetector.State, Block.Valid, Block.Bytes;
      var next := responses.Dequeue();
      if next.Some? {
        emitted := emitted + [next.value];
      }
    }

    /** The capture half of run_once: make sure arecord runs, then read what it has. */
    method Listen() returns (status: Status, bytes: seq<byte>)
      requires capture.Valid()
      modifies capture, capture.kernel
      ensures capture.Valid() && |bytes| <= CHUNK_BYTES
      ensures capture.kernel.received == old(capture.kernel.received) + bytes
      ensures status != Ok ==> bytes == []
      ensures status == Ok ==> capture.active
      ensures old(capture.kernel.interruptions) <= capture.kernel.interruptions
      ensures old(capture.kernel.trace) <= capture.kernel.trace
      ensures ListenDid(capture.kernel.trace[|old(capture.kernel.trace)|..], config.audioCaptureDevice,
                        old(capture.active), old(capture.childPid), old(capture.stdoutFd), status, bytes)
    {
      hide AudioCapture.Valid, Kernel.Valid, StartDid, ReadDid, ListenDid;
      bytes := [];
      ghost var before := capture.kernel.trace;
      if !capture.active {
        status := capture.Start(config.audioCaptureDevice);
        if status != Ok {
          ListenStartFails(capture.kernel.trace[|before|..], config.audioCaptureDevice, old(capture.active),
                           old(capture.childPid), old(capture.stdoutFd), capture.childPid, capture.stdoutFd, status);
          return;
        }
      }
      ghost var started, pid, fd := capture.kernel.trace, capture.childPid, capture.stdoutFd;
      status, bytes := capture.Read(CHUNK_BYTES);
      if !old(capture.active) {
        ghost var calls := capture.kernel.trace[|before|..];
        assert calls[..|started| - |before|] == started[|before|..];
        assert calls[|started| - |before|..] == capture.kernel.trace[|started|..];
        ListenAfterStart(calls, |started| - |before|, config.audioCaptureDevice, old(capture.active),
                         old(capture.childPid), old(capture.stdoutFd), pid, fd, status, bytes);
      } else {
        ListenOnly(capture.kernel.trace[|before|..], config.audioCaptureDevice, pid, fd, status, bytes);
      }
    }

    /** Bytes that do not fit are dropped and counted by the ring. */
    method BufferChunk(chunk: seq<byte>)
      requires Operating()
      modifies ring, ring.data
      ensures Operating() && ring.data == old(ring.data)
      ensures PipeNow() == WriteRing(old(PipeNow()), chunk)
    {
      hide BoundedQueue.Valid, BoundedQueue.Contents, VadDetector.Valid, VadDetector.State, Block.Valid, Block.Bytes,
           RingBuffer.Valid, RingBuffer.Contents, CoreNow;
      if |chunk| > 0 {
        var _ := ring.Write(chunk);
      } else {
        assert ring.Contents() + chunk[..0] == ring.Contents();
      }
    }

    /** Taken at the end of a tick, for a log line that is commented out. */
    method QueueSizes() returns (queuedArtifacts: nat, queuedResponses: nat)
      requires Operating()
      ensures queuedArtifacts == |artifacts.Contents()| && queuedResponses == |responses.Contents()|
    {
      hide BoundedQueue.Valid, BoundedQueue.Contents, RingBuffer.Valid, Block.Valid, VadDetector.Valid;
      queuedArtifacts := artifacts.Size();
      queuedResponses := responses.Size();
    }

    /** The end of a tick: one response out, and the two sizes. */
    method FinishTick()
      requires Operating()
      modifies responses, responses.items, this`emitted
      ensures Operating() && CoreNow() == EmitOne(old(CoreNow()))
      ensures ring.Contents() == old(ring.Contents()) && ring.overflow == old(ring.overflow)
    {
      hide EmitOne, BoundedQueue.Valid, BoundedQueue.Contents, RingBuffer.Valid, RingBuffer.Contents, Block.Valid,
           VadDetector.Valid, StagesValid, Listening, CoreNow;
      DrainLlmResponseQueue();
      var _, _ := QueueSizes();
    }

    /** The pipeline half of run_once. */
    method Process(chunk: seq<byte>) returns (status: Status)
      requires Operating() && |chunk| <= CHUNK_BYTES
      modifies this`nextId, this`finalized, this`emitted, ring, ring.data, vad, vad.backend, utterance, utterance.data,
               artifacts, artifacts.items, responses, responses.items, directory, heap
      ensures Operating() && vad.backend == old(vad.backend) && ring.data == old(ring.data)
      ensures utterance.data == old(utterance.data) || fresh(utterance.data)
      ensures (PipeNow(), status) == Tick(w, old(PipeNow()), chunk)
    {
      hide Drain, Transcribe, EmitOne, BoundedQueue.Valid, BoundedQueue.Contents, VadDetector.Valid,
           VadDetector.State, Block.Valid, Block.Bytes, RingBuffer.Valid, RingBuffer.Contents, Owned, Listening,
           StagesValid, Apart, CoreNow;
      BufferChunk(chunk);
      status := DrainCaptureRingIntoVad();
      if status != Ok {
        return status;
      }
      status := ProcessSttQueue();
      if status != Ok {
        return status;
      }
      FinishTick();
      return Ok;
    }

    /** run_once. `chunk` is what the capture delivered, or None if the tick ended before that. */
    method RunOnce() returns (status: Status, ghost chunk: Option<seq<byte>>)
      requires Valid()
      modifies this, capture, capture.kernel, ring, ring.data, vad, vad.backend, utterance, utterance.data,
               artifacts, artifacts.items, responses, responses.items, directory, heap
      ensures Valid() && state == old(state)
      ensures vad.backend == old(vad.backend) && ring.data == old(ring.data)
      ensures utterance.data == old(utterance.data) || fresh(utterance.data)
      ensures old(state) != Running ==>
                && status == InvalidArgument && chunk == None && PipeNow() == old(PipeNow())
                && unchanged(capture) && unchanged(capture.kernel) && unchanged(heap)
      ensures old(state) == Running ==>
                && (chunk.None? ==> status != Ok && PipeNow() == old(PipeNow()))
                && old(capture.kernel.trace) <= capture.kernel.trace
                && ListenDid(capture.kernel.trace[|old(capture.kernel.trace)|..], config.audioCaptureDevice,
                             old(capture.active), old(capture.childPid), old(capture.stdoutFd),
                             if chunk.Some? then Ok else status, chunk.GetOr([]))
                && (chunk.Some? ==> |chunk.value| <= CHUNK_BYTES
                                    && (PipeNow(), status) == Tick(w, old(PipeNow()), chunk.value))
      ensures capture.kernel.received == old(capture.kernel.received) + chunk.GetOr([])
      ensures old(capture.kernel.interruptions) <= capture.kernel.interruptions
    {
      hide Tick, BoundedQueue.Valid, BoundedQueue.Contents, VadDetector.Valid, VadDetector.State, Block.Valid,
           Block.Bytes, RingBuffer.Valid, RingBuffer.Contents, AudioCapture.Valid, Kernel.Valid, CoreNow, StagesValid,
           Apart, Listening, ListenDid;
      if state != Running {
        return InvalidArgument, None;
      }
      var bytes;
      status, bytes := Listen();
      if status != Ok {
        return status, None;
      }
      status := Process(bytes);
      chunk := Some(bytes);
    }

    // ---------- Start and stop ----------

    /** Every module can be torn down from here, whatever start got to. */
    ghost predicate Releasable()
      reads this, capture, capture.kernel, ring, ring.data, vad, stt, llm, utterance, utterance.data,
            artifacts, artifacts.items, responses, responses.items, heap
    {
      && StagesValid() && Apart()
      && capture.Valid() && ring.Valid() && stt.Valid() && llm.Valid()
      && heap.Valid() && heap.live == Owned()
    }

    /** The status of a start attempt from the answers of its steps, first failure first. */
    function StartStatus(answers: StartAnswers): Status {
      if config.vadAggressiveness !in {0, 1, 2, 3} || config.vadSilenceMs <= 0 then ConfigError
      else if answers.vad == NoMemory then IoError
      else if answers.vad != SetUp then ConfigError
      else if config.sttApiBaseUrl == "" then ConfigError
      else if !answers.sttCurl then IoError
      else if answers.prompt == Empty then ConfigError
      else if answers.prompt == Unreadable || !answers.llmCurl || !answers.ringMemory then IoError
      else Ok
    }

    /** A start gets through exactly if every step does, and otherwise reports the first step that
        does not: a bad detector setting, the detector, the STT server's address, the first curl
        handle, the prompt file, the second curl handle or the ring. */
    lemma StartSucceedsExactly(answers: StartAnswers)
      ensures var tuned := 0 <= config.vadAggressiveness <= 3 && config.vadSilenceMs > 0;
              var status := StartStatus(answers);
              && (status == Ok <==>
                    && tuned && config.sttApiBaseUrl != ""
                    && answers == StartAnswers(SetUp, true, Loaded, true, true))
              && (!tuned ==> status == ConfigError)
              && (tuned && answers.vad != SetUp ==> status == if answers.vad == NoMemory then IoError else ConfigError)
              && (tuned && answers.vad == SetUp ==>
                    && (config.sttApiBaseUrl == "" ==> status == ConfigError)
                    && (config.sttApiBaseUrl != "" ==>
                          && (!answers.sttCurl ==> status == IoError)
                          && (answers.sttCurl && answers.prompt == Empty ==> status == ConfigError)
                          && (answers.sttCurl && answers.prompt == Unreadable ==> status == IoError)
                          && ((answers.sttCurl && answers.prompt == Loaded && !(answers.llmCurl && answers.ringMemory))
                              ==> status == IoError)))
    {
    }

    method InitVad(answers: StartAnswers) returns (status: Status)
      requires Releasable() && vad.backend == null
      modifies vad, heap
      ensures Releasable()
      ensures status == if config.vadAggressiveness !in {0, 1, 2, 3} || config.vadSilenceMs <= 0 then ConfigError
                        else if answers.vad == NoMemory then IoError
                        else if answers.vad == SetUp then Ok else ConfigError
      ensures status == Ok ==>
                && vad.backend != null && vad.backend.verdicts == w.verdicts && vad.backend.history == []
                && vad.timeoutMs == config.vadSilenceMs && vad.State() == VadState(false, 0) && fresh(vad.backend)
                && vad.aggressiveness == config.vadAggressiveness
    {
      hide BoundedQueue.Valid, RingBuffer.Valid, Block.Valid, AudioCapture.Valid, SttAdapter.Valid, LlmAdapter.Valid;
      status := vad.Init(heap, config.vadAggressiveness, config.vadSilenceMs, w.verdicts, answers.vad);
    }

    method InitStt(answers: StartAnswers) returns (status: Status)
      requires Releasable() && stt.curl == null
      modifies stt, heap
      ensures Releasable() && (status == Ok <==> stt.curl != null)
      ensures status == if config.sttApiBaseUrl == "" then ConfigError else if answers.sttCurl then Ok else IoError
    {
      hide BoundedQueue.Valid, RingBuffer.Valid, Block.Valid, AudioCapture.Valid, VadDetector.Valid, LlmAdapter.Valid;
      status := stt.Init(heap, config.sttApiBaseUrl, answers.sttCurl);
    }

    method InitLlm(answers: StartAnswers) returns (status: Status)
      requires Releasable() && llm.curl == null
      modifies llm, heap
      ensures Releasable() && (status == Ok <==> llm.curl != null)
      ensures status == match answers.prompt
                        case Unreadable => IoError
                        case Empty => ConfigError
                        case Loaded => if answers.llmCurl then Ok else IoError
    {
      hide BoundedQueue.Valid, RingBuffer.Valid, Block.Valid, AudioCapture.Valid, VadDetector.Valid, SttAdapter.Valid;
      status := llm.Init(heap, answers.prompt, answers.llmCurl);
    }

    method InitTts()
      requires Releasable()
      modifies this`ttsInitialized
      ensures Releasable() && ttsInitialized
    {
      hide BoundedQueue.Valid, RingBuffer.Valid, Block.Valid, AudioCapture.Valid, VadDetector.Valid, SttAdapter.Valid,
           LlmAdapter.Valid;
      ttsInitialized := true;
    }

    method InitRing(answers: StartAnswers) returns (status: Status)
      requires Releasable() && ring.data == null
      modifies ring, heap
      ensures Releasable() && status == if answers.ringMemory then Ok else IoError
      ensures status == Ok ==>
                ring.data != null && fresh(ring.data) && ring.capacity == RING_CAPACITY_BYTES
                && ring.Contents() == [] && ring.overflow == 0
    {
      hide BoundedQueue.Valid, RingBuffer.Valid, Block.Valid, AudioCapture.Valid, VadDetector.Valid, SttAdapter.Valid,
           LlmAdapter.Valid;
      status := ring.Init(heap, RING_CAPACITY_BYTES, answers.ringMemory);
    }

    method InitQueues()
      requires Releasable()
      modifies utterance`size, artifacts, artifacts.items, responses, responses.items
      ensures Releasable()
      ensures utterance.Bytes() == [] && artifacts.Contents() == [] && responses.Contents() == []
      ensures utterance.data == null ==> utterance.capacity == 0
    {
      hide BoundedQueue.Valid, BoundedQueue.Contents, RingBuffer.Valid, Block.Valid, Block.Bytes, AudioCapture.Valid,
           VadDetector.Valid, SttAdapter.Valid, LlmAdapter.Valid;
      ResetUtterance();
      artifacts.Init();
      responses.Init();
    }

    method ResetUtterance()
      requires Releasable()
      modifies utterance`size
      ensures Releasable() && utterance.Bytes() == [] && (utterance.data == null ==> utterance.capacity == 0)
    {
      hide BoundedQueue.Valid, RingBuffer.Valid, AudioCapture.Valid, VadDetector.Valid, SttAdapter.Valid,
           LlmAdapter.Valid;
      utterance.Reset();
    }

    method InitializeModules(answers: StartAnswers) returns (status: Status)
      requires Releasable() && NothingHeld()
      modifies utterance`size, artifacts, artifacts.items, responses, responses.items, vad, stt, llm,
               this`ttsInitialized, ring, heap
      ensures Releasable() && status == StartStatus(answers)
      ensures status == Ok <==>
                && 0 <= config.vadAggressiveness <= 3 && config.vadSilenceMs > 0 && config.sttApiBaseUrl != ""
                && answers == StartAnswers(SetUp, true, Loaded, true, true)
      ensures utterance.Bytes() == [] && artifacts.Contents() == [] && responses.Contents() == []
      ensures utterance.data == null && utterance.capacity == 0 && (status == Ok ==> config.vadSilenceMs > 0)
      ensures status == Ok ==>
                && vad.backend != null && vad.backend.verdicts == w.verdicts && vad.backend.history == []
                && vad.timeoutMs == config.vadSilenceMs && vad.State() == VadState(false, 0)
                && vad.aggressiveness == config.vadAggressiveness
                && stt.curl != null && llm.curl != null
                && ring.data != null && ring.capacity == RING_CAPACITY_BYTES
                && ring.Contents() == [] && ring.overflow == 0
                && fresh(vad.backend) && fresh(ring.data)
    {
      hide Releasable, BoundedQueue.Valid, BoundedQueue.Contents, RingBuffer.Valid, RingBuffer.Contents, Block.Valid,
           Block.Bytes, VadDetector.Valid, VadDetector.State;
      StartSucceedsExactly(answers);
      InitQueues();
      status := InitVad(answers);
      if status != Ok {
        return status;
      }
      status := InitStt(answers);
      if status != Ok {
        return status;
      }
      status := InitLlm(answers);
      if status != Ok {
        return status;
      }
      InitTts();
      status := InitRing(answers);
    }

    /** discard_queued_artifacts */
    method DiscardQueuedArtifacts()
      requires artifacts.Valid() && Apart()
      modifies artifacts, artifacts.items, directory
      ensures artifacts.Valid() && artifacts.Contents() == []
      ensures directory.files == Discarded(w, old(directory.files), old(artifacts.Contents()))
    {
      hide BoundedQueue.Valid, BoundedQueue.Contents;
      var next := artifacts.Dequeue();
      assert old(artifacts.Contents()) == (if next.Some? then [next.value] else []) + artifacts.Contents();
      while next.Some?
        invariant artifacts.Valid() && (next.None? ==> artifacts.Contents() == [])
        invariant Discarded(w, directory.files, (if next.Some? then [next.value] else []) + artifacts.Contents())
                  == Discarded(w, old(directory.files), old(artifacts.Contents()))
        decreases |artifacts.Contents()| + if next.Some? then 1 else 0
      {
        ghost var rest := artifacts.Contents();
        assert ([next.value] + rest)[1..] == rest;
        var artifact := next.value;
        if artifact.path != "" {
          directory.Unlink(artifact.path, w.unlinked(artifact.id));
        }
        next := artifacts.Dequeue();
        assert rest == (if next.Some? then [next.value] else []) + artifacts.Contents();
      }
    }

    /** discard_queued_llm_responses */
    method DiscardQueuedLlmResponses()
      requires responses.Valid()
      modifies responses, responses.items
      ensures responses.Valid() && responses.Contents() == []
    {
      hide BoundedQueue.Valid, BoundedQueue.Contents;
      var next := responses.Dequeue();
      while next.Some?
        invariant responses.Valid() && (next.None? ==> responses.Contents() == [])
        decreases |responses.Contents()| + if next.Some? then 1 else 0
      {
        next := responses.Dequeue();
      }
    }

    method ReleaseVad()
      requires Releasable()
      modifies vad, heap
      ensures Releasable() && vad.backend == null && vad.State() == VadState(false, 0)
      ensures old(vad.backend == null) ==> heap.released == old(heap.released)
    {
      hide BoundedQueue.Valid, RingBuffer.Valid, Block.Valid, AudioCapture.Valid, VadDetector.Valid, SttAdapter.Valid,
           LlmAdapter.Valid;
      vad.Shutdown(heap);
    }

    method ReleaseStt()
      requires Releasable()
      modifies stt, heap
      ensures Releasable() && stt.curl == null
      ensures old(stt.curl == null) ==> heap.released == old(heap.released)
    {
      hide BoundedQueue.Valid, RingBuffer.Valid, Block.Valid, AudioCapture.Valid, VadDetector.Valid, SttAdapter.Valid,
           LlmAdapter.Valid;
      stt.Shutdown(heap);
    }

    method ReleaseLlm()
      requires Releasable()
      modifies llm, heap
      ensures Releasable() && llm.curl == null
      ensures old(llm.curl == null) ==> heap.released == old(heap.released)
    {
      hide BoundedQueue.Valid, RingBuffer.Valid, Block.Valid, AudioCapture.Valid, VadDetector.Valid, SttAdapter.Valid,
           LlmAdapter.Valid;
      llm.Shutdown(heap);
    }

    method ReleaseAdapters()
      requires Releasable()
      modifies vad, stt, llm, this`ttsInitialized, heap
      ensures Releasable()
      ensures vad.backend == null && vad.State() == VadState(false, 0) && stt.curl == null && llm.curl == null
      ensures old(vad.backend == null && stt.curl == null && llm.curl == null) ==> heap.released == old(heap.released)
    {
      hide Releasable, VadDetector.State;
      ReleaseVad();
      ReleaseStt();
      ReleaseLlm();
      ReleaseTts();
    }

    method ReleaseTts()
      requires Releasable()
      modifies this`ttsInitialized
      ensures Releasable() && !ttsInitialized
    {
      hide BoundedQueue.Valid, RingBuffer.Valid, Block.Valid, AudioCapture.Valid, VadDetector.Valid, SttAdapter.Valid,
           LlmAdapter.Valid;
      ttsInitialized := false;
    }

    method ReleaseRing()
      requires Releasable()
      modifies ring, heap
      ensures Releasable() && ring.data == null && ring.Contents() == [] && ring.overflow == 0
      ensures old(ring.data) == null ==> heap.released == old(heap.released)
    {
      hide BoundedQueue.Valid, AudioCapture.Valid, VadDetector.Valid, SttAdapter.Valid, LlmAdapter.Valid, Block.Valid,
           RingBuffer.Valid;
      ring.Free(heap);
    }

    method ReleaseUtterance()
      requires Releasable()
      modifies utterance, heap
      ensures Releasable() && utterance.data == null && utterance.Bytes() == [] && utterance.capacity == 0
      ensures old(utterance.data) == null ==> heap.released == old(heap.released)
    {
      hide BoundedQueue.Valid, AudioCapture.Valid, VadDetector.Valid, SttAdapter.Valid, LlmAdapter.Valid, Block.Valid,
           RingBuffer.Valid;
      utterance.Free(heap);
    }

    method StopCapture()
      requires Releasable()
      modifies capture, capture.kernel
      ensures Releasable() && !capture.active
      ensures capture.kernel.descriptors == {}
      ensures capture.kernel.children == {} <==> capture.kernel.interruptions == 0
      ensures old(capture.kernel.interruptions) <= capture.kernel.interruptions
      ensures !old(capture.active) ==> unchanged(capture) && unchanged(capture.kernel)
      ensures capture.kernel.received == old(capture.kernel.received)
    {
      hide BoundedQueue.Valid, RingBuffer.Valid, Block.Valid, VadDetector.Valid, SttAdapter.Valid, LlmAdapter.Valid;
      var _ := capture.Stop();
    }

    /** shutdown_modules. It can be called in any state, twice over, or after a start that failed
        half way. */
    method ShutdownModules()
      requires Releasable()
      modifies capture, capture.kernel, ring, utterance, artifacts, artifacts.items, responses, responses.items,
               directory, vad, stt, llm, this`ttsInitialized, this`nextId, heap
      ensures Releasable() && NothingHeld() && !capture.active
      ensures PipeNow() == Pipe([], 0,
                INITIAL_CORE.(files := Discarded(w, old(directory.files), old(artifacts.Contents())),
                              finalized := finalized, emitted := emitted))
      ensures capture.kernel.descriptors == {}
      ensures capture.kernel.children == {} <==> capture.kernel.interruptions == 0
      ensures old(capture.kernel.interruptions) <= capture.kernel.interruptions
      ensures capture.kernel.received == old(capture.kernel.received)
      ensures old(NothingHeld()) ==> heap.released == old(heap.released)
      ensures !old(capture.active) ==> unchanged(capture) && unchanged(capture.kernel)
    {
      hide Releasable, RingBuffer.Valid, RingBuffer.Contents, Block.Valid, Block.Bytes, VadDetector.Valid,
           VadDetector.State, Discarded;
      StopCapture();
      ReleaseRing();
      DiscardQueues();
      ReleaseUtterance();
      ReleaseAdapters();
    }

    method DiscardQueues()
      requires Releasable()
      modifies artifacts, artifacts.items, responses, responses.items, directory, this`nextId
      ensures Releasable() && artifacts.Contents() == [] && responses.Contents() == [] && nextId == 0
      ensures directory.files == Discarded(w, old(directory.files), old(artifacts.Contents()))
    {
      hide BoundedQueue.Valid, BoundedQueue.Contents, RingBuffer.Valid, Block.Valid, VadDetector.Valid,
           SttAdapter.Valid, LlmAdapter.Valid, AudioCapture.Valid, Discarded;
      DiscardQueuedArtifacts();
      DiscardQueuedLlmResponses();
      nextId := 0;
    }

    /** supervisor_start. A failed start gives everything back and may be tried again. */
    method Start(answers: StartAnswers) returns (status: Status)
      requires Valid()
      modifies this, capture, capture.kernel, ring, ring.data, vad, stt, llm, utterance, artifacts, artifacts.items,
               responses, responses.items, directory, heap
      ensures Valid()
      ensures old(state) != Ready ==>
                && status == InvalidArgument && unchanged(this) && unchanged(heap) && PipeNow() == old(PipeNow())
                && unchanged(vad) && unchanged(ring) && unchanged(utterance)
      ensures old(state) == Ready ==>
                && status == StartStatus(answers) && state == (if status == Ok then Running else Ready)
                && (status == Ok <==>
                      && 0 <= config.vadAggressiveness <= 3 && config.vadSilenceMs > 0 && config.sttApiBaseUrl != ""
                      && answers == StartAnswers(SetUp, true, Loaded, true, true))
                && PipeNow() == INITIAL_PIPE && (status != Ok ==> heap.live == {} && NothingHeld())
      ensures old(state) == Ready && status == Ok ==> fresh(vad.backend) && fresh(ring.data) && utterance.data == null
      ensures unchanged(capture) && unchanged(capture.kernel)
    {
      hide RingBuffer.Valid, RingBuffer.Contents, Block.Valid, Block.Bytes, VadDetector.Valid, VadDetector.State,
           BoundedQueue.Valid, BoundedQueue.Contents, AudioCapture.Valid, Kernel.Valid, SttAdapter.Valid,
           LlmAdapter.Valid, StartStatus;
      if state != Ready {
        return InvalidArgument;
      }
      StartSucceedsExactly(answers);
      status := StartModules(answers);
      if status == Ok {
        state := Running;
      }
    }

    /** Bring every module up, or none. */
    method StartModules(answers: StartAnswers) returns (status: Status)
      requires Releasable() && NothingHeld() && !capture.active && nextId == 0 && artifacts.Contents() == []
      modifies capture, capture.kernel, ring, vad, stt, llm, utterance, artifacts, artifacts.items,
               responses, responses.items, directory, this`ttsInitialized, this`nextId, heap
      ensures Releasable() && status == StartStatus(answers)
      ensures PipeNow() == Pipe([], 0,
                INITIAL_CORE.(files := old(directory.files), finalized := finalized, emitted := emitted))
      ensures utterance.data == null
      ensures status != Ok ==> NothingHeld()
      ensures status == Ok ==>
                && vad.backend != null && vad.backend.verdicts == w.verdicts
                && vad.timeoutMs == config.vadSilenceMs && config.vadSilenceMs > 0
                && stt.curl != null && llm.curl != null && ring.data != null && ring.capacity == RING_CAPACITY_BYTES
                && fresh(vad.backend) && fresh(ring.data)
      ensures unchanged(capture) && unchanged(capture.kernel)
    {
      hide Releasable, RingBuffer.Valid, RingBuffer.Contents, Block.Valid, Block.Bytes, VadDetector.Valid,
           VadDetector.State, BoundedQueue.Valid, BoundedQueue.Contents, AudioCapture.Valid, Kernel.Valid,
           StartStatus, StagesValid;
      status := InitializeModules(answers);
      if status != Ok {
        ShutdownModules();
      }
    }

    /** supervisor_stop, from any state and any number of times. */
    method Stop() returns (status: Status)
      requires Valid()
      modifies this, capture, capture.kernel, ring, vad, stt, llm, utterance, artifacts, artifacts.items,
               responses, responses.items, directory, heap
      ensures Valid() && status == Ok && state == Stopped && NothingHeld()
      ensures PipeNow() == Pipe([], 0,
                INITIAL_CORE.(files := directory.files, finalized := finalized, emitted := emitted))
      ensures heap.live == {} && capture.kernel.descriptors == {}
      ensures capture.kernel.children == {} <==> capture.kernel.interruptions == 0
      ensures old(capture.kernel.interruptions) <= capture.kernel.interruptions
      ensures directory.files == Discarded(w, old(directory.files), old(artifacts.Contents()))
      ensures finalized == old(finalized) && emitted == old(emitted)
      ensures capture.kernel.received == old(capture.kernel.received)
      ensures old(state) != Running ==>
                heap.released == old(heap.released) && unchanged(capture) && unchanged(capture.kernel)
    {
      hide RingBuffer.Valid, RingBuffer.Contents, Block.Valid, Block.Bytes, VadDetector.Valid, VadDetector.State,
           BoundedQueue.Valid, BoundedQueue.Contents, AudioCapture.Valid, Kernel.Valid, SttAdapter.Valid,
           LlmAdapter.Valid, Discarded;
      state := Stopping;
      ShutdownModules();
      state := Stopped;
      return Ok;
    }
  }

  /** The files left after every artifact of a queue has been unlinked. */
  function Discarded(w: World, files: map<string, WavFile>, artifacts: seq<Artifact>): map<string, WavFile> {
    if artifacts == [] then files
    else
      var a := artifacts[0];
      Discarded(w, if a.path == "" then files else Pipelines.Unlink(w, files, a.id, a.path), artifacts[1..])
  }

  /** Discarding a queue removes exactly the files of its artifacts, as far as unlink succeeds. */
  lemma {:induction false} DiscardedExactly(w: World, files: map<string, WavFile>, artifacts: seq<Artifact>,
                                            path: string)
    ensures path in Discarded(w, files, artifacts) <==>
            path in files && forall i :: 0 <= i < |artifacts| ==>
              !(artifacts[i].path == path && path != "" && w.unlinked(artifacts[i].id))
    ensures path in Discarded(w, files, artifacts) ==> Discarded(w, files, artifacts)[path] == files[path]
    decreases |artifacts|
  {
    if artifacts != [] {
      var a := artifacts[0];
      var rest := if a.path == "" then files else Pipelines.Unlink(w, files, a.id, a.path);
      DiscardedExactly(w, rest, artifacts[1..], path);
      assert forall i :: 0 < i < |artifacts| ==> artifacts[i] == artifacts[1..][i - 1];
    }
  }
}
