/** What one call of run_once does to the audio pipeline (supervisor.c), as a function of the
    pipeline's value. The Supervisor class is proved against it. */
module Pipelines {
  import opened Base
  import opened VadDetectors
  import opened GrowthBuffers
  import opened BoundedQueues
  import opened ArtifactPaths

  const CHUNK_BYTES: nat := 640
  const RING_CAPACITY_BYTES: nat := 16000 * 2 * 2
  const FRAME_MS: nat := 20
  const FRAME_SAMPLES: nat := 16 * FRAME_MS
  const FRAME_BYTES: nat := 2 * FRAME_SAMPLES
  const RESPONSE_TEXT_MAX: nat := 8192
  const FALLBACK_TEXT: string := "I'm having trouble right now. Please try again in a moment."

  /** assistantd_supervisor_artifact_t */
  datatype Artifact = Artifact(id: nat, pcmBytes: nat, path: string)

  /** assistantd_supervisor_llm_response_t */
  datatype Response = Response(id: nat, usedFallback: bool, text: string)

  const NO_ARTIFACT := Artifact(0, 0, "")
  const NO_RESPONSE := Response(0, false, "")

  datatype WavAnswer = CannotOpen | WriteFails | Written

  /** What a WAV file this run created holds. A failed write whose unlink also fails leaves a
      partial file. */
  datatype WavFile = Complete(pcm: seq<byte>) | Partial

  /** Configuration, and every answer the outside can give: libfvad about the frames it has seen
      so far, realloc while frame number n is handled, and, for utterance id, the WAV writer,
      unlink, the STT server and the LLM server. Each is asked at most once per number, so
      arbitrary functions stand for arbitrary sequences of answers. */
  datatype World = World(
    runtimeDir: string,
    timeoutMs: nat,
    verdicts: seq<Frame> -> int,
    granted: nat -> bool,
    wav: nat -> WavAnswer,
    unlinked: nat -> bool,
    stt: nat -> Option<string>,
    llm: nat -> Option<string>)

  /** An utterance that made it into the artifact queue. */
  datatype Utterance = Utterance(id: nat, pcm: seq<byte>)

  /** Everything behind the ring. `finalized` and `emitted` record what has passed through the
      two queues. */
  datatype Core = Core(
    seen: seq<Frame>,
    vad: VadState,
    utterance: seq<byte>,
    capacity: nat,
    artifacts: seq<Artifact>,
    responses: seq<Response>,
    nextId: nat,
    files: map<string, WavFile>,
    finalized: seq<Utterance>,
    emitted: seq<Response>)

  datatype Pipe = Pipe(ring: seq<byte>, dropped: nat, core: Core)

  const INITIAL_CORE := Core([], VadState(false, 0), [], 0, [], [], 0, map[], [], [])
  const INITIAL_PIPE := Pipe([], 0, INITIAL_CORE)

  function Unlink(w: World, files: map<string, WavFile>, id: nat, path: string): map<string, WavFile> {
    if w.unlinked(id) then files - {path} else files
  }

  /** From the path on: write the WAV file and queue its artifact. */
  function StoreUtterance(w: World, c: Core, id: nat, pcm: seq<byte>, path: string): (Core, Status) {
    if |pcm| % 2 != 0 then (c, InvalidArgument)
    else
      match w.wav(id)
      case CannotOpen => (c, IoError)
      case WriteFails => (c.(files := Unlink(w, c.files[path := Partial], id, path)), IoError)
      case Written =>
        var files := c.files[path := Complete(pcm)];
        if |c.artifacts| >= QUEUE_CAPACITY then (c.(files := Unlink(w, files, id, path)), Ok)
        else
          (c.(files := files,
              artifacts := c.artifacts + [Artifact(id, |pcm|, path)],
              finalized := c.finalized + [Utterance(id, pcm)]), Ok)
  }

  /** Storing an utterance does not look at the buffer it came from. */
  lemma StoreIgnoresBuffer(w: World, c: Core, id: nat, pcm: seq<byte>, path: string, utterance: seq<byte>)
    ensures var (d, status) := StoreUtterance(w, c, id, pcm, path);
            StoreUtterance(w, c.(utterance := utterance), id, pcm, path) == (d.(utterance := utterance), status)
  {
  }

  /** finalize_utterance */
  function Finalize(w: World, c: Core): (Core, Status) {
    var reset := c.(utterance := []);
    if c.utterance == [] then (reset, Ok)
    else
      var counted := reset.(nextId := c.nextId + 1);
      match BuildPath(w.runtimeDir, c.nextId)
      case None => (counted, IoError)
      case Some(path) => StoreUtterance(w, counted, c.nextId, c.utterance, path)
  }

  /** Appending a frame to the utterance under assembly. */
  function Append(w: World, c: Core, frame: Frame, number: nat): (Core, Status) {
    var status := UtteranceAppendStatus(|c.utterance|, c.capacity, |frame|, w.granted(number));
    if status != Ok then (c, status)
    else (c.(utterance := c.utterance + frame,
             capacity := UtteranceCapacity(c.capacity, |c.utterance| + |frame|)), Ok)
  }

  /** What the frame of an event adds to the utterance, and whether that completes it. */
  function Assemble(w: World, c: Core, frame: Frame, event: Event, wasActive: bool, number: nat): (Core, Status) {
    if event == SpeechStart || (event in {SpeechContinue, SpeechEnd} && wasActive) then
      var (appended, status) := Append(w, c, frame, number);
      if status != Ok || event != SpeechEnd then (appended, status) else Finalize(w, appended)
    else if event == SpeechEnd then Finalize(w, c)
    else (c, Ok)
  }

  /** One iteration of drain_capture_ring_into_vad, after the frame has left the ring. */
  function ProcessFrame(w: World, c: Core, frame: Frame): (Core, Status) {
    var heard := c.(seen := c.seen + [frame]);
    var verdict := w.verdicts(heard.seen);
    if verdict < 0 then (heard, IoError)
    else
      var (vad, event) := VadStep(c.vad, w.timeoutMs, verdict == 1, FRAME_MS);
      var started := heard.(vad := vad, utterance := if event == SpeechStart then [] else c.utterance);
      Assemble(w, started, frame, event, c.vad.speechActive, |c.seen|)
  }

  /** drain_capture_ring_into_vad */
  function Drain(w: World, p: Pipe): (Pipe, Status)
    decreases |p.ring|
  {
    if |p.ring| < FRAME_BYTES then (p, Ok)
    else
      var (core, status) := ProcessFrame(w, p.core, p.ring[..FRAME_BYTES]);
      var next := p.(ring := p.ring[FRAME_BYTES..], core := core);
      if status != Ok then (next, status) else Drain(w, next)
  }

  function Truncate(text: string, size: nat): string
    requires 0 < size
  {
    if |text| < size then text else text[..size - 1]
  }

  /** The response the pipeline owes an utterance once it has been transcribed. */
  function ResponseTo(w: World, id: nat): Response {
    match w.llm(id)
    case None => Response(id, true, Truncate(FALLBACK_TEXT, RESPONSE_TEXT_MAX))
    case Some(text) => Response(id, false, Truncate(text, RESPONSE_TEXT_MAX))
  }

  /** Transcribing one artifact, and if that succeeds, unlinking its file and queueing its response. */
  function Answer(w: World, c: Core, artifact: Artifact): (Core, Status) {
    match w.stt(artifact.id)
    case None => (c, IoError)
    case Some(_) =>
      var files := if artifact.path == "" then c.files else Unlink(w, c.files, artifact.id, artifact.path);
      var response := ResponseTo(w, artifact.id);
      (c.(files := files,
          responses := if |c.responses| >= QUEUE_CAPACITY then c.responses else c.responses + [response]), Ok)
  }

  /** process_stt_queue */
  function Transcribe(w: World, c: Core): (Core, Status) {
    if c.artifacts == [] then (c, Ok) else Answer(w, c.(artifacts := c.artifacts[1..]), c.artifacts[0])
  }

  /** drain_llm_response_queue */
  function EmitOne(c: Core): Core {
    if c.responses == [] then c
    else c.(responses := c.responses[1..], emitted := c.emitted + [c.responses[0]])
  }

  function WriteRing(p: Pipe, chunk: seq<byte>): Pipe {
    var written := Min(|chunk|, Less(RING_CAPACITY_BYTES, |p.ring|));
    p.(ring := p.ring + chunk[..written], dropped := p.dropped + (|chunk| - written))
  }

  /** run_once from the moment the capture read has returned `chunk`. */
  function Tick(w: World, p: Pipe, chunk: seq<byte>): (Pipe, Status) {
    var (drained, status) := Drain(w, WriteRing(p, chunk));
    if status != Ok then (drained, status)
    else
      var (core, status') := Transcribe(w, drained.core);
      if status' != Ok then (drained.(core := core), status')
      else (drained.(core := EmitOne(core)), Ok)
  }
}
