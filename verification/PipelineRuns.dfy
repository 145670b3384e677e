/** What whole runs of the pipeline guarantee: nothing about them can be read off one function. */
module PipelineRuns {
  import opened Base
  import opened VadDetectors
  import opened BoundedQueues
  import opened Pipelines

  // ---------- One tick ----------

  /** Between ticks: both queues empty, whole frames in the utterance. */
  ghost predicate Quiet(c: Core) {
    c.artifacts == [] && c.responses == [] && |c.utterance| % FRAME_BYTES == 0
  }

  /** Between ticks: less than a frame in the ring, and no byte ever dropped. */
  ghost predicate Steady(p: Pipe) {
    |p.ring| < FRAME_BYTES && p.dropped == 0 && Quiet(p.core)
  }

  /** One frame all the way through: VAD, utterance, WAV, STT, LLM, response. */
  function FrameTick(w: World, c: Core, frame: Frame): (Core, Status) {
    var (heard, status) := ProcessFrame(w, c, frame);
    if status != Ok then (heard, status)
    else
      var (answered, status') := Transcribe(w, heard);
      if status' != Ok then (answered, status') else (EmitOne(answered), Ok)
  }

  lemma FinalizeFromQuiet(w: World, c: Core)
    requires Quiet(c)
    ensures var (d, status) := Finalize(w, c);
            && d.responses == [] && d.utterance == [] && |d.artifacts| <= 1
            && (status != Ok ==> d.artifacts == [])
  {
  }

  lemma AppendFromQuiet(w: World, c: Core, frame: Frame, number: nat)
    requires Quiet(c) && |frame| == FRAME_BYTES
    ensures Quiet(Append(w, c, frame, number).0)
  {
  }

  /** A frame queues at most one artifact, and none if it fails. */
  lemma ProcessFrameFromQuiet(w: World, c: Core, frame: Frame)
    requires Quiet(c) && |frame| == FRAME_BYTES
    ensures var (d, status) := ProcessFrame(w, c, frame);
            && d.responses == [] && |d.utterance| % FRAME_BYTES == 0 && |d.artifacts| <= 1
            && (status != Ok ==> d.artifacts == [])
  {
    hide Finalize, Append;
    var heard := c.(seen := c.seen + [frame]);
    var (vad, event) := VadStep(c.vad, w.timeoutMs, w.verdicts(heard.seen) == 1, FRAME_MS);
    var started := heard.(vad := vad, utterance := if event == SpeechStart then [] else c.utterance);
    assert Quiet(started);
    AppendFromQuiet(w, started, frame, |c.seen|);
    FinalizeFromQuiet(w, Append(w, started, frame, |c.seen|).0);
    FinalizeFromQuiet(w, started);
  }

  /** Neither a queued artifact nor a queued response outlives the tick, even if the tick fails,
      and neither queue-full branch is ever taken. */
  lemma FrameTickKeepsQuiet(w: World, c: Core, frame: Frame)
    requires Quiet(c) && |frame| == FRAME_BYTES
    ensures Quiet(FrameTick(w, c, frame).0)
    ensures |ProcessFrame(w, c, frame).0.artifacts| <= 1 < QUEUE_CAPACITY
  {
    hide ProcessFrame;
    ProcessFrameFromQuiet(w, c, frame);
  }

  /** A tick handles at most one frame, never overflows the ring and leaves the pipeline steady,
      whether it succeeds or not. */
  lemma TickHandlesOneFrame(w: World, p: Pipe, chunk: seq<byte>)
    requires Steady(p) && |chunk| <= CHUNK_BYTES
    ensures var bytes := p.ring + chunk;
            Tick(w, p, chunk) ==
            if |bytes| < FRAME_BYTES then (p.(ring := bytes), Ok)
            else
              var (c, status) := FrameTick(w, p.core, bytes[..FRAME_BYTES]);
              (p.(ring := bytes[FRAME_BYTES..], core := c), status)
    ensures Steady(Tick(w, p, chunk).0)
  {
    hide ProcessFrame, Transcribe;
    var bytes := p.ring + chunk;
    assert chunk[..|chunk|] == chunk;
    assert WriteRing(p, chunk) == p.(ring := bytes);
    if |bytes| >= FRAME_BYTES {
      FrameTickKeepsQuiet(w, p.core, bytes[..FRAME_BYTES]);
      var (c, status) := ProcessFrame(w, p.core, bytes[..FRAME_BYTES]);
      assert Drain(w, p.(ring := bytes)) == (p.(ring := bytes[FRAME_BYTES..], core := c), status);
    } else {
      IdleTick(w, p.core);
    }
  }

  lemma IdleTick(w: World, c: Core)
    requires Quiet(c)
    ensures Transcribe(w, c) == (c, Ok) && EmitOne(c) == c
  {
  }

  // ---------- Chunking ----------

  ghost function Concat(chunks: seq<seq<byte>>): seq<byte> {
    if chunks == [] then [] else Concat(chunks[..|chunks| - 1]) + chunks[|chunks| - 1]
  }

  /** The stream cut into consecutive frames; a tail shorter than a frame is left over. */
  ghost function Frames(stream: seq<byte>): (frames: seq<Frame>)
    ensures |frames| == |stream| / FRAME_BYTES
    ensures forall i :: 0 <= i < |frames| ==> |frames[i]| == FRAME_BYTES
  {
    seq(|stream| / FRAME_BYTES, i requires 0 <= i < |stream| / FRAME_BYTES =>
      stream[FRAME_BYTES * i..FRAME_BYTES * i + FRAME_BYTES])
  }

  ghost function Leftover(stream: seq<byte>): seq<byte> {
    stream[FRAME_BYTES * (|stream| / FRAME_BYTES)..]
  }

  /** The frames and what is left over are the stream, byte for byte and in order. */
  lemma FramesCoverStream(stream: seq<byte>)
    ensures Concat(Frames(stream)) + Leftover(stream) == stream && |Leftover(stream)| < FRAME_BYTES
  {
    var n := |stream| / FRAME_BYTES;
    FramesUpTo(stream, n);
    assert Frames(stream)[..n] == Frames(stream);
  }

  lemma {:induction false} FramesUpTo(stream: seq<byte>, n: nat)
    requires n <= |stream| / FRAME_BYTES
    ensures Concat(Frames(stream)[..n]) == stream[..FRAME_BYTES * n]
  {
    hide Frames;
    if n > 0 {
      FramesUpTo(stream, n - 1);
      FrameAt(stream, n - 1);
      assert Frames(stream)[..n][..n - 1] == Frames(stream)[..n - 1];
      Extended(stream, FRAME_BYTES * (n - 1));
    }
  }

  lemma FrameAt(stream: seq<byte>, i: nat)
    requires i < |stream| / FRAME_BYTES
    ensures FRAME_BYTES * i + FRAME_BYTES <= |stream|
    ensures Frames(stream)[i] == stream[FRAME_BYTES * i..FRAME_BYTES * i + FRAME_BYTES]
  {
  }

  lemma Extended(stream: seq<byte>, at: nat)
    requires at + FRAME_BYTES <= |stream|
    ensures stream[..at] + stream[at..at + FRAME_BYTES] == stream[..at + FRAME_BYTES]
  {
  }

  lemma FramesOfExtension(stream: seq<byte>, chunk: seq<byte>)
    requires |chunk| <= CHUNK_BYTES
    ensures var bytes := Leftover(stream) + chunk;
            if |bytes| < FRAME_BYTES then
              Frames(stream + chunk) == Frames(stream) && Leftover(stream + chunk) == bytes
            else
              && Frames(stream + chunk) == Frames(stream) + [bytes[..FRAME_BYTES]]
              && Leftover(stream + chunk) == bytes[FRAME_BYTES..]
  {
    var n := |stream| / FRAME_BYTES;
    var bytes := Leftover(stream) + chunk;
    var longer := stream + chunk;
    forall i | 0 <= i < n
      ensures longer[FRAME_BYTES * i..FRAME_BYTES * i + FRAME_BYTES]
              == stream[FRAME_BYTES * i..FRAME_BYTES * i + FRAME_BYTES]
    {
    }
    if |bytes| < FRAME_BYTES {
      assert |longer| / FRAME_BYTES == n;
    } else {
      assert |longer| / FRAME_BYTES == n + 1;
      assert longer[FRAME_BYTES * n..FRAME_BYTES * n + FRAME_BYTES] == bytes[..FRAME_BYTES];
    }
  }

  /** A run of main's loop over the chunks the pipe delivered, ending at the first error. */
  function Run(w: World, chunks: seq<seq<byte>>): (Pipe, Status) {
    if chunks == [] then (INITIAL_PIPE, Ok)
    else
      var n := |chunks| - 1;
      var (p, status) := Run(w, chunks[..n]);
      if status != Ok then (p, status) else Tick(w, p, chunks[n])
  }

  /** The same, frame by frame, with no ring and no chunks. */
  function Feed(w: World, frames: seq<Frame>): (Core, Status) {
    if frames == [] then (INITIAL_CORE, Ok)
    else
      var n := |frames| - 1;
      var (c, status) := Feed(w, frames[..n]);
      if status != Ok then (c, status) else FrameTick(w, c, frames[n])
  }

  /** However the pipe cuts the stream into chunks, a run is the frame-by-frame run over the
      stream cut into 640-byte blocks; an error-free run leaves the remainder in the ring. */
  lemma {:induction false} RunIsFrameByFrame(w: World, chunks: seq<seq<byte>>)
    requires forall i :: 0 <= i < |chunks| ==> |chunks[i]| <= CHUNK_BYTES
    ensures var (p, status) := Run(w, chunks);
            && Steady(p)
            && (p.core, status) == Feed(w, Frames(Concat(chunks)))
            && (status == Ok ==> p.ring == Leftover(Concat(chunks)))
  {
    if chunks == [] {
      assert Frames([]) == [];
    } else {
      var n := |chunks| - 1;
      RunIsFrameByFrame(w, chunks[..n]);
      RunStep(w, Run(w, chunks[..n]).0, Concat(chunks[..n]), chunks[n]);
    }
  }

  /** One more chunk on both sides of RunIsFrameByFrame. */
  lemma RunStep(w: World, p: Pipe, stream: seq<byte>, chunk: seq<byte>)
    requires |chunk| <= CHUNK_BYTES && Steady(p)
    requires var (c, status) := Feed(w, Frames(stream)); p.core == c && (status == Ok ==> p.ring == Leftover(stream))
    ensures var (c, status) := Feed(w, Frames(stream));
            var (c', status') := Feed(w, Frames(stream + chunk));
            if status != Ok then (c', status') == (c, status)
            else
              var (p', status'') := Tick(w, p, chunk);
              && Steady(p') && (p'.core, status'') == (c', status')
              && (status'' == Ok ==> p'.ring == Leftover(stream + chunk))
  {
    hide Tick, FrameTick, Frames, Leftover, Steady;
    FramesOfExtension(stream, chunk);
    TickHandlesOneFrame(w, p, chunk);
    var bytes := Leftover(stream) + chunk;
    if |bytes| >= FRAME_BYTES {
      var frames := Frames(stream) + [bytes[..FRAME_BYTES]];
      assert frames[..|frames| - 1] == Frames(stream);
    }
  }

  /** Two runs over the same bytes end alike, whatever the chunks. */
  lemma ChunkingDoesNotMatter(w: World, chunks: seq<seq<byte>>, other: seq<seq<byte>>)
    requires forall i :: 0 <= i < |chunks| ==> |chunks[i]| <= CHUNK_BYTES
    requires forall i :: 0 <= i < |other| ==> |other[i]| <= CHUNK_BYTES
    requires Concat(chunks) == Concat(other)
    ensures var (p, status), (p', status') := Run(w, chunks), Run(w, other);
            p.core == p'.core && status == status' && (status == Ok ==> p == p')
  {
    RunIsFrameByFrame(w, chunks);
    RunIsFrameByFrame(w, other);
  }
}
