/** What comes out of a run: which utterances, which responses, which files. */
module Conversations {
  import opened Base
  import opened VadDetectors
  import opened GrowthBuffers
  import opened ArtifactPaths
  import opened Segmentations
  import opened Pipelines
  import opened PipelineRuns

  /** libfvad's answers along a stream of frames, as the detector takes them. */
  ghost function Verdicts(w: World, frames: seq<Frame>): (verdicts: seq<bool>)
    ensures |verdicts| == |frames|
  {
    seq(|frames|, i requires 0 <= i < |frames| => w.verdicts(frames[..i + 1]) == 1)
  }

  lemma VerdictsOfPrefix(w: World, frames: seq<Frame>, frame: Frame)
    ensures Verdicts(w, frames + [frame]) == Verdicts(w, frames) + [w.verdicts(frames + [frame]) == 1]
  {
    forall k | 0 <= k <= |frames|
      ensures (frames + [frame])[..k] == frames[..k]
    {
    }
    assert (frames + [frame])[..|frames| + 1] == frames + [frame];
  }

  // ---------- What a tick does, case by case ----------

  ghost predicate SameOutput(c: Core, d: Core) {
    d.nextId == c.nextId && d.finalized == c.finalized && d.emitted == c.emitted && d.files == c.files
  }

  lemma AppendOk(w: World, c: Core, frame: Frame, number: nat)
    ensures var (d, status) := Append(w, c, frame, number);
            && SameOutput(c, d) && d.seen == c.seen && d.vad == c.vad
            && d.artifacts == c.artifacts && d.responses == c.responses
            && d.utterance == if status == Ok then c.utterance + frame else c.utterance
  {
  }

  /** An utterance that is written and transcribed is answered before the tick is over. */
  lemma FinalizeAndAnswer(w: World, c: Core)
    requires c.artifacts == [] && c.responses == [] && c.utterance != []
    requires Finalize(w, c).1 == Ok && Transcribe(w, Finalize(w, c).0).1 == Ok
    ensures var d := EmitOne(Transcribe(w, Finalize(w, c).0).0);
            && d.seen == c.seen && d.vad == c.vad && d.utterance == [] && d.nextId == c.nextId + 1
            && d.finalized == c.finalized + [Utterance(c.nextId, c.utterance)]
            && d.emitted == c.emitted + [ResponseTo(w, c.nextId)]
            && w.wav(c.nextId) == Written && w.stt(c.nextId).Some?
  {
    hide ResponseTo, BuildPath;
  }

  /** The effect of a successful tick, by the event its frame caused. */
  lemma SuccessfulTick(w: World, c: Core, frame: Frame)
    requires Quiet(c) && |frame| == FRAME_BYTES && FrameTick(w, c, frame).1 == Ok
    ensures var d := FrameTick(w, c, frame).0;
            var (vad, event) := VadStep(c.vad, w.timeoutMs, w.verdicts(c.seen + [frame]) == 1, FRAME_MS);
            && d.seen == c.seen + [frame] && d.vad == vad
            && d.utterance == (match event
                               case NoEvent => c.utterance
                               case SpeechStart => frame
                               case SpeechContinue => c.utterance + frame
                               case SpeechEnd => [])
            && (event != SpeechEnd ==> SameOutput(c, d))
            && (event == SpeechEnd ==>
                  && d.nextId == c.nextId + 1
                  && d.finalized == c.finalized + [Utterance(c.nextId, c.utterance + frame)]
                  && d.emitted == c.emitted + [ResponseTo(w, c.nextId)]
                  && w.wav(c.nextId) == Written && w.stt(c.nextId).Some?)
  {
    hide Finalize, Append, Transcribe, EmitOne;
    var heard := c.(seen := c.seen + [frame]);
    var (vad, event) := VadStep(c.vad, w.timeoutMs, w.verdicts(heard.seen) == 1, FRAME_MS);
    var started := heard.(vad := vad, utterance := if event == SpeechStart then [] else c.utterance);
    AppendOk(w, started, frame, |c.seen|);
    var appended := Append(w, started, frame, |c.seen|).0;
    if event == SpeechEnd {
      FinalizeAndAnswer(w, appended);
    } else {
      NothingQueued(w, started);
      NothingQueued(w, appended);
    }
  }

  lemma NothingQueued(w: World, c: Core)
    requires c.artifacts == [] && c.responses == []
    ensures Transcribe(w, c) == (c, Ok) && EmitOne(c) == c
  {
  }

  /** A response is the LLM's text, cut to what the queue entry holds, or the fallback sentence in
      full, and is marked accordingly. */
  lemma ResponseIsTheText(w: World, id: nat)
    ensures var r := ResponseTo(w, id);
            && r.id == id && (r.usedFallback <==> w.llm(id) == None)
            && (w.llm(id) == None ==> r.text == FALLBACK_TEXT)
            && (w.llm(id).Some? ==> r.text <= w.llm(id).value
                                    && |r.text| == Min(|w.llm(id).value|, RESPONSE_TEXT_MAX - 1))
  {
  }

  lemma FinalizeSucceedsExactly(w: World, c: Core)
    requires Quiet(c) && c.utterance != [] && c.nextId < SEQUENCE_LIMIT
    ensures Finalize(w, c).1 == Ok <==> |w.runtimeDir| <= 476 && w.wav(c.nextId) == Written
    ensures Finalize(w, c).1 == Ok ==>
              var (f, _) := Finalize(w, c);
              && f.artifacts == [Artifact(c.nextId, |c.utterance|, PathText(w.runtimeDir, c.nextId))]
              && f.files == c.files[PathText(w.runtimeDir, c.nextId) := Complete(c.utterance)]
              && (Transcribe(w, f).1 == Ok <==> w.stt(c.nextId).Some?)
    ensures Finalize(w, c).1 in {Ok, IoError} && Transcribe(w, Finalize(w, c).0).1 in {Ok, IoError}
  {
    hide PathText, ResponseTo, Unlink;
    PathFitsForAllIdsOrNone(w.runtimeDir, c.nextId);
    assert |c.utterance| % 2 == 0;
  }

  /** The block of the utterance: a capacity doubling can reach, and the utterance is in it. */
  ghost predicate Sized(c: Core) {
    UtteranceSized(c.capacity) && |c.utterance| <= c.capacity <= SIZE_MAX
  }

  /** Whether a frame with `event` fits: it needs no more than the block has, or realloc grants the
      growth and the need is not beyond the largest capacity. */
  ghost predicate FrameFits(c: Core, event: Event, granted: bool) {
    var need := (if event == SpeechStart then 0 else |c.utterance|) + FRAME_BYTES;
    need <= c.capacity || (granted && need <= LARGEST_UTTERANCE)
  }

  /** Whether the utterance closed by a frame can be stored. */
  predicate Storable(w: World, id: nat) {
    |w.runtimeDir| <= 476 && w.wav(id) == Written
  }

  lemma AppendFits(w: World, c: Core, frame: Frame, number: nat)
    requires Sized(c) && |frame| == FRAME_BYTES
    ensures var need, (d, status) := |c.utterance| + FRAME_BYTES, Append(w, c, frame, number);
            && (status == Ok <==> need <= c.capacity || (w.granted(number) && need <= LARGEST_UTTERANCE))
            && status in {Ok, IoError} && Sized(d) && (status != Ok ==> d == c)
  {
    hide UtteranceAppendStatus, UtteranceCapacity, UtteranceSized;
    AppendSucceedsExactly(|c.utterance|, c.capacity, |frame|, w.granted(number));
    if UtteranceAppendStatus(|c.utterance|, c.capacity, |frame|, w.granted(number)) == Ok {
      AppendKeepsSized(|c.utterance|, c.capacity, |frame|, w.granted(number));
    }
  }

  /** The detector's part of a tick, when libfvad has no error. */
  ghost function Heard(w: World, c: Core, frame: Frame): (Core, Event) {
    var heard := c.(seen := c.seen + [frame]);
    var (vad, event) := VadStep(c.vad, w.timeoutMs, w.verdicts(heard.seen) == 1, FRAME_MS);
    (heard.(vad := vad, utterance := if event == SpeechStart then [] else c.utterance), event)
  }

  /** When a tick succeeds: libfvad has no error, a frame of an utterance fits in memory, and an
      utterance that ends can be stored and transcribed. Whether the LLM answers makes no
      difference. A tick that fails fails with IoError. */
  lemma TickSucceedsExactly(w: World, c: Core, frame: Frame)
    requires Quiet(c) && Sized(c) && |frame| == FRAME_BYTES && c.nextId < SEQUENCE_LIMIT
    ensures var verdict := w.verdicts(c.seen + [frame]);
            var (_, event) := VadStep(c.vad, w.timeoutMs, verdict == 1, FRAME_MS);
            FrameTick(w, c, frame).1 == Ok <==>
            && verdict >= 0
            && (event != NoEvent ==> FrameFits(c, event, w.granted(|c.seen|)))
            && (event == SpeechEnd ==> Storable(w, c.nextId) && w.stt(c.nextId).Some?)
    ensures FrameTick(w, c, frame).1 in {Ok, IoError}
  {
    hide Finalize, Transcribe, EmitOne, Append, UtteranceSized;
    var (started, event) := Heard(w, c, frame);
    AppendFits(w, started, frame, |c.seen|);
    AppendOk(w, started, frame, |c.seen|);
    AppendFromQuiet(w, started, frame, |c.seen|);
    var (appended, status) := Append(w, started, frame, |c.seen|);
    NothingQueued(w, started);
    NothingQueued(w, appended);
    if event == SpeechEnd && status == Ok {
      FinalizeSucceedsExactly(w, appended);
    }
  }

  /** What a failing tick leaves behind, by the stage that failed. */
  lemma FailingTickLeaves(w: World, c: Core, frame: Frame)
    requires Quiet(c) && Sized(c) && |frame| == FRAME_BYTES && c.nextId < SEQUENCE_LIMIT
    ensures var ((started, event), (d, status)) := (Heard(w, c, frame), FrameTick(w, c, frame));
            if w.verdicts(c.seen + [frame]) < 0 then (d, status) == (c.(seen := c.seen + [frame]), IoError)
            else if event != NoEvent && !FrameFits(c, event, w.granted(|c.seen|)) then (d, status) == (started, IoError)
            else if event == SpeechEnd && !(Storable(w, c.nextId) && w.stt(c.nextId).Some?) then
              && status == IoError && d.utterance == [] && d.nextId == c.nextId + 1
              && d.seen == started.seen && d.vad == started.vad && d.emitted == c.emitted
              && d.finalized == c.finalized
                                + (if Storable(w, c.nextId) then [Utterance(c.nextId, c.utterance + frame)] else [])
            else status == Ok
  {
    hide Finalize, Transcribe, EmitOne, Append, UtteranceSized;
    TickSucceedsExactly(w, c, frame);
    var (started, event) := Heard(w, c, frame);
    AppendFits(w, started, frame, |c.seen|);
    AppendOk(w, started, frame, |c.seen|);
    AppendFromQuiet(w, started, frame, |c.seen|);
    var (appended, status) := Append(w, started, frame, |c.seen|);
    NothingQueued(w, started);
    NothingQueued(w, appended);
    if event == SpeechEnd && status == Ok {
      FinalizeSucceedsExactly(w, appended);
      FailedFinalize(w, appended);
    }
  }

  lemma FailedFinalize(w: World, c: Core)
    requires Quiet(c) && c.utterance != [] && c.nextId < SEQUENCE_LIMIT
    ensures var (f, status) := Finalize(w, c);
            && f.utterance == [] && f.nextId == c.nextId + 1 && f.seen == c.seen && f.vad == c.vad
            && f.emitted == c.emitted && status in {Ok, IoError}
            && f.finalized == c.finalized + (if status == Ok then [Utterance(c.nextId, c.utterance)] else [])
            && (status == Ok && w.stt(c.nextId).None? ==> Transcribe(w, f) == (f.(artifacts := []), IoError))
            && (status != Ok ==> f.artifacts == [])
  {
    hide PathText, ResponseTo, Unlink, BuildPath;
    assert |c.utterance| % 2 == 0;
    var f := Finalize(w, c).0;
    assert |f.artifacts| <= 1 && (f.artifacts != [] ==> f.artifacts[1..] == [] && f.artifacts[0].id == c.nextId);
  }

  lemma TickKeepsSized(w: World, c: Core, frame: Frame)
    requires Quiet(c) && Sized(c) && |frame| == FRAME_BYTES
    ensures var d := FrameTick(w, c, frame).0; Sized(d) && c.nextId <= d.nextId <= c.nextId + 1
  {
    hide Append, UtteranceSized, VadStep;
    var (started, event) := Heard(w, c, frame);
    AppendFits(w, started, frame, |c.seen|);
    AppendOk(w, started, frame, |c.seen|);
    var appended := Append(w, started, frame, |c.seen|).0;
    FinalizeKeepsBlock(w, appended);
    FinalizeKeepsBlock(w, started);
    AnswersKeepBlock(w, ProcessFrame(w, c, frame).0);
  }

  lemma FinalizeKeepsBlock(w: World, c: Core)
    ensures var d := Finalize(w, c).0;
            d.utterance == [] && d.capacity == c.capacity && c.nextId <= d.nextId <= c.nextId + 1
  {
    hide BuildPath, Unlink;
  }

  lemma AnswersKeepBlock(w: World, c: Core)
    ensures var d := Transcribe(w, c).0; d.utterance == c.utterance && d.capacity == c.capacity && d.nextId == c.nextId
    ensures var d := EmitOne(Transcribe(w, c).0);
            d.utterance == c.utterance && d.capacity == c.capacity && d.nextId == c.nextId
  {
    hide Unlink, ResponseTo;
  }

  /** Whatever fails and whenever, a run of the pipeline fails with IoError and nothing else. */
  lemma {:induction false} RunFailsWithIoError(w: World, chunks: seq<seq<byte>>)
    requires |chunks| < SEQUENCE_LIMIT && forall i :: 0 <= i < |chunks| ==> |chunks[i]| <= CHUNK_BYTES
    ensures var (p, status) := Run(w, chunks);
            Steady(p) && Sized(p.core) && p.core.nextId <= |chunks| && status in {Ok, IoError}
    decreases |chunks|
  {
    hide Tick, FrameTick, Sized, Steady;
    if chunks == [] {
      SizedInitially();
    } else {
      var n := |chunks| - 1;
      RunFailsWithIoError(w, chunks[..n]);
      var (p, status) := Run(w, chunks[..n]);
      if status == Ok {
        TickHandlesOneFrame(w, p, chunks[n]);
        var bytes := p.ring + chunks[n];
        if |bytes| >= FRAME_BYTES {
          QuietWhenSteady(p);
          TickSucceedsExactly(w, p.core, bytes[..FRAME_BYTES]);
          TickKeepsSized(w, p.core, bytes[..FRAME_BYTES]);
        }
      }
    }
  }

  lemma SizedInitially()
    ensures Steady(INITIAL_PIPE) && Sized(INITIAL_CORE)
  {
  }

  lemma QuietWhenSteady(p: Pipe)
    requires Steady(p)
    ensures Quiet(p.core)
  {
  }

  // ---------- Error-free runs ----------

  ghost function SpokenIn(frames: seq<Frame>, u: Interval): seq<byte> {
    if u.start <= u.end <= |frames| then Concat(frames[u.start..u.end]) else []
  }

  /** The utterances numbered in the order they were closed. */
  ghost function Spoken(frames: seq<Frame>, closed: seq<Interval>): seq<Utterance> {
    seq(|closed|, i requires 0 <= i < |closed| => Utterance(i, SpokenIn(frames, closed[i])))
  }

  ghost function Answers(w: World, count: nat): seq<Response> {
    seq(count, i requires 0 <= i < count => ResponseTo(w, i))
  }

  /** The state an error-free run over `frames` is in, said in terms of the segmentation s of the
      verdict stream. */
  ghost predicate Delivered(w: World, frames: seq<Frame>, v: VadState, s: Segmentation, c: Core) {
    && Quiet(c)
    && c.seen == frames && c.vad == v
    && c.nextId == |s.closed|
    && c.finalized == Spoken(frames, s.closed)
    && c.emitted == Answers(w, |s.closed|)
    && c.utterance == (match s.open case None => [] case Some(start) => SpokenIn(frames, Interval(start, |frames|)))
    && forall i :: 0 <= i < |s.closed| ==> w.wav(i) == Written && w.stt(i).Some?
  }

  lemma SpokenInPrefix(frames: seq<Frame>, frame: Frame, u: Interval)
    requires u.start <= u.end <= |frames|
    ensures SpokenIn(frames + [frame], u) == SpokenIn(frames, u)
    ensures SpokenIn(frames + [frame], Interval(u.start, |frames| + 1))
            == SpokenIn(frames, Interval(u.start, |frames|)) + frame
  {
    assert (frames + [frame])[u.start..u.end] == frames[u.start..u.end];
    var longer := (frames + [frame])[u.start..];
    assert longer[..|longer| - 1] == frames[u.start..];
    assert longer[|longer| - 1] == frame;
    assert (frames + [frame])[u.start..|frames| + 1] == longer;
    assert frames[u.start..|frames|] == frames[u.start..];
  }

  lemma SpokenPrefix(frames: seq<Frame>, frame: Frame, closed: seq<Interval>)
    requires forall i :: 0 <= i < |closed| ==> closed[i].start <= closed[i].end <= |frames|
    ensures Spoken(frames + [frame], closed) == Spoken(frames, closed)
  {
    forall i | 0 <= i < |closed|
      ensures SpokenIn(frames + [frame], closed[i]) == SpokenIn(frames, closed[i])
    {
      SpokenInPrefix(frames, frame, closed[i]);
    }
  }

  /** What the segmentation so far allows the next frame to do. */
  ghost predicate WellCut(n: nat, v: VadState, s: Segmentation) {
    && (forall i :: 0 <= i < |s.closed| ==> s.closed[i].start <= s.closed[i].end <= n)
    && (s.open.Some? ==> s.open.value < n)
    && (v.speechActive <==> s.open.Some?)
  }

  lemma CutIsWellCut(verdicts: seq<bool>, timeoutMs: nat)
    requires 0 < timeoutMs
    ensures var (v, s) := Cut(verdicts, timeoutMs); WellCut(|verdicts|, v, s)
  {
    hide Cut, Closes;
    CutIsSegmentation(verdicts, timeoutMs);
    var (v, s) := Cut(verdicts, timeoutMs);
    forall i | 0 <= i < |s.closed|
      ensures s.closed[i].start <= s.closed[i].end <= |verdicts|
    {
      EndsWithin(verdicts, CeilDiv(timeoutMs, CADENCE_MS), s.closed[i]);
    }
  }

  lemma DeliveredStep(w: World, frames: seq<Frame>, frame: Frame, v: VadState, s: Segmentation, c: Core)
    requires 0 < w.timeoutMs && |frame| == FRAME_BYTES
    requires Delivered(w, frames, v, s, c) && WellCut(|frames|, v, s)
    requires FrameTick(w, c, frame).1 == Ok
    ensures var (v', event) := VadStep(v, w.timeoutMs, w.verdicts(frames + [frame]) == 1, FRAME_MS);
            Delivered(w, frames + [frame], v', Recut(s, event, |frames|), FrameTick(w, c, frame).0)
  {
    hide FrameTick, SpokenIn, ResponseTo;
    var n := |frames|;
    var d := FrameTick(w, c, frame).0;
    var (v', event) := VadStep(v, w.timeoutMs, w.verdicts(frames + [frame]) == 1, FRAME_MS);
    var s' := Recut(s, event, n);
    FrameTickKeepsQuiet(w, c, frame);
    SuccessfulTick(w, c, frame);
    SpokenPrefix(frames, frame, s.closed);
    if event == SpeechStart {
      SpokenInPrefix(frames, frame, Interval(n, n));
      NothingSpoken(frames);
      assert [] + frame == frame;
    } else if s.open.Some? {
      SpokenInPrefix(frames, frame, Interval(s.open.value, n));
      if event == SpeechEnd {
        assert Spoken(frames + [frame], s'.closed)
            == Spoken(frames, s.closed) + [Utterance(c.nextId, c.utterance + frame)];
        assert Answers(w, |s'.closed|) == Answers(w, |s.closed|) + [ResponseTo(w, |s.closed|)];
      }
    }
  }

  lemma NothingSpoken(frames: seq<Frame>)
    ensures SpokenIn(frames, Interval(|frames|, |frames|)) == []
  {
    assert frames[|frames|..|frames|] == [];
  }

  /** In an error-free run the finalized utterances are the segmentation of the verdict stream,
      numbered from 0, each with the bytes of its own frames; every one of them has been answered
      by the end of the tick that closed it, with the fallback exactly if the LLM failed; the
      utterance under assembly is the open one; and the detector is where its own verdicts put it. */
  lemma {:induction false} ErrorFreeFeedSegments(w: World, frames: seq<Frame>)
    requires 0 < w.timeoutMs && forall i :: 0 <= i < |frames| ==> |frames[i]| == FRAME_BYTES
    requires Feed(w, frames).1 == Ok
    ensures var (v, s) := Cut(Verdicts(w, frames), w.timeoutMs);
            Delivered(w, frames, v, s, Feed(w, frames).0)
            && v == StateAfter(AtCadence(Verdicts(w, frames)), w.timeoutMs, |frames|)
  {
    hide FrameTick, Delivered, Verdicts;
    CutUsesDetector(Verdicts(w, frames), w.timeoutMs);
    if frames == [] {
      assert Delivered(w, [], VadState(false, 0), Segmentation([], None), INITIAL_CORE) by {
        DeliveredInitially(w);
      }
    } else {
      var n := |frames| - 1;
      var before, frame := frames[..n], frames[n];
      ErrorFreeFeedSegments(w, before);
      VerdictsOfPrefix(w, before, frame);
      assert before + [frame] == frames;
      var verdicts := Verdicts(w, before);
      var (v, s) := Cut(verdicts, w.timeoutMs);
      CutIsWellCut(verdicts, w.timeoutMs);
      DeliveredStep(w, before, frame, v, s, Feed(w, before).0);
      assert Verdicts(w, frames)[..n] == verdicts;
    }
  }

  lemma DeliveredInitially(w: World)
    ensures Delivered(w, [], VadState(false, 0), Segmentation([], None), INITIAL_CORE)
  {
  }

  /** The same for the daemon's own runs: only the bytes matter, and the segmentation they are
      cut by is the one and only segmentation of their verdicts. */
  lemma ErrorFreeRunSegments(w: World, chunks: seq<seq<byte>>, s: Segmentation)
    requires 0 < w.timeoutMs && forall i :: 0 <= i < |chunks| ==> |chunks[i]| <= CHUNK_BYTES
    requires Run(w, chunks).1 == Ok
    requires IsSegmentation(Verdicts(w, Frames(Concat(chunks))), CeilDiv(w.timeoutMs, CADENCE_MS), s)
    ensures var frames, c := Frames(Concat(chunks)), Run(w, chunks).0.core;
            && c.finalized == Spoken(frames, s.closed)
            && c.emitted == Answers(w, |s.closed|)
            && c.utterance == (match s.open
                               case None => []
                               case Some(start) => SpokenIn(frames, Interval(start, |frames|)))
            && Run(w, chunks).0.ring == Leftover(Concat(chunks))
  {
    hide IsSegmentation, Frames, Verdicts, Feed;
    RunIsFrameByFrame(w, chunks);
    var frames := Frames(Concat(chunks));
    ErrorFreeFeedSegments(w, frames);
    OnlySegmentation(Verdicts(w, frames), w.timeoutMs, s);
  }

  // ---------- Runs that meet an error ----------

  /** A failed tick answers nobody. At most the utterance it closed has been finalized, and then
      it was the transcription that failed. */
  lemma FailedTick(w: World, c: Core, frame: Frame)
    requires Quiet(c) && |frame| == FRAME_BYTES && FrameTick(w, c, frame).1 != Ok
    ensures var d := FrameTick(w, c, frame).0;
            && d.emitted == c.emitted
            && (|| d.finalized == c.finalized
                || (d.finalized == c.finalized + [Utterance(c.nextId, c.utterance + frame)]
                    && d.nextId == c.nextId + 1 && w.stt(c.nextId).None?))
  {
    hide Finalize, Append, Transcribe;
    var heard := c.(seen := c.seen + [frame]);
    var (vad, event) := VadStep(c.vad, w.timeoutMs, w.verdicts(heard.seen) == 1, FRAME_MS);
    var started := heard.(vad := vad, utterance := if event == SpeechStart then [] else c.utterance);
    AppendOk(w, started, frame, |c.seen|);
    var appended := Append(w, started, frame, |c.seen|).0;
    NothingQueued(w, started);
    NothingQueued(w, appended);
    FinalizeThenFail(w, appended);
  }

  lemma FinalizeThenFail(w: World, c: Core)
    requires c.artifacts == [] && c.responses == []
    ensures var (d, status) := Finalize(w, c);
            && d.emitted == c.emitted
            && (status != Ok ==> d.finalized == c.finalized)
            && (status == Ok && Transcribe(w, d).1 != Ok ==>
                  && Transcribe(w, d).0.emitted == c.emitted
                  && Transcribe(w, d).0.finalized == d.finalized == c.finalized + [Utterance(c.nextId, c.utterance)]
                  && Transcribe(w, d).0.nextId == c.nextId + 1 && w.stt(c.nextId).None?)
  {
    hide BuildPath, ResponseTo;
  }

  /** A run that ends in an error is an error-free run followed by one failing frame. */
  lemma {:induction false} FeedStopsAtFirstError(w: World, frames: seq<Frame>) returns (k: nat)
    requires Feed(w, frames).1 != Ok
    ensures k < |frames| && Feed(w, frames[..k]).1 == Ok
    ensures Feed(w, frames) == FrameTick(w, Feed(w, frames[..k]).0, frames[k])
  {
    hide FrameTick;
    var n := |frames| - 1;
    if Feed(w, frames[..n]).1 == Ok {
      k := n;
    } else {
      k := FeedStopsAtFirstError(w, frames[..n]);
      assert frames[..n][..k] == frames[..k];
    }
  }

  /** Whatever goes wrong and whenever: the responses are those of the utterances closed before
      the first failing frame, one each and in order, and at most one more utterance has been
      finalized, whose transcription is what failed. */
  lemma AnyRunAnswersWhatItTranscribed(w: World, chunks: seq<seq<byte>>) returns (k: nat, s: Segmentation)
    requires 0 < w.timeoutMs && forall i :: 0 <= i < |chunks| ==> |chunks[i]| <= CHUNK_BYTES
    ensures var frames, c := Frames(Concat(chunks)), Run(w, chunks).0.core;
            && k <= |frames| && (Run(w, chunks).1 == Ok <==> k == |frames|)
            && s == Cut(Verdicts(w, frames[..k]), w.timeoutMs).1
            && c.emitted == Answers(w, |s.closed|)
            && (|| c.finalized == Spoken(frames[..k], s.closed)
                || (&& Run(w, chunks).1 != Ok && w.stt(|s.closed|).None?
                    && |c.finalized| == |s.closed| + 1 && c.finalized[|s.closed|].id == |s.closed|
                    && c.finalized[..|s.closed|] == Spoken(frames[..k], s.closed)))
  {
    hide Frames, Verdicts, Cut, FrameTick, Spoken, Answers, Feed;
    RunIsFrameByFrame(w, chunks);
    var frames := Frames(Concat(chunks));
    if Run(w, chunks).1 == Ok {
      k := |frames|;
      assert frames[..k] == frames;
      ErrorFreeFeedSegments(w, frames);
      s := Cut(Verdicts(w, frames), w.timeoutMs).1;
    } else {
      k := FeedStopsAtFirstError(w, frames);
      var c := Feed(w, frames[..k]).0;
      ErrorFreeFeedSegments(w, frames[..k]);
      s := Cut(Verdicts(w, frames[..k]), w.timeoutMs).1;
      FailedTick(w, c, frames[k]);
      SpokenCounts(frames[..k], s.closed);
    }
  }

  lemma SpokenCounts(frames: seq<Frame>, closed: seq<Interval>)
    ensures |Spoken(frames, closed)| == |closed|
  {
  }
}
