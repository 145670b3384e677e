/** What stays true of ids, responses and WAV files whatever fails and however often run_once is
    called after a failure. */
module Ledgers {
  import opened Base
  import opened VadDetectors
  import opened ArtifactPaths
  import opened Pipelines
  import opened PipelineRuns
  import opened Conversations

  /** run_once over and over, errors or not. */
  function Persist(w: World, chunks: seq<seq<byte>>): Pipe {
    if chunks == [] then INITIAL_PIPE
    else Tick(w, Persist(w, chunks[..|chunks| - 1]), chunks[|chunks| - 1]).0
  }

  /** The responses a list of finalized utterances has earned: one per transcription, in order. */
  ghost function Earned(w: World, finalized: seq<Utterance>): seq<Response> {
    if finalized == [] then []
    else
      var id := finalized[|finalized| - 1].id;
      Earned(w, finalized[..|finalized| - 1]) + if w.stt(id).Some? then [ResponseTo(w, id)] else []
  }

  /** Once utterance `id` is through, its file is still there exactly if it was written but could
      not be transcribed, or if it was to be unlinked and that failed. */
  ghost predicate FileKept(w: World, id: nat) {
    && BuildPath(w.runtimeDir, id).Some?
    && match w.wav(id)
       case CannotOpen => false
       case WriteFails => !w.unlinked(id)
       case Written => w.stt(id).None? || !w.unlinked(id)
  }

  ghost function KeptPaths(w: World, count: nat): set<string> {
    set id | 0 <= id < count && FileKept(w, id) :: PathText(w.runtimeDir, id)
  }

  ghost predicate LedgerInv(w: World, c: Core) {
    && Quiet(c)
    && c.nextId <= |c.seen|
    && (forall i :: 0 <= i < |c.finalized| ==> c.finalized[i].id < c.nextId)
    && (forall i, j :: 0 <= i < j < |c.finalized| ==> c.finalized[i].id < c.finalized[j].id)
    && c.emitted == Earned(w, c.finalized)
    && c.files.Keys == KeptPaths(w, c.nextId)
    && (forall i :: 0 <= i < |c.finalized| ==> Stored(w, c.files, c.finalized[i]))
  }

  /** A file that is still there for a finalized utterance holds that utterance. */
  ghost predicate Stored(w: World, files: map<string, WavFile>, u: Utterance) {
    var path := PathText(w.runtimeDir, u.id);
    path in files ==> files[path] == Complete(u.pcm)
  }

  /** An utterance has been numbered and dealt with: lost to a file error, or finalized and then
      answered if it could be transcribed. No other utterance's file is touched. */
  ghost predicate DealtWith(w: World, c: Core, d: Core) {
    && d.nextId == c.nextId + 1
    && d.files.Keys == c.files.Keys + (if FileKept(w, c.nextId) then {PathText(w.runtimeDir, c.nextId)} else {})
    && (forall p :: p in c.files ==> d.files[p] == c.files[p])
    && (|| (d.finalized == c.finalized && d.emitted == c.emitted)
        || (&& |d.finalized| == |c.finalized| + 1 && d.finalized == c.finalized + [d.finalized[|c.finalized|]]
            && d.finalized[|c.finalized|].id == c.nextId && Stored(w, d.files, d.finalized[|c.finalized|])
            && d.emitted == c.emitted + if w.stt(c.nextId).Some? then [ResponseTo(w, c.nextId)] else []))
  }

  lemma PathIsNotEmpty(runtimeDir: string, id: nat)
    ensures PathText(runtimeDir, id) != ""
  {
  }

  /** What a WAV file comes to, and that no other file changes. */
  lemma FileOutcome(w: World, files: map<string, WavFile>, id: nat, file: WavFile)
    requires PathText(w.runtimeDir, id) !in files
    ensures var path := PathText(w.runtimeDir, id);
            var written := files[path := file];
            var unlinked := Unlink(w, written, id, path);
            && written.Keys == files.Keys + {path} && written[path] == file
            && unlinked.Keys == files.Keys + (if w.unlinked(id) then {} else {path})
            && (path in unlinked ==> unlinked[path] == file)
            && (forall p :: p in files ==> written[p] == files[p] && unlinked[p] == files[p])
  {
    hide PathText;
  }

  /** From a complete utterance to the end of its tick. */
  function Conclude(w: World, c: Core): Core {
    var (written, status) := Finalize(w, c);
    if status != Ok then written
    else
      var (answered, status') := Transcribe(w, written);
      if status' != Ok then answered else EmitOne(answered)
  }

  lemma ConcludeDeals(w: World, c: Core)
    requires Quiet(c) && c.utterance != [] && PathText(w.runtimeDir, c.nextId) !in c.files
    ensures DealtWith(w, c, Conclude(w, c)) && Conclude(w, c).seen == c.seen
  {
    hide DealtWith, Conclude;
    if BuildPath(w.runtimeDir, c.nextId).Some? && w.wav(c.nextId) == Written {
      WrittenDeals(w, c);
    } else {
      LostDeals(w, c);
    }
  }

  lemma WrittenDeals(w: World, c: Core)
    requires Quiet(c) && c.utterance != [] && PathText(w.runtimeDir, c.nextId) !in c.files
    requires BuildPath(w.runtimeDir, c.nextId).Some? && w.wav(c.nextId) == Written
    ensures DealtWith(w, c, Conclude(w, c)) && Conclude(w, c).seen == c.seen
  {
    hide PathText, ResponseTo, Unlink;
    var id := c.nextId;
    var path := PathText(w.runtimeDir, id);
    PathIsNotEmpty(w.runtimeDir, id);
    FileOutcome(w, c.files, id, Complete(c.utterance));
    assert Finalize(w, c).0.artifacts == [Artifact(id, |c.utterance|, path)];
    assert Conclude(w, c).finalized == c.finalized + [Utterance(id, c.utterance)];
  }

  lemma LostOutcome(w: World, c: Core)
    requires Quiet(c) && c.utterance != []
    requires BuildPath(w.runtimeDir, c.nextId).None? || w.wav(c.nextId) != Written
    ensures var path := PathText(w.runtimeDir, c.nextId);
            var partial := BuildPath(w.runtimeDir, c.nextId).Some? && w.wav(c.nextId) == WriteFails;
            && Finalize(w, c).1 != Ok
            && Finalize(w, c).0 == c.(utterance := [], nextId := c.nextId + 1,
                                      files := if partial then Unlink(w, c.files[path := Partial], c.nextId, path)
                                               else c.files)
  {
    hide PathText, Unlink;
  }

  lemma LostDeals(w: World, c: Core)
    requires Quiet(c) && c.utterance != [] && PathText(w.runtimeDir, c.nextId) !in c.files
    requires BuildPath(w.runtimeDir, c.nextId).None? || w.wav(c.nextId) != Written
    ensures DealtWith(w, c, Conclude(w, c)) && Conclude(w, c).seen == c.seen
  {
    hide PathText, ResponseTo, Unlink, Finalize, Transcribe, EmitOne, BuildPath;
    LostOutcome(w, c);
    FileOutcome(w, c.files, c.nextId, Partial);
  }

  /** A tick, successful or not, deals with at most one utterance. */
  lemma TickDeals(w: World, c: Core, frame: Frame)
    requires Quiet(c) && |frame| == FRAME_BYTES && PathText(w.runtimeDir, c.nextId) !in c.files
    ensures var d := FrameTick(w, c, frame).0;
            d.seen == c.seen + [frame] && (SameOutput(c, d) || DealtWith(w, c, d))
  {
    hide Finalize, Append, Transcribe, EmitOne, PathText, DealtWith;
    var heard := c.(seen := c.seen + [frame]);
    var (vad, event) := VadStep(c.vad, w.timeoutMs, w.verdicts(heard.seen) == 1, FRAME_MS);
    var started := heard.(vad := vad, utterance := if event == SpeechStart then [] else c.utterance);
    AppendOk(w, started, frame, |c.seen|);
    AppendFromQuiet(w, started, frame, |c.seen|);
    var appended := Append(w, started, frame, |c.seen|).0;
    NothingQueued(w, started);
    NothingQueued(w, appended);
    if event == SpeechEnd && c.vad.speechActive && Append(w, started, frame, |c.seen|).1 == Ok {
      ConcludeDeals(w, appended);
      SameBase(w, c, appended, Conclude(w, appended));
    }
  }

  lemma SameBase(w: World, c: Core, c': Core, d: Core)
    requires SameOutput(c, c') && DealtWith(w, c', d)
    ensures DealtWith(w, c, d)
  {
  }

  lemma KeptPathsStep(w: World, count: nat)
    ensures KeptPaths(w, count + 1)
            == KeptPaths(w, count) + if FileKept(w, count) then {PathText(w.runtimeDir, count)} else {}
  {
    hide PathText, FileKept;
  }

  lemma FreshPath(w: World, count: nat)
    requires count < SEQUENCE_LIMIT
    ensures PathText(w.runtimeDir, count) !in KeptPaths(w, count)
  {
    hide PathText, FileKept;
    forall id: nat | id < count
      ensures PathText(w.runtimeDir, id) != PathText(w.runtimeDir, count)
    {
      PathsAreInjective(w.runtimeDir, id, count);
    }
  }

  lemma LedgerStep(w: World, c: Core, frame: Frame)
    requires LedgerInv(w, c) && |frame| == FRAME_BYTES && |c.seen| < SEQUENCE_LIMIT
    ensures LedgerInv(w, FrameTick(w, c, frame).0)
  {
    hide FrameTick, PathText, KeptPaths, FileKept, ResponseTo, Earned, Stored, DealtWith;
    var d := FrameTick(w, c, frame).0;
    FreshPath(w, c.nextId);
    TickDeals(w, c, frame);
    FrameTickKeepsQuiet(w, c, frame);
    if SameOutput(c, d) {
      assert LedgerInv(w, d);
    } else {
      DealKeepsLedger(w, c, d);
    }
  }

  lemma DealKeepsLedger(w: World, c: Core, d: Core)
    requires LedgerInv(w, c) && |c.seen| < SEQUENCE_LIMIT && DealtWith(w, c, d)
    requires Quiet(d) && |d.seen| == |c.seen| + 1
    ensures LedgerInv(w, d)
  {
    hide PathText, KeptPaths, FileKept, ResponseTo, Stored;
    KeptPathsStep(w, c.nextId);
    if |d.finalized| == |c.finalized| + 1 {
      assert d.finalized[..|c.finalized|] == c.finalized;
    }
    forall i | 0 <= i < |c.finalized|
      ensures Stored(w, d.files, c.finalized[i])
    {
      StoredStays(w, c, d, c.finalized[i]);
    }
  }

  lemma StoredStays(w: World, c: Core, d: Core, u: Utterance)
    requires Stored(w, c.files, u) && u.id < c.nextId < SEQUENCE_LIMIT
    requires forall p :: p in c.files ==> p in d.files && d.files[p] == c.files[p]
    requires d.files.Keys <= c.files.Keys + {PathText(w.runtimeDir, c.nextId)}
    ensures Stored(w, d.files, u)
  {
    hide PathText;
    PathsAreInjective(w.runtimeDir, u.id, c.nextId);
  }

  /** After any number of ticks, failed or not: the queues are empty and nothing was dropped, ids
      only rise, exactly the transcribed utterances have been answered, one response each and in
      order, and the files that remain are exactly those of failed transcriptions and failed
      unlinks, each holding its own utterance. */
  lemma {:induction false} LedgersAlwaysHold(w: World, chunks: seq<seq<byte>>)
    requires forall i :: 0 <= i < |chunks| ==> |chunks[i]| <= CHUNK_BYTES
    requires |chunks| < SEQUENCE_LIMIT
    ensures var p := Persist(w, chunks);
            Steady(p) && LedgerInv(w, p.core) && |p.core.seen| <= |chunks|
  {
    hide Tick, FrameTick, LedgerInv, Steady;
    if chunks == [] {
      LedgerInitially(w);
    } else {
      var n := |chunks| - 1;
      LedgersAlwaysHold(w, chunks[..n]);
      var p := Persist(w, chunks[..n]);
      TickHandlesOneFrame(w, p, chunks[n]);
      var bytes := p.ring + chunks[n];
      if |bytes| >= FRAME_BYTES {
        LedgerStep(w, p.core, bytes[..FRAME_BYTES]);
        SeenGrows(w, p.core, bytes[..FRAME_BYTES]);
      }
    }
  }

  lemma SeenGrows(w: World, c: Core, frame: Frame)
    requires LedgerInv(w, c) && |frame| == FRAME_BYTES && |c.seen| < SEQUENCE_LIMIT
    ensures |FrameTick(w, c, frame).0.seen| == |c.seen| + 1
  {
    hide PathText, FrameTick, KeptPaths, DealtWith;
    FreshPath(w, c.nextId);
    TickDeals(w, c, frame);
  }

  lemma LedgerInitially(w: World)
    ensures Steady(INITIAL_PIPE) && LedgerInv(w, INITIAL_CORE)
  {
  }

  /** When every unlink succeeds, the files left are exactly the failed transcriptions. */
  lemma FilesLeftAreFailedTranscriptions(w: World, chunks: seq<seq<byte>>, path: string)
    requires forall i :: 0 <= i < |chunks| ==> |chunks[i]| <= CHUNK_BYTES
    requires |chunks| < SEQUENCE_LIMIT && forall id :: w.unlinked(id)
    ensures var c := Persist(w, chunks).core;
            path in c.files <==>
            exists id :: 0 <= id < c.nextId && BuildPath(w.runtimeDir, id) == Some(path)
                         && w.wav(id) == Written && w.stt(id) == None
  {
    hide PathText, Persist;
    LedgersAlwaysHold(w, chunks);
  }

  /** main's run is the first part of such a sequence, up to and including its first failure. */
  lemma {:induction false} RunIsPersistUntilError(w: World, chunks: seq<seq<byte>>) returns (k: nat)
    ensures k <= |chunks| && Run(w, chunks).0 == Persist(w, chunks[..k])
    ensures Run(w, chunks).1 == Ok ==> k == |chunks|
  {
    hide Tick;
    if chunks == [] {
      k := 0;
    } else {
      var n := |chunks| - 1;
      var j := RunIsPersistUntilError(w, chunks[..n]);
      if Run(w, chunks[..n]).1 == Ok {
        k := |chunks|;
        assert chunks[..n][..j] == chunks[..n] && chunks[..k] == chunks;
      } else {
        k := j;
        assert chunks[..n][..j] == chunks[..j];
      }
    }
  }

  /** So main's runs keep the ledgers too. */
  lemma RunKeepsLedgers(w: World, chunks: seq<seq<byte>>)
    requires forall i :: 0 <= i < |chunks| ==> |chunks[i]| <= CHUNK_BYTES
    requires |chunks| < SEQUENCE_LIMIT
    ensures LedgerInv(w, Run(w, chunks).0.core)
  {
    hide LedgerInv, Run, Persist;
    var k := RunIsPersistUntilError(w, chunks);
    LedgersAlwaysHold(w, chunks[..k]);
  }
}
