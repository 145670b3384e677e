# The assistantd audio pipeline, verified

`assistantd` records speech with `arecord`, buffers it in a lock-free ring, cuts it into utterances with a
voice activity detector, stores each utterance as a WAV file, has it transcribed and answered by two local
servers, and queues the answers. This project models that path from the bytes in the capture pipe to the
responses, together with the lifecycle of everything the daemon owns and the configuration file it reads.

How the model is laid out:

- `RingBuffer.dfy` is the ring as one thread sees it, an array with two-chunk copies. `SpscRing.dfy` is the same
  ring as its two threads see it: every load, byte store, byte load, publication and counter update is a step
  of its own, steps interleave freely, bytes of one copy move in any order, and a load of the other thread's
  counter may return any value in that counter's modification order not older than the last one seen
  (ISO/IEC 9899:2011, sections 5.1.2.4 and 7.17.3). A plain byte load may return any store to its slot that is
  not hidden behind a later one the reader has synchronised with, so a race would surface as a wrong byte.
- `BoundedQueue.dfy`, `VadDetector.dfy`, `GrowthBuffer.dfy`, `AudioCapture.dfy`, `Adapters.dfy` and
  `Supervisor.dfy` are classes with the fields of the C structs. Each method is proved against a specification.
  `Resources.dfy` is a ledger of handles and blocks; releasing something that is not live does not verify.
  `GrowthRuns.dfy` follows the growth buffers through whole lives.
- `Pipeline.dfy` says what one tick does to the pipeline as a function. `PipelineRuns.dfy`, `Conversations.dfy`
  and `Ledgers.dfy` prove what whole runs of it guarantee, `Segmentation.dfy` says what an utterance is and why
  a stream has only one segmentation, and `Daemon.dfy` carries all of it to the program itself, for whatever
  the kernel and the outside answer.
- `Config.dfy` and `ConfigLoader.dfy` are the configuration parser, in place on its line buffer, and its dump;
  `ConfigMeaning.dfy` says what a file means without the parser.
  `Decimal.dfy` and `ArtifactPath.dfy` are the number formatting both the dump and the WAV paths rest on.

The outside is arbitrary. libfvad may answer anything as a function of every frame it has been given; `realloc`
is answered per frame number; the WAV writer, `unlink`, the STT server and the LLM server are answered per
utterance number, and each is asked at most once per number; the kernel answers every call any way its interface
allows. Counters and ids are natural numbers. The claims about the ring are for at most SIZE_MAX accepted bytes;
`RingBuffers.SnapshotSurvivesWrap` says exactly what goes wrong beyond, which a 32-bit `size_t` reaches after
about 37 hours of audio at 32000 bytes per second.

Where the code and its comments or its README differ, the model follows the code:

- "No zombie processes" (src/assistantd/audio_capture.c:45) holds exactly if no signal interrupts a blocking
  `waitpid`. The handlers are installed without `SA_RESTART` (src/assistantd/shutdown.c:35-38), so one can;
  `AudioCaptures.ChildLeftBehind` is a trace in which one does.
- A valid `RUNTIME_DIR` may have 511 characters, but with more than 476 no utterance can ever be stored.
- The comments of supervisor.c speak of worker threads; the only caller of the ring runs it from one thread.
- "Shutdown cancellation" of an LLM request needs a flag that nothing in the daemon sets.

## Model

| member | source | states |
|---|---|---|
| SpscRing.DeliveredThenWindowIsAccepted | src/assistantd/ring_buffer.c:84-129 | In every interleaving, with copies split byte by byte and stale counter loads, the bytes handed to the consumer followed by the unread window in memory are exactly the bytes accepted, in order, and the window never exceeds the capacity |
| SpscRing.ReaderSeesExactlyTheByte | src/assistantd/ring_buffer.c:116-129 | What the memory model lets the consumer load for a byte of its read is the accepted byte and nothing else; the load is never stuck |
| SpscRing.CopiesNeverTouchTheSameSlot | src/assistantd/ring_buffer.c:90-97 | No slot a write in flight stores to is a slot a read in flight loads from |
| SpscRing.ConflictingCopiesAreOrdered | src/assistantd/ring_buffer.c:84-129 | No data race: every older byte in a slot being written was read before a tail the writer has acquired, and every store to a slot being read came before a head the reader has acquired |
| SpscRing.ClampsNeverFire | src/assistantd/ring_buffer.c:32-42 | For every counter value a write, read, space or available call may load, however stale, neither clamp of the snapshot fires |
| SpscRing.EveryByteIsAccountedFor | src/assistantd/ring_buffer.c:101-105 | Between calls, bytes offered are head plus overflow and bytes requested are tail plus underflow |
| SpscRing.PromisesAreKept | src/assistantd/ring_buffer.c:139-159 | After available() or space() returned n, reads or writes of up to n bytes in all are served whole under any steps of the other thread |
| SpscRing.LoadsAreUsedInFull | src/assistantd/ring_buffer.c:84-88 | For every load: a write takes its whole input or fills the free space it sees, a read takes its whole length or empties what it sees, space() answers the whole free space it sees and available() every unread byte it sees |
| SpscRing.HistoriesAreTrue | src/assistantd/ring_buffer.c:84-136 | Accepted bytes grow only at a publication and by the first bytes of the write() call's own argument; delivered bytes only by the oldest unread ones; the miss counters by exactly what a call fell short |
| SpscRing.CallsNeverBlock | src/assistantd/ring_buffer.c:76-159 | In every reachable state a thread inside a call can take its next step, whatever the other thread does |
| SpscRing.ObserverOverstatesExactly | src/assistantd/ring_buffer.c:139-147 | For a third thread and every pair of loads, however stale, available() exceeds the occupancy at the moment tail was loaded if and only if the tail is further behind than the head and the ring is not full |
| SpscRing.ObserverNeverClampedAbove | src/assistantd/ring_buffer.c:32-42 | For every pair of loads C11 allows after the head was acquired, the upper clamp never fires and the answer is the difference of the loads, or 0 where that is negative |
| SpscRing.StaleTailOverstates | src/assistantd/ring_buffer.c:139-147 | A concrete run in which a third thread is told of a byte in an empty ring, by loads C11 allows |
| SpscRing.RunKeepsInv | src/assistantd/ring_buffer.c:76-159 | Every step of either thread keeps the invariant over counters, in-flight copies and the store log |
| SpscRing.LoadsAreExact | src/assistantd/ring_buffer.c:116-129 | A reader that has synchronised with the store of an unread byte can only load that byte |
| RingBuffers.ChunkSlotIsModular | src/assistantd/ring_buffer.c:91-96 | The two chunks of a wrapping copy put byte i at slot (start + i) mod capacity |
| RingBuffers.ChunksWritten | src/assistantd/ring_buffer.c:90-96 | A two-chunk write leaves every unread byte alone and puts its own where a modular read finds them |
| RingBuffers.ChunksRead | src/assistantd/ring_buffer.c:121-127 | A two-chunk read returns the stream bytes in order |
| RingBuffers.SnapshotSurvivesWrap | src/assistantd/ring_buffer.c:32-42 | With wrapping counters the snapshot is the true occupancy if and only if both counters have wrapped equally often |
| RingBuffers.SnapshotAfterWrapLosesData | src/assistantd/ring_buffer.c:32-35 | The failing input: at the first wrap a ring that holds one byte reports none |
| RingBuffers.RingBuffer.Init | src/assistantd/ring_buffer.c:44-60 | Zero capacity changes nothing; otherwise an empty ring owning one new block, or, if the allocation failed, a lost pointer with capacity and counters as they were; a block held before is never given back |
| RingBuffers.RingBuffer.Free | src/assistantd/ring_buffer.c:62-74 | The block is given back once and the ring is empty |
| RingBuffers.RingBuffer.Write | src/assistantd/ring_buffer.c:76-106 | Takes the longest prefix that fits, appends exactly it, and counts the rest as overflow |
| RingBuffers.RingBuffer.Read | src/assistantd/ring_buffer.c:108-137 | Returns and removes the oldest bytes, as many as asked for and there are, and counts the rest as underflow |
| RingBuffers.RingBuffer.Available | src/assistantd/ring_buffer.c:139-147 | The number of unread bytes |
| RingBuffers.RingBuffer.Space | src/assistantd/ring_buffer.c:149-159 | Capacity minus available |
| BoundedQueues.BoundedQueue.Enqueue | src/assistantd/utilities/artifact_queue.c:13-27 | Appends unless 16 are queued, when it refuses and changes nothing; dead slots stay zero |
| BoundedQueues.BoundedQueue.Dequeue | src/assistantd/utilities/artifact_queue.c:29-41 | Removes the oldest item and zeroes its slot; accepted items are always dequeued items followed by the contents |
| BoundedQueues.BoundedQueue.Size | src/assistantd/utilities/artifact_queue.c:43-49 | The number of queued items |
| VadDetectors.VadDetector.Init | src/assistantd/vad_detector.c:44-77 | Which setup failures give which status; a failed setup leaves no new library instance behind; an instance held before is not given back |
| VadDetectors.VadDetector.ProcessFrame | src/assistantd/vad_detector.c:79-139 | Malformed frames change nothing; a library error changes no detector state; otherwise one step of the state machine |
| VadDetectors.VadDetector.Shutdown | src/assistantd/vad_detector.c:141-153 | Gives the library instance back at most once |
| VadDetectors.VadDetector.Reset | src/assistantd/vad_detector.c:155-172 | Back to idle with a library that has forgotten every frame |
| VadDetectors.StateTracksLastSpeech | src/assistantd/vad_detector.c:113-138 | The detector is active exactly while less than the timeout has passed since the last speech frame, and accumulates exactly that time |
| VadDetectors.EventsFollowLastSpeech | src/assistantd/vad_detector.c:113-138 | Each event in terms of the verdicts alone; END comes exactly with the frame whose silence first reaches the timeout, for any mix of frame durations |
| VadDetectors.EventGrammar | src/assistantd/vad_detector.c:113-138 | Events follow (NONE* START CONTINUE* END)* |
| VadDetectors.EndsAfterCeilSilentFrames | src/assistantd/vad_detector.c:129-136 | At 20 ms per frame an utterance ends after exactly ceil(silence_ms / 20) silent frames in a row |
| Segmentations.SegmentationIsUnique | src/assistantd/vad_detector.c:113-138 | At most one list of ordered disjoint intervals starts each at a speech frame, ends each at the first long-enough silence, and misses no speech frame |
| Segmentations.CutIsSegmentation | src/assistantd/vad_detector.c:113-138 | The detector's own cut of any verdict stream is such a segmentation |
| Segmentations.OnlySegmentation | src/assistantd/supervisor.c:306-323 | So it is the segmentation, and no other list is one |
| Segmentations.CutUsesDetector | src/assistantd/vad_detector.c:113-138 | The cut is driven by the detector state that StateTracksLastSpeech characterises |
| GrowthBuffers.FitIsLeast | src/assistantd/supervisor.c:80-90 | The doubling loop arrives at the least base times a power of two that is large enough |
| GrowthBuffers.FitComposes | src/assistantd/supervisor.c:80-98 | Growing step by step ends at the capacity that the peak need alone decides |
| GrowthBuffers.DoublingPaysForMoves | src/assistantd/supervisor.c:92-97 | One growth keeps the total of bytes ever moved below the capacity |
| GrowthBuffers.Block.AppendUtterance | src/assistantd/supervisor.c:68-103 | Succeeds if and only if there are bytes and they fit the block, or realloc grants the growth and at most 10240 * 2^50 bytes are needed; appends exactly the bytes or changes nothing; capacity stays the least fit of the peak need, the peak is raised to this need, and the bytes moved grow by the old block exactly if it was replaced |
| GrowthBuffers.AppendSucceedsExactly | src/assistantd/supervisor.c:72-96 | The same condition for every capacity doubling can reach, with IoError as the only failure |
| GrowthBuffers.Block.AppendStt | src/assistantd/stt_adapter.c:42-74 | Appends the chunk and a NUL or takes nothing; the same about capacity, peak and bytes moved, from one byte |
| GrowthBuffers.Block.AppendLlm | src/assistantd/llm_adapter.c:192-214 | The same for the buffer that starts without a block |
| GrowthBuffers.DoublingLoopEnds | src/assistantd/stt_adapter.c:57-59 | The unguarded doubling in a 64-bit size_t ends if and only if at most 2^63 bytes are needed, and then without wrapping |
| GrowthRuns.Live | src/assistantd/supervisor.c:59-103 | Any life of any of the three buffers, appends granted or not and resets: it holds exactly the chunks taken since the last reset, its capacity is the least fit of the peak need, and all bytes realloc ever moved are fewer than that capacity |
| GrowthRuns.MovesStayBelowCapacity | src/assistantd/supervisor.c:80-98 | Over every sequence of operations, the total moved stays below the capacity the peak need decides |
| GrowthRuns.PeakNeedIsLargest | src/assistantd/supervisor.c:79-90 | The peak need bounds every need met by a taken append and is one of them |
| Decimals.NumberOfDigits | src/assistantd/config.c:186-187 | Printed decimals denote the number they came from |
| Decimals.DigitsAreFixed | src/assistantd/supervisor.c:175-179 | Zero padding to a width that fits never cuts a digit off |
| ArtifactPaths.PathFitsForAllIdsOrNone | src/assistantd/supervisor.c:175-183 | Path building succeeds if and only if runtime_dir has at most 476 characters, for every 64-bit id alike |
| ArtifactPaths.PathIsInRuntimeDir | src/assistantd/supervisor.c:175-183 | A built path is runtime_dir, a slash and a name without a slash that holds the id in twenty digits and ends in .wav; it is built if and only if that has fewer than 512 characters |
| ArtifactPaths.PathsSortById | src/assistantd/supervisor.c:175-179 | Paths sort in the order of their ids |
| ArtifactPaths.PathsAreInjective | src/assistantd/supervisor.c:175-179 | Two utterances share a path only if they share an id |
| AudioCaptures.AudioCapture.Start | src/assistantd/audio_capture.c:120-190 | Exactly which system calls are made, in which order, for any answers; one child and one descriptor exactly if the status leaves the capture active; each failure path gives both back |
| AudioCaptures.StartSucceedsExactly | src/assistantd/audio_capture.c:120-190 | Start succeeds if and only if there is a device, arecord is executable and pipe, fork on that device and fcntl succeed; UNIMPLEMENTED if and only if arecord cannot be executed |
| AudioCaptures.AudioCapture.Read | src/assistantd/audio_capture.c:197-234 | Exactly which system calls are made, the read being one call for the whole capacity; delivers exactly the bytes read; end of file and dead children deactivate the capture and free what it held; EAGAIN is an error only if the child is gone |
| AudioCaptures.ReadSucceedsExactly | src/assistantd/audio_capture.c:212-233 | Read succeeds if and only if bytes came, or none were there yet and the child still runs |
| AudioCaptures.AudioCapture.ReapChild | src/assistantd/audio_capture.c:100-118 | Without a child nothing happens; otherwise one poll, and a child that is gone takes its descriptor with it |
| AudioCaptures.AudioCapture.WaitForExit | src/assistantd/audio_capture.c:70-98 | Polls until the child is gone, a poll fails or ceil(timeout / 20) polls are made; true exactly in the first case |
| AudioCaptures.AudioCapture.Stop | src/assistantd/audio_capture.c:241-274 | Close, SIGTERM, at most 50 polls, and only if these did not see the child gone, SIGKILL and a blocking wait; no descriptor is left; no child is left if and only if no blocking waitpid was ever interrupted; idempotent |
| AudioCaptures.StopSucceedsExactly | src/assistantd/audio_capture.c:253-273 | Stop succeeds if and only if no signal was refused, and sends SIGKILL if and only if no poll saw the child gone |
| AudioCaptures.ChildLeftBehind | src/assistantd/audio_capture.c:255-269 | A concrete trace: start and stop both succeed, a signal interrupts the blocking wait, and the child remains unreaped |
| Adapters.SttAdapter.Init | src/assistantd/stt_adapter.c:143-169 | A new curl handle is owned exactly on success; past the URL check a handle held before is forgotten and not given back |
| Adapters.SttAdapter.Shutdown | src/assistantd/stt_adapter.c:304-316 | The handle is given back at most once |
| Adapters.LlmAdapter.Init | src/assistantd/llm_adapter.c:297-325 | A new curl handle is owned exactly on success, which needs a readable non-empty prompt; a handle held before is forgotten and not given back |
| Adapters.LlmAdapter.Shutdown | src/assistantd/llm_adapter.c:422-433 | The handle is given back at most once |
| PipelineRuns.TickHandlesOneFrame | src/assistantd/supervisor.c:516-550 | A tick takes at most one frame through VAD, STT, LLM and response, never overflows the ring, and leaves less than a frame buffered, whether it fails or not |
| PipelineRuns.FrameTickKeepsQuiet | src/assistantd/supervisor.c:260-268 | Both queues are empty after every tick, failed or not, and the queue-full branches are never taken |
| PipelineRuns.RunIsFrameByFrame | src/assistantd/supervisor.c:516-540 | However the pipe cuts the stream into chunks of up to 640 bytes, a run is the frame-by-frame run over consecutive 640-byte blocks, with the remainder left in the ring |
| PipelineRuns.FramesCoverStream | src/assistantd/supervisor.c:285-292 | Those blocks and the remainder are the stream, byte for byte and in order |
| PipelineRuns.ChunkingDoesNotMatter | src/assistantd/supervisor.c:516-540 | Two runs over the same bytes end in the same state with the same status |
| Conversations.ErrorFreeFeedSegments | src/assistantd/supervisor.c:285-324 | After any error-free frames: finalized PCM is the segmentation of the verdicts, ids are 0, 1, 2, ..., every closed utterance has been answered in the tick that closed it, the open one is in assembly, and the detector is in the state its verdicts determine |
| Conversations.ErrorFreeRunSegments | src/assistantd/main.c:78-94 | The same for main's runs over pipe chunks, against any list that is a segmentation of the stream |
| Conversations.ResponseIsTheText | src/assistantd/supervisor.c:369-389 | A response carries its utterance's id and the LLM's text up to 8191 characters, or, exactly if the LLM failed, the whole fallback sentence |
| Conversations.TickSucceedsExactly | src/assistantd/supervisor.c:285-390 | A tick succeeds if and only if libfvad has no error, a speech frame fits the block or can be granted within 10240 * 2^50 bytes, and an utterance that ends can be stored and transcribed; the LLM's failure never fails it; a tick that fails fails with IoError |
| Conversations.FailingTickLeaves | src/assistantd/supervisor.c:285-358 | What a failing tick leaves of detector, utterance, ids and outputs, by the stage that failed |
| Conversations.RunFailsWithIoError | src/assistantd/main.c:78-94 | A run of the pipeline fails with IoError and nothing else |
| Conversations.FinalizeSucceedsExactly | src/assistantd/supervisor.c:227-276 | Storing an utterance succeeds if and only if its path fits and the writer succeeds; then its one queued artifact has its id, size and path, its file holds its PCM, and only the STT server can still fail it |
| Conversations.AnyRunAnswersWhatItTranscribed | src/assistantd/main.c:78-94 | Whatever fails and whenever, the responses are those of the utterances closed before the first failing frame, one each in order, and at most one more utterance was finalized, whose transcription failed |
| Ledgers.LedgersAlwaysHold | src/assistantd/supervisor.c:227-390 | Even if run_once is called again after failures: ids only rise, exactly the transcribed utterances are answered, in order, and the files left are exactly those the answers account for, each holding its own PCM |
| Ledgers.FilesLeftAreFailedTranscriptions | src/assistantd/supervisor.c:337-358 | When every unlink succeeds, the WAV files left are exactly those whose transcription failed |
| Ledgers.RunKeepsLedgers | src/assistantd/main.c:78-94 | The whole ledger for main's runs, which end at the first error: rising ids, one answer per transcription, the files left and what each holds |
| Supervisors.Supervisor.FinalizeUtterance | src/assistantd/supervisor.c:227-276 | On the objects, ids, files, queue and utterance buffer change exactly as Pipelines.Finalize says, every failure path included |
| Supervisors.Supervisor.HandleFrame | src/assistantd/supervisor.c:294-323 | One frame changes detector, buffer, queue and files exactly as Pipelines.ProcessFrame says; the buffer's block is in the ledger whether it moved or not |
| Supervisors.Supervisor.DrainCaptureRingIntoVad | src/assistantd/supervisor.c:279-327 | The loop over the ring does exactly what Pipelines.Drain says; the short-read error cannot occur |
| Supervisors.Supervisor.ProcessSttQueue | src/assistantd/supervisor.c:330-390 | Takes exactly one artifact through STT and LLM as Pipelines.Transcribe says; unlinks no file but its own |
| Supervisors.Supervisor.DrainLlmResponseQueue | src/assistantd/supervisor.c:393-410 | Hands out exactly the oldest response, as Pipelines.EmitOne says |
| Supervisors.Supervisor.InitializeModules | src/assistantd/supervisor.c:412-445 | Ok if and only if aggressiveness is 0..3, the silence is positive, the STT URL is not empty and every module step succeeds; the detector is set up with the configured values; everything acquired so far is in the ledger |
| Supervisors.Supervisor.StartSucceedsExactly | src/assistantd/supervisor.c:412-445 | The same condition, and the status of each step that fails first |
| Supervisors.Supervisor.ShutdownModules | src/assistantd/supervisor.c:447-465 | From any state, half-started included, gives back everything once and leaves nothing queued, open or allocated |
| Supervisors.DiscardedExactly | src/assistantd/supervisor.c:106-118 | Discarding a queue removes exactly the files of its artifacts, as far as unlink succeeds, and changes no other |
| Supervisors.Supervisor.Start | src/assistantd/supervisor.c:480-497 | Only from READY, and RUNNING then if and only if the configuration is tuned and every module step succeeds; a failed start gives everything back and can be tried again |
| Supervisors.Supervisor.RunOnce | src/assistantd/supervisor.c:499-560 | Outside RUNNING it does nothing; otherwise it starts arecord exactly if it is not running and asks once for 640 bytes from the recorder it has; a capture failure leaves the pipeline as it was; else one Tick on the bytes read |
| Supervisors.UnimplementedMeansNoRecorder | src/assistantd/main.c:80-84 | A tick's capture half reports UNIMPLEMENTED, which main takes as a clean end, if and only if arecord was not running and cannot be executed |
| Supervisors.Supervisor.Stop | src/assistantd/supervisor.c:562-571 | From any state: STOPPED, nothing allocated or open; a second stop releases nothing |
| Daemon.AnyCalls | src/assistantd/supervisor.c:480-571 | Over any sequence of start, run_once and stop calls: nothing is queued or dropped between calls, nothing is held outside RUNNING, a stop is final, and before and after it utterances, responses and files are those the pipeline makes of the bytes read, errors or not, with all ledgers kept |
| Daemon.TickUntilShutdown | src/assistantd/main.c:78-94 | The loop of main is a pipeline run over the chunks the capture delivered, one chunk a round until a round fails, and reports the run's failure |
| Daemon.RunDaemon | src/assistantd/main.c:66-97 | The whole program: nothing stays allocated or open, children stay only through interrupted waits, ids rise, responses and files are accounted for and each file holds its own PCM, and with no failing stage the stored utterances are the segmentation of the bytes from the pipe, each answered |
| Configs.LoadOfDump | src/assistantd/config.c:81-188 | For every configuration C can represent and any starting one, loading the dump gives the dumped configuration with each string trimmed, if and only if no string has a newline in front of a visible character |
| Configs.LoadOfDumpIsIdempotent | src/assistantd/config.c:81-188 | Dumping and loading such a configuration again changes nothing |
| Configs.ComesBackUnchanged | src/assistantd/config.c:81-188 | A configuration comes back unchanged if and only if it is trimmed and has no such newline |
| Configs.LoadedLine | src/assistantd/config.c:92-138 | The lines of a dumped entry are read whole within the 1024-byte buffer, split at the first '=', and store the trimmed value; trailing blank lines store nothing |
| Configs.AtoiOfIntText | src/assistantd/config.c:129-132 | atoi reads back what %d printed |
| Configs.LoadKeepsWellFormed | src/assistantd/config.c:81-140 | Whatever a file holds, every configuration the loader makes has fields that fit and hold no newline |
| Configs.DefaultsAreWellFormed | src/assistantd/config.c:59-79 | So do the defaults |
| Configs.LastBrokenIsLost | src/assistantd/config.c:92-138 | A field with such a newline loads strictly shorter than its trimmed value, whatever lines its pieces or other fields turn into |
| Configs.LoadOfAppend | src/assistantd/config.c:91-138 | Texts that end in a newline load one after the other as they load as one |
| Configs.LoadedFileComesBack | src/assistantd/config.c:81-188 | Whatever file was read over the defaults, the dump of the result loads back to it, trimmed |
| ConfigMeanings.FileMeans | src/assistantd/config.c:91-138 | For any file and starting configuration, each of the twelve fields is the value of the last line that assigns its key, trimmed and cut to its array or read by atoi, and is left alone if no line does; comments, blank lines, lines without '=' and unknown keys assign nothing |
| ConfigMeanings.FirstPiece | src/assistantd/config.c:93-94 | There is one way to read a file in pieces of at most 1023 chars with no newline but at their end |
| ConfigMeanings.LastOrNone | src/assistantd/config.c:91-138 | Every key has a last assignment or none, so every field is determined |
| ConfigMeanings.AtoiReads | src/assistantd/config.c:129-132 | White space, one sign, then digits up to the first character that is none |
| ConfigMeanings.DumpIsTwelveLines | src/assistantd/config.c:171-188 | A dump reads as exactly twelve lines KEY=value, in this order |
| Configs.TrimWhere | src/assistantd/config.c:35-50 | Trimming leaves the part from the first to the last visible character |
| ConfigLoaders.Trim | src/assistantd/config.c:35-50 | Trimming in place yields the trimmed text and touches nothing outside the string |
| ConfigLoaders.ConfigStore.UseLine | src/assistantd/config.c:94-137 | One line in the buffer, cut up in place, does what ApplyLine says, which FileMeans describes without naming it |
| ConfigLoaders.ConfigStore.LoadFile | src/assistantd/config.c:81-140 | The fgets loop does what LoadText says, which FileMeans describes without naming it; a missing file changes nothing and is an IoError |

## Left out

- Counters beyond SIZE_MAX: only RingBuffers.SnapshotSurvivesWrap speaks of them.
- The response buffers count in natural numbers; `GrowthBuffers.DoublingLoopEnds` says where the C loops part from
  that, but overflow of `size * nmemb` and of `size + bytes + 1` is not modelled.
- Null-argument guards, and config_validate, whose range checks are one branch each.
- The C11 memory model is reduced to modification orders, release publication and acquire loads; relaxed reads of the miss counters for logging are not modelled.
- libfvad, dr_wav, cJSON and libcurl are answers from outside; building requests, parsing replies, timeouts and URLs in the adapters are not modelled.
- A WAV path that another process creates, removes or reads.
- The child's side of fork, which only execs arecord.
- Integer overflow of accumulated_silence_ms: the detector invariant keeps it below the timeout, so only timeouts within 30 of INT_MAX could reach it.
- TTS beyond its initialised flag, playback, logging, status strings, argument parsing and signal handler installation.
- Daemon.RunDaemon: the shutdown flag is seen after a given number of rounds; a run that never stops is covered by its finite parts.
