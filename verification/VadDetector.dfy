/** The frame-level speech state machine of vad_detector.c over an arbitrary libfvad. */
module VadDetectors {
  import opened Base
  import opened Resources

  const SAMPLES_PER_MS: nat := 16

  /** PCM samples as bytes, two per sample. */
  type Frame = seq<byte>

  datatype Event = NoEvent | SpeechStart | SpeechContinue | SpeechEnd

  datatype VadState = VadState(speechActive: bool, silenceMs: nat)

  predicate ValidDuration(ms: int) {
    ms == 10 || ms == 20 || ms == 30
  }

  /** One frame through the state machine. */
  function VadStep(v: VadState, timeoutMs: nat, speech: bool, ms: nat): (VadState, Event) {
    if !v.speechActive then
      if speech then (VadState(true, 0), SpeechStart) else (v, NoEvent)
    else if speech then (VadState(true, 0), SpeechContinue)
    else if v.silenceMs + ms >= timeoutMs then (VadState(false, 0), SpeechEnd)
    else (VadState(true, v.silenceMs + ms), SpeechContinue)
  }

  /** A libfvad instance. What it answers may depend on every frame it has been given. */
  class Fvad {
    const verdicts: seq<Frame> -> int
    var history: seq<Frame>

    constructor (verdicts: seq<Frame> -> int)
      ensures this.verdicts == verdicts && history == []
    {
      this.verdicts := verdicts;
      history := [];
    }

    method Process(pcm: Frame) returns (result: int)
      modifies this
      ensures history == old(history) + [pcm] && result == verdicts(history)
    {
      history := history + [pcm];
      result := verdicts(history);
    }

    method Reset()
      modifies this
      ensures history == []
    {
      history := [];
    }
  }

  /** How setting up the library can turn out. */
  datatype Setup = NoMemory | BadMode | BadRate | SetUp

  class VadDetector {
    var aggressiveness: int
    var timeoutMs: int
    var accumulatedMs: int
    var speechActive: bool
    var backend: Fvad?

    ghost predicate Valid()
      reads this
    {
      && 0 <= accumulatedMs
      && (!speechActive ==> accumulatedMs == 0)
      && (speechActive ==> accumulatedMs < timeoutMs)
      && (backend != null ==> 0 < timeoutMs)
    }

    function State(): VadState
      requires Valid()
      reads this
    {
      VadState(speechActive, accumulatedMs)
    }

    constructor ()
      ensures Valid() && backend == null && State() == VadState(false, 0)
    {
      aggressiveness, timeoutMs, accumulatedMs, speechActive, backend := 0, 0, 0, false, null;
    }

    /** A library instance the detector already held is neither used again nor given back. */
    method Init(heap: Heap, aggressiveness: int, timeoutMs: int, verdicts: seq<Frame> -> int, setup: Setup)
      returns (status: Status)
      requires Valid() && heap.Valid()
      modifies this, heap
      ensures Valid() && heap.Valid() && State() == if aggressiveness in {0, 1, 2, 3} && timeoutMs > 0
                                                    then VadState(false, 0) else old(State())
      ensures status == if aggressiveness !in {0, 1, 2, 3} || timeoutMs <= 0 then ConfigError
                        else if setup.NoMemory? then IoError
                        else if setup.SetUp? then Ok else ConfigError
      ensures status == Ok ==> && backend != null && fresh(backend) && backend.verdicts == verdicts
                               && backend.history == [] && this.timeoutMs == timeoutMs
                               && this.aggressiveness == aggressiveness
                               && heap.live == old(heap.live) + {backend}
      ensures status != Ok ==> backend == old(backend) && heap.live == old(heap.live)
    {
      if aggressiveness < 0 || aggressiveness > 3 {
        return ConfigError;
      }
      if timeoutMs <= 0 {
        return ConfigError;
      }
      this.aggressiveness, this.timeoutMs, accumulatedMs, speechActive := aggressiveness, timeoutMs, 0, false;
      if setup.NoMemory? {
        return IoError;
      }
      var vad := new Fvad(verdicts);
      heap.Acquire(vad);
      if !setup.SetUp? {
        heap.Release(vad);
        return ConfigError;
      }
      backend := vad;
      return Ok;
    }

    method ProcessFrame(pcm: Frame, sampleCount: nat, ms: int, before: Event) returns (status: Status, event: Event)
      requires Valid() && |pcm| == 2 * sampleCount
      modifies this, backend
      ensures Valid() && backend == old(backend) && timeoutMs == old(timeoutMs)
      ensures status == InvalidArgument <==>
                sampleCount == 0 || !ValidDuration(ms) || sampleCount != SAMPLES_PER_MS * ms || backend == null
      ensures status == InvalidArgument ==>
                event == before && unchanged(this) && (backend != null ==> unchanged(backend))
      ensures status != InvalidArgument ==>
                && backend.history == old(backend.history) + [pcm]
                && var verdict := backend.verdicts(backend.history);
                   if verdict < 0 then status == IoError && event == before && unchanged(this)
                   else status == Ok && (State(), event) == VadStep(old(State()), timeoutMs, verdict == 1, ms)
    {
      if sampleCount == 0 || !ValidDuration(ms) || sampleCount != SAMPLES_PER_MS * ms || backend == null {
        return InvalidArgument, before;
      }
      var result := backend.Process(pcm);
      if result < 0 {
        return IoError, before;
      }
      event := NoEvent;
      if !speechActive {
        if result == 1 {
          speechActive, accumulatedMs := true, 0;
          event := SpeechStart;
        }
        return Ok, event;
      }
      if result == 1 {
        accumulatedMs := 0;
        return Ok, SpeechContinue;
      }
      accumulatedMs := accumulatedMs + ms;
      if accumulatedMs >= timeoutMs {
        speechActive, accumulatedMs := false, 0;
        event := SpeechEnd;
      } else {
        event := SpeechContinue;
      }
      return Ok, event;
    }

    method Shutdown(heap: Heap)
      requires Valid() && heap.Valid() && (backend != null ==> backend in heap.live)
      modifies this, heap
      ensures Valid() && heap.Valid() && backend == null && State() == VadState(false, 0)
      ensures var given := if old(backend) != null then {old(backend)} else {};
              heap.live == old(heap.live) - given && heap.released == old(heap.released) + given
    {
      if backend != null {
        heap.Release(backend);
        backend := null;
      }
      accumulatedMs, speechActive := 0, false;
    }

    method Reset()
      requires Valid()
      modifies this, backend
      ensures Valid() && backend == old(backend) && State() == VadState(false, 0)
      ensures backend != null ==> backend.history == []
    {
      if backend != null {
        backend.Reset();
      }
      accumulatedMs, speechActive := 0, false;
    }
  }

  // ---------- What a whole stream of frames does ----------

  /** What libfvad said about a frame, and how long the frame is. */
  datatype Heard = Heard(speech: bool, ms: nat)

  function StateAfter(heard: seq<Heard>, timeoutMs: nat, n: nat): VadState
    requires n <= |heard|
  {
    if n == 0 then VadState(false, 0)
    else VadStep(StateAfter(heard, timeoutMs, n - 1), timeoutMs, heard[n - 1].speech, heard[n - 1].ms).0
  }

  function EventAt(heard: seq<Heard>, timeoutMs: nat, n: nat): Event
    requires n < |heard|
  {
    VadStep(StateAfter(heard, timeoutMs, n), timeoutMs, heard[n].speech, heard[n].ms).1
  }

  /** Frame m is the last speech frame before frame n. */
  ghost predicate LastSpeech(heard: seq<Heard>, m: nat, n: nat) {
    m < n <= |heard| && heard[m].speech && forall k :: m < k < n ==> !heard[k].speech
  }

  ghost function Duration(heard: seq<Heard>, start: nat, end: nat): nat
    requires start <= end <= |heard|
  {
    if start == end then 0 else Duration(heard, start, end - 1) + heard[end - 1].ms
  }

  /** Speech has been heard, and less than the timeout has passed since. */
  ghost predicate Speaking(heard: seq<Heard>, timeoutMs: nat, n: nat) {
    exists m: nat :: LastSpeech(heard, m, n) && Duration(heard, m + 1, n) < timeoutMs
  }

  /** How the last speech frame changes with one more frame. */
  lemma NextLastSpeech(heard: seq<Heard>, m: nat, n: nat)
    requires n < |heard|
    ensures LastSpeech(heard, m, n + 1) <==> if heard[n].speech then m == n else LastSpeech(heard, m, n)
    ensures LastSpeech(heard, m, n) ==> forall k: nat :: LastSpeech(heard, k, n) ==> k == m
  {
  }

  /** The detector is active exactly while Speaking, and what it accumulates is the total duration
      since the last speech frame. */
  lemma {:induction false} StateTracksLastSpeech(heard: seq<Heard>, timeoutMs: nat, n: nat)
    requires 0 < timeoutMs && n <= |heard|
    ensures var v := StateAfter(heard, timeoutMs, n);
            && (v.speechActive <==> Speaking(heard, timeoutMs, n))
            && (v.speechActive ==>
                  forall m: nat :: LastSpeech(heard, m, n) ==> v.silenceMs == Duration(heard, m + 1, n))
            && (!v.speechActive ==> v.silenceMs == 0)
  {
    if n > 0 {
      var before: nat := n - 1;
      StateTracksLastSpeech(heard, timeoutMs, before);
      forall m: nat
        ensures LastSpeech(heard, m, n) <==> if heard[before].speech then m == before else LastSpeech(heard, m, before)
      {
        NextLastSpeech(heard, m, before);
      }
      if heard[before].speech {
        assert LastSpeech(heard, before, n);
      } else if m: nat :| LastSpeech(heard, m, before) {
        NextLastSpeech(heard, m, before);
        assert LastSpeech(heard, m, n);
        assert Speaking(heard, timeoutMs, before) <==> Duration(heard, m + 1, before) < timeoutMs;
        assert Speaking(heard, timeoutMs, n) <==> Duration(heard, m + 1, n) < timeoutMs;
      }
    }
  }

  /** Silence after the last speech frame first reaches the timeout with frame n. */
  ghost predicate TimesOutAt(heard: seq<Heard>, timeoutMs: nat, n: nat)
    requires n < |heard|
  {
    !heard[n].speech && exists m: nat :: LastSpeech(heard, m, n) && TimeoutSpan(heard, timeoutMs, m, n)
  }

  ghost predicate TimeoutSpan(heard: seq<Heard>, timeoutMs: nat, m: nat, n: nat)
    requires m < n < |heard|
  {
    Duration(heard, m + 1, n) < timeoutMs <= Duration(heard, m + 1, n + 1)
  }

  /** Each event, in terms of the verdicts alone. Speech ends at the very frame with which the
      silence after the last speech frame first reaches the timeout. */
  lemma EventsFollowLastSpeech(heard: seq<Heard>, timeoutMs: nat, n: nat)
    requires 0 < timeoutMs && n < |heard|
    ensures var event := EventAt(heard, timeoutMs, n);
            && (event == NoEvent <==> !heard[n].speech && !Speaking(heard, timeoutMs, n))
            && (event == SpeechStart <==> heard[n].speech && !Speaking(heard, timeoutMs, n))
            && (event == SpeechEnd <==> TimesOutAt(heard, timeoutMs, n))
  {
    StateTracksLastSpeech(heard, timeoutMs, n);
    if m: nat :| LastSpeech(heard, m, n) {
      NextLastSpeech(heard, m, n);
      assert TimesOutAt(heard, timeoutMs, n) <==> !heard[n].speech && TimeoutSpan(heard, timeoutMs, m, n);
      assert Speaking(heard, timeoutMs, n) <==> Duration(heard, m + 1, n) < timeoutMs;
    }
  }

  /** The event stream is a prefix of (NONE* START CONTINUE* END)*. */
  lemma EventGrammar(heard: seq<Heard>, timeoutMs: nat, n: nat)
    requires 0 < timeoutMs && n < |heard|
    ensures var event := EventAt(heard, timeoutMs, n);
            && (event in {NoEvent, SpeechStart} <==> n == 0 || EventAt(heard, timeoutMs, n - 1) in {NoEvent, SpeechEnd})
            && (event in {SpeechContinue, SpeechEnd} <==>
                  n > 0 && EventAt(heard, timeoutMs, n - 1) in {SpeechStart, SpeechContinue})
  {
  }

  function CeilDiv(n: nat, d: nat): nat
    requires 0 < d
  {
    (n + d - 1) / d
  }

  lemma {:induction false} DurationAtCadence(heard: seq<Heard>, ms: nat, start: nat, end: nat)
    requires start <= end <= |heard| && forall k :: start <= k < end ==> heard[k].ms == ms
    ensures Duration(heard, start, end) == ms * (end - start)
  {
    if start < end {
      DurationAtCadence(heard, ms, start, end - 1);
    }
  }

  /** At the supervisor's cadence of 20 ms an utterance ends after exactly ceil(timeout / 20)
      silent frames in a row. */
  lemma EndsAfterCeilSilentFrames(heard: seq<Heard>, timeoutMs: nat, n: nat)
    requires 0 < timeoutMs && n < |heard| && forall k :: 0 <= k < |heard| ==> heard[k].ms == 20
    ensures var frames := CeilDiv(timeoutMs, 20);
            EventAt(heard, timeoutMs, n) == SpeechEnd <==> frames <= n && LastSpeech(heard, n - frames, n + 1)
  {
    EventsFollowLastSpeech(heard, timeoutMs, n);
    var frames := CeilDiv(timeoutMs, 20);
    if frames <= n {
      NextLastSpeech(heard, n - frames, n);
    }
    if m: nat :| LastSpeech(heard, m, n) {
      NextLastSpeech(heard, m, n);
      DurationAtCadence(heard, 20, m + 1, n);
      DurationAtCadence(heard, 20, m + 1, n + 1);
      assert TimeoutSpan(heard, timeoutMs, m, n) <==> n - m == frames;
      assert TimesOutAt(heard, timeoutMs, n) <==> !heard[n].speech && TimeoutSpan(heard, timeoutMs, m, n);
    }
  }
}
