/** What an utterance is, said about the whole verdict stream at once, and why there is only one
    way to cut a stream into utterances. `quiet` is the number of silent frames in a row that
    ends an utterance. */
module Segmentations {
  import opened Base
  import opened VadDetectors

  /** Frames start..end-1. */
  datatype Interval = Interval(start: nat, end: nat)

  /** The closed utterances in stream order and the start of the one still open, if any. */
  datatype Segmentation = Segmentation(closed: seq<Interval>, open: Option<nat>)

  /** An utterance that started at frame `start` has been silent long enough just before `end`. */
  ghost predicate Closes(verdicts: seq<bool>, quiet: nat, start: nat, end: nat) {
    start + quiet < end <= |verdicts| && forall k :: end - quiet <= k < end ==> !verdicts[k]
  }

  /** A speech frame up to its first long-enough silence. */
  ghost predicate IsUtterance(verdicts: seq<bool>, quiet: nat, u: Interval) {
    && u.start < |verdicts| && verdicts[u.start]
    && Closes(verdicts, quiet, u.start, u.end)
    && forall end: nat :: end < u.end ==> !Closes(verdicts, quiet, u.start, end)
  }

  ghost predicate IsOpen(verdicts: seq<bool>, quiet: nat, start: nat) {
    && start < |verdicts| && verdicts[start]
    && forall end: nat :: !Closes(verdicts, quiet, start, end)
  }

  ghost predicate Covers(s: Segmentation, k: nat) {
    || (exists i :: 0 <= i < |s.closed| && s.closed[i].start <= k < s.closed[i].end)
    || (s.open.Some? && s.open.value <= k)
  }

  /** Ordered disjoint utterances, perhaps an open one after them, that miss no speech frame. */
  ghost predicate IsSegmentation(verdicts: seq<bool>, quiet: nat, s: Segmentation) {
    && (forall i :: 0 <= i < |s.closed| ==> IsUtterance(verdicts, quiet, s.closed[i]))
    && (forall i, j :: 0 <= i < j < |s.closed| ==> s.closed[i].end <= s.closed[j].start)
    && (s.open.Some? ==> IsOpen(verdicts, quiet, s.open.value))
    && (s.open.Some? ==> forall i :: 0 <= i < |s.closed| ==> s.closed[i].end <= s.open.value)
    && (forall k :: 0 <= k < |verdicts| && verdicts[k] ==> Covers(s, k))
  }

  // ---------- There is at most one ----------

  /** Both segmentations agree up to utterance i, so a speech frame that starts utterance i of one
      is not missed by the other: it lies in utterance i or later, or in the open utterance. */
  ghost predicate StartsAt(s: Segmentation, i: nat, k: nat) {
    (i < |s.closed| && s.closed[i].start <= k) || (i >= |s.closed| && s.open.Some? && s.open.value <= k)
  }

  lemma EndsWithin(verdicts: seq<bool>, quiet: nat, u: Interval)
    requires IsUtterance(verdicts, quiet, u)
    ensures u.start < u.end <= |verdicts|
  {
  }

  lemma NextStart(verdicts: seq<bool>, quiet: nat, s: Segmentation, i: nat, k: nat)
    requires IsSegmentation(verdicts, quiet, s) && i <= |s.closed|
    requires k < |verdicts| && verdicts[k] && (i > 0 ==> s.closed[i - 1].end <= k)
    ensures StartsAt(s, i, k)
  {
    hide IsUtterance, IsOpen, Closes;
    assert Covers(s, k);
    if 0 < i { EndsWithin(verdicts, quiet, s.closed[i - 1]); }
    if i < |s.closed| { EndsWithin(verdicts, quiet, s.closed[i]); }
  }

  /** What a segmentation says about its utterance i, in isolation. */
  lemma UtteranceAt(verdicts: seq<bool>, quiet: nat, s: Segmentation, i: nat)
    requires IsSegmentation(verdicts, quiet, s) && i < |s.closed|
    ensures var u := s.closed[i];
            && u.start < |verdicts| && verdicts[u.start] && Closes(verdicts, quiet, u.start, u.end)
            && (forall end: nat :: end < u.end ==> !Closes(verdicts, quiet, u.start, end))
            && (i > 0 ==> s.closed[i - 1].end <= u.start)
  {
    assert IsUtterance(verdicts, quiet, s.closed[i]);
  }

  lemma OpenAt(verdicts: seq<bool>, quiet: nat, s: Segmentation)
    requires IsSegmentation(verdicts, quiet, s) && s.open.Some?
    ensures var start, n := s.open.value, |s.closed|;
            && start < |verdicts| && verdicts[start]
            && (forall end: nat :: !Closes(verdicts, quiet, start, end))
            && (n > 0 ==> s.closed[n - 1].end <= start)
  {
  }

  lemma SameInterval(verdicts: seq<bool>, quiet: nat, s: Segmentation, t: Segmentation, i: nat)
    requires IsSegmentation(verdicts, quiet, s) && IsSegmentation(verdicts, quiet, t)
    requires i < |s.closed| && i <= |t.closed| && (i > 0 ==> s.closed[i - 1] == t.closed[i - 1])
    ensures i < |t.closed| && s.closed[i] == t.closed[i]
  {
    hide IsSegmentation, Closes;
    var u := s.closed[i];
    UtteranceAt(verdicts, quiet, s, i);
    NextStart(verdicts, quiet, t, i, u.start);
    if i >= |t.closed| {
      OpenAt(verdicts, quiet, t);
      NextStart(verdicts, quiet, s, i, t.open.value);
      assert false;
    } else {
      UtteranceAt(verdicts, quiet, t, i);
      NextStart(verdicts, quiet, s, i, t.closed[i].start);
    }
  }

  lemma {:induction false} SamePrefix(verdicts: seq<bool>, quiet: nat, s: Segmentation, t: Segmentation, i: nat)
    requires IsSegmentation(verdicts, quiet, s) && IsSegmentation(verdicts, quiet, t)
    requires i <= |s.closed|
    ensures i <= |t.closed| && s.closed[..i] == t.closed[..i]
  {
    hide IsSegmentation;
    if i > 0 {
      SamePrefix(verdicts, quiet, s, t, i - 1);
      assert i - 1 > 0 ==> s.closed[..i - 1][i - 2] == t.closed[..i - 1][i - 2];
      SameInterval(verdicts, quiet, s, t, i - 1);
    }
  }

  /** A verdict stream has at most one segmentation. */
  lemma SegmentationIsUnique(verdicts: seq<bool>, quiet: nat, s: Segmentation, t: Segmentation)
    requires IsSegmentation(verdicts, quiet, s) && IsSegmentation(verdicts, quiet, t)
    ensures s == t
  {
    hide IsSegmentation;
    var n := |s.closed|;
    SamePrefix(verdicts, quiet, s, t, n);
    SamePrefix(verdicts, quiet, t, s, |t.closed|);
    assert s.closed == t.closed;
    if s.open.Some? {
      OpenAt(verdicts, quiet, s);
      NextStart(verdicts, quiet, t, n, s.open.value);
    }
    if t.open.Some? {
      OpenAt(verdicts, quiet, t);
      NextStart(verdicts, quiet, s, n, t.open.value);
    }
  }

  // ---------- The detector at 20 ms per frame finds it ----------

  const CADENCE_MS: nat := 20

  /** The detector state and the segmentation after a stream of 20 ms frames. */
  function Cut(verdicts: seq<bool>, timeoutMs: nat): (VadState, Segmentation) {
    if verdicts == [] then (VadState(false, 0), Segmentation([], None))
    else
      var n := |verdicts| - 1;
      var (v, s) := Cut(verdicts[..n], timeoutMs);
      var (v', event) := VadStep(v, timeoutMs, verdicts[n], CADENCE_MS);
      (v', Recut(s, event, n))
  }

  /** What one event at frame n does to the segmentation. */
  function Recut(s: Segmentation, event: Event, n: nat): Segmentation {
    match event
    case SpeechStart => s.(open := Some(n))
    case SpeechEnd => if s.open.Some? then Segmentation(s.closed + [Interval(s.open.value, n + 1)], None) else s
    case _ => s
  }

  lemma ClosesExtends(verdicts: seq<bool>, b: bool, quiet: nat, start: nat, end: nat)
    requires end <= |verdicts|
    ensures Closes(verdicts + [b], quiet, start, end) <==> Closes(verdicts, quiet, start, end)
  {
    if Closes(verdicts + [b], quiet, start, end) {
      forall k | end - quiet <= k < end
        ensures !verdicts[k]
      {
        assert !(verdicts + [b])[k];
      }
    }
  }

  lemma UtteranceExtends(verdicts: seq<bool>, b: bool, quiet: nat, u: Interval)
    requires IsUtterance(verdicts, quiet, u)
    ensures IsUtterance(verdicts + [b], quiet, u)
  {
    ClosesExtends(verdicts, b, quiet, u.start, u.end);
    forall end: nat | end < u.end
      ensures !Closes(verdicts + [b], quiet, u.start, end)
    {
      ClosesExtends(verdicts, b, quiet, u.start, end);
    }
  }

  /** An open utterance stays open unless the new frame completes its silence. */
  lemma OpenExtends(verdicts: seq<bool>, b: bool, quiet: nat, start: nat)
    requires IsOpen(verdicts, quiet, start)
    ensures if Closes(verdicts + [b], quiet, start, |verdicts| + 1)
            then IsUtterance(verdicts + [b], quiet, Interval(start, |verdicts| + 1))
            else IsOpen(verdicts + [b], quiet, start)
  {
    forall end: nat | end <= |verdicts|
      ensures !Closes(verdicts + [b], quiet, start, end)
    {
      ClosesExtends(verdicts, b, quiet, start, end);
    }
  }

  /** The last speech frame is followed by exactly `silent` silent frames. */
  ghost predicate Trailing(verdicts: seq<bool>, start: nat, silent: nat) {
    && start + silent < |verdicts|
    && verdicts[|verdicts| - 1 - silent]
    && forall k :: |verdicts| - silent <= k < |verdicts| ==> !verdicts[k]
  }

  ghost predicate CutInv(verdicts: seq<bool>, timeoutMs: nat, v: VadState, s: Segmentation) {
    && IsSegmentation(verdicts, CeilDiv(timeoutMs, CADENCE_MS), s)
    && (v.speechActive <==> s.open.Some?)
    && (v.speechActive ==> v.silenceMs % CADENCE_MS == 0 && v.silenceMs < timeoutMs
                           && Trailing(verdicts, s.open.value, v.silenceMs / CADENCE_MS))
  }

  /** Frame n is covered whenever it is speech, and older frames stay covered. */
  lemma SegmentationExtends(verdicts: seq<bool>, b: bool, quiet: nat, s: Segmentation, t: Segmentation)
    requires IsSegmentation(verdicts, quiet, s)
    requires t.closed == s.closed ||
             (s.open.Some? && t == Segmentation(s.closed + [Interval(s.open.value, |verdicts| + 1)], None)
              && IsUtterance(verdicts + [b], quiet, Interval(s.open.value, |verdicts| + 1)))
    requires t.closed == s.closed && s.open.Some? ==> t.open == s.open
    requires t.closed == s.closed && s.open.None? ==> t.open in {None, Some(|verdicts|)}
    requires t.open.Some? ==> IsOpen(verdicts + [b], quiet, t.open.value)
    requires b ==> t.open.Some?
    ensures IsSegmentation(verdicts + [b], quiet, t)
  {
    hide IsUtterance, IsOpen, Closes;
    var longer := verdicts + [b];
    forall i | 0 <= i < |t.closed|
      ensures IsUtterance(longer, quiet, t.closed[i]) && (i < |s.closed| ==> s.closed[i].end <= |verdicts|)
    {
      if i < |s.closed| {
        UtteranceExtends(verdicts, b, quiet, s.closed[i]);
        EndsWithin(verdicts, quiet, s.closed[i]);
      }
    }
    if s.open.Some? {
      OpenStart(verdicts, quiet, s);
    }
    forall k | 0 <= k < |longer| && longer[k]
      ensures Covers(t, k)
    {
      if k < |verdicts| {
        CoverageExtends(s, t, k, |verdicts|);
      }
    }
  }

  lemma CoverageExtends(s: Segmentation, t: Segmentation, k: nat, n: nat)
    requires Covers(s, k) && k < n
    requires s.closed <= t.closed
    requires s.open.Some? ==> t.open == s.open || t.closed == s.closed + [Interval(s.open.value, n + 1)]
    ensures Covers(t, k)
  {
    if i :| 0 <= i < |s.closed| && s.closed[i].start <= k < s.closed[i].end {
      assert t.closed[i] == s.closed[i];
    } else if t.open != s.open {
      assert t.closed[|s.closed|] == Interval(s.open.value, n + 1);
    }
  }

  lemma QuietFrames(timeoutMs: nat, silenceMs: nat)
    requires 0 < timeoutMs && silenceMs < timeoutMs && silenceMs % CADENCE_MS == 0
    ensures 0 < CeilDiv(timeoutMs, CADENCE_MS)
    ensures (silenceMs + CADENCE_MS) % CADENCE_MS == 0
    ensures (silenceMs + CADENCE_MS) / CADENCE_MS == silenceMs / CADENCE_MS + 1
    ensures silenceMs / CADENCE_MS < CeilDiv(timeoutMs, CADENCE_MS)
    ensures silenceMs + CADENCE_MS >= timeoutMs <==> silenceMs / CADENCE_MS + 1 == CeilDiv(timeoutMs, CADENCE_MS)
  {
  }

  lemma SpeechFrame(verdicts: seq<bool>, quiet: nat, start: nat)
    requires 0 < quiet && start <= |verdicts|
    ensures !Closes(verdicts + [true], quiet, start, |verdicts| + 1)
    ensures Trailing(verdicts + [true], start, 0)
  {
    assert (verdicts + [true])[|verdicts|];
  }

  lemma SilentFrame(verdicts: seq<bool>, quiet: nat, start: nat, silent: nat)
    requires Trailing(verdicts, start, silent) && silent < quiet
    ensures Closes(verdicts + [false], quiet, start, |verdicts| + 1) <==> silent + 1 == quiet
    ensures Trailing(verdicts + [false], start, silent + 1)
  {
    var longer := verdicts + [false];
    assert longer[|verdicts| - 1 - silent];
  }

  lemma CutStep(verdicts: seq<bool>, b: bool, timeoutMs: nat, v: VadState, s: Segmentation)
    requires 0 < timeoutMs && CutInv(verdicts, timeoutMs, v, s)
    ensures var (v', event) := VadStep(v, timeoutMs, b, CADENCE_MS);
            CutInv(verdicts + [b], timeoutMs, v', Recut(s, event, |verdicts|))
  {
    hide IsSegmentation, Closes, Trailing, IsOpen, IsUtterance;
    var quiet, n := CeilDiv(timeoutMs, CADENCE_MS), |verdicts|;
    var (v', event) := VadStep(v, timeoutMs, b, CADENCE_MS);
    QuietFrames(timeoutMs, 0);
    if !v.speechActive {
      if b {
        SpeechFrame(verdicts, quiet, n);
        FreshStartIsOpen(verdicts, quiet);
      }
    } else {
      OpenStart(verdicts, quiet, s);
      OpenExtends(verdicts, b, quiet, s.open.value);
      if b {
        SpeechFrame(verdicts, quiet, s.open.value);
      } else {
        QuietFrames(timeoutMs, v.silenceMs);
        SilentFrame(verdicts, quiet, s.open.value, v.silenceMs / CADENCE_MS);
      }
    }
    SegmentationExtends(verdicts, b, quiet, s, Recut(s, event, n));
  }

  lemma FreshStartIsOpen(verdicts: seq<bool>, quiet: nat)
    requires 0 < quiet
    ensures IsOpen(verdicts + [true], quiet, |verdicts|)
  {
  }

  lemma OpenStart(verdicts: seq<bool>, quiet: nat, s: Segmentation)
    requires IsSegmentation(verdicts, quiet, s) && s.open.Some?
    ensures IsOpen(verdicts, quiet, s.open.value) && s.open.value < |verdicts|
  {
  }

  /** The detector's cut of any verdict stream is the segmentation of that stream. */
  lemma {:induction false} CutIsSegmentation(verdicts: seq<bool>, timeoutMs: nat)
    requires 0 < timeoutMs
    ensures CutInv(verdicts, timeoutMs, Cut(verdicts, timeoutMs).0, Cut(verdicts, timeoutMs).1)
  {
    if verdicts != [] {
      var n := |verdicts| - 1;
      CutIsSegmentation(verdicts[..n], timeoutMs);
      var (v, s) := Cut(verdicts[..n], timeoutMs);
      CutStep(verdicts[..n], verdicts[n], timeoutMs, v, s);
      assert verdicts[..n] + [verdicts[n]] == verdicts;
    }
  }

  /** The segmentation of a stream exists, is unique, and is what the detector computes. */
  lemma OnlySegmentation(verdicts: seq<bool>, timeoutMs: nat, s: Segmentation)
    requires 0 < timeoutMs
    ensures IsSegmentation(verdicts, CeilDiv(timeoutMs, CADENCE_MS), s) <==> s == Cut(verdicts, timeoutMs).1
  {
    hide IsSegmentation;
    var quiet := CeilDiv(timeoutMs, CADENCE_MS);
    CutIsSegmentation(verdicts, timeoutMs);
    if IsSegmentation(verdicts, quiet, s) {
      SegmentationIsUnique(verdicts, quiet, s, Cut(verdicts, timeoutMs).1);
    }
  }

  ghost function AtCadence(verdicts: seq<bool>): seq<Heard> {
    seq(|verdicts|, i requires 0 <= i < |verdicts| => Heard(verdicts[i], CADENCE_MS))
  }

  lemma {:induction false} StateOfPrefix(heard: seq<Heard>, longer: seq<Heard>, timeoutMs: nat, n: nat)
    requires n <= |heard| && heard <= longer
    ensures StateAfter(longer, timeoutMs, n) == StateAfter(heard, timeoutMs, n)
  {
    if n > 0 {
      StateOfPrefix(heard, longer, timeoutMs, n - 1);
    }
  }

  /** The cut is driven by the very detector state whose meaning VadDetectors proves. */
  lemma {:induction false} CutUsesDetector(verdicts: seq<bool>, timeoutMs: nat)
    ensures Cut(verdicts, timeoutMs).0 == StateAfter(AtCadence(verdicts), timeoutMs, |verdicts|)
  {
    if verdicts != [] {
      var n := |verdicts| - 1;
      CutUsesDetector(verdicts[..n], timeoutMs);
      assert AtCadence(verdicts[..n]) <= AtCadence(verdicts);
      StateOfPrefix(AtCadence(verdicts[..n]), AtCadence(verdicts), timeoutMs, n);
    }
  }
}
