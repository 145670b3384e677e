/** WAV paths of finalized utterances (build_artifact_path in supervisor.c). */
module ArtifactPaths {
  import opened Base
  import opened Decimals

  const WAV_PATH_MAX: nat := 512
  const SEQUENCE_DIGITS: nat := 20

  /** Sequence ids are uint64_t. */
  const SEQUENCE_LIMIT: nat := 0x1_0000_0000_0000_0000

  function PathText(runtimeDir: string, id: nat): string {
    runtimeDir + "/utterance-" + ZeroPadded(id, SEQUENCE_DIGITS) + ".wav"
  }

  /** snprintf into 512 bytes: None when the text and its NUL do not fit. */
  function BuildPath(runtimeDir: string, id: nat): Option<string> {
    var text := PathText(runtimeDir, id);
    if |text| >= WAV_PATH_MAX then None else Some(text)
  }

  lemma IdsFitTheirField(id: nat)
    requires id < SEQUENCE_LIMIT
    ensures ZeroPadded(id, SEQUENCE_DIGITS) == Fixed(id, SEQUENCE_DIGITS)
    ensures id < Pow10(SEQUENCE_DIGITS)
  {
    assert Pow10(20) == 100000 * (100000 * (100000 * (100000 * Pow10(0)))) by {
      assert Pow10(5) == 100000 * Pow10(0);
      assert Pow10(10) == 100000 * Pow10(5);
      assert Pow10(15) == 100000 * Pow10(10);
      assert Pow10(20) == 100000 * Pow10(15);
    }
    DigitsAreFixed(id, SEQUENCE_DIGITS);
  }

  /** Whether a path fits depends on the directory alone: either every utterance of a run can be
      stored or none can. */
  lemma PathFitsForAllIdsOrNone(runtimeDir: string, id: nat)
    requires id < SEQUENCE_LIMIT
    ensures BuildPath(runtimeDir, id).Some? <==> |runtimeDir| <= 476
    ensures BuildPath(runtimeDir, id).Some? ==> BuildPath(runtimeDir, id).value != []
  {
    IdsFitTheirField(id);
  }

  /** The digits of a fixed-width number denote it. */
  lemma {:induction false} NumberOfFixed(n: nat, width: nat)
    requires n < Pow10(width)
    ensures Number(Fixed(n, width)) == n
  {
    if width > 0 {
      NumberOfFixed(n / 10, width - 1);
      var text := Fixed(n, width);
      assert text[..|text| - 1] == Fixed(n / 10, width - 1);
    }
  }

  /** A path that was built names a file of its own directly in the runtime directory: the directory
      as configured, a slash, and a name without a slash that holds the id in twenty digits. */
  lemma PathIsInRuntimeDir(runtimeDir: string, id: nat) returns (digits: string, name: string)
    requires id < SEQUENCE_LIMIT
    ensures |digits| == 20 && (forall i :: 0 <= i < |digits| ==> IsDigit(digits[i])) && Number(digits) == id
    ensures name == "utterance-" + digits + ".wav" && '/' !in name
    ensures BuildPath(runtimeDir, id).Some? ==> BuildPath(runtimeDir, id).value == runtimeDir + "/" + name
    ensures BuildPath(runtimeDir, id).Some? <==> |runtimeDir + "/" + name| < 512
  {
    hide Fixed, Pow10, ZeroPadded, Number;
    IdsFitTheirField(id);
    digits := Fixed(id, SEQUENCE_DIGITS);
    NumberOfFixed(id, SEQUENCE_DIGITS);
    name := "utterance-" + digits + ".wav";
    PathOfDigits(runtimeDir, id, digits);
    NameHasNoSlash(digits);
  }

  lemma PathOfDigits(runtimeDir: string, id: nat, digits: string)
    requires ZeroPadded(id, SEQUENCE_DIGITS) == digits
    ensures PathText(runtimeDir, id) == runtimeDir + "/" + ("utterance-" + digits + ".wav")
  {
    assert "/utterance-" == "/" + "utterance-";
  }

  lemma NameHasNoSlash(digits: string)
    requires forall i :: 0 <= i < |digits| ==> IsDigit(digits[i])
    ensures '/' !in "utterance-" + digits + ".wav"
  {
    assert '/' !in "utterance-" && '/' !in ".wav" && '/' !in digits;
  }

  /** Listing the directory lists the utterances in the order they were spoken. */
  lemma PathsSortById(runtimeDir: string, earlier: nat, later: nat)
    requires earlier < later < SEQUENCE_LIMIT
    ensures Before(PathText(runtimeDir, earlier), PathText(runtimeDir, later))
    ensures PathText(runtimeDir, earlier) != PathText(runtimeDir, later)
  {
    IdsFitTheirField(earlier);
    IdsFitTheirField(later);
    var a, b := Fixed(earlier, SEQUENCE_DIGITS), Fixed(later, SEQUENCE_DIGITS);
    FixedIsMonotone(earlier, later, SEQUENCE_DIGITS);
    BeforeExtends(a, b, ".wav", ".wav");
    BeforeAfterPrefix(runtimeDir + "/utterance-", a + ".wav", b + ".wav");
    assert PathText(runtimeDir, earlier) == runtimeDir + "/utterance-" + (a + ".wav");
    assert PathText(runtimeDir, later) == runtimeDir + "/utterance-" + (b + ".wav");
    BeforeIsStrict(PathText(runtimeDir, earlier));
  }

  /** No two utterances share a file. */
  lemma PathsAreInjective(runtimeDir: string, id: nat, other: nat)
    requires id < SEQUENCE_LIMIT && other < SEQUENCE_LIMIT
    ensures PathText(runtimeDir, id) == PathText(runtimeDir, other) <==> id == other
  {
    if id < other {
      PathsSortById(runtimeDir, id, other);
    } else if other < id {
      PathsSortById(runtimeDir, other, id);
    }
  }
}
