/** What a configuration file means, said about its lines and without the loader: every field is what
    the last line that assigns its key says, and what it was before if no line does. */
module ConfigMeanings {
  import opened Base
  import opened Decimals
  import opened Configs

  // ---------- Lines ----------

  ghost function Joined(lines: seq<string>): string {
    if lines == [] then [] else lines[0] + Joined(lines[1..])
  }

  /** The pieces fgets reads a file in: each has at most 1023 chars and no newline but at its end, and
      stops short of both only where the file ends. */
  ghost predicate ReadAs(content: string, lines: seq<string>) {
    && Joined(lines) == content
    && forall i :: 0 <= i < |lines| ==> IsPiece(lines[i]) && (i < |lines| - 1 ==> IsFull(lines[i]))
  }

  ghost predicate IsPiece(line: string) {
    0 < |line| < LINE_MAX && '\n' !in line[..|line| - 1]
  }

  ghost predicate IsFull(line: string)
    requires line != []
  {
    line[|line| - 1] == '\n' || |line| == LINE_MAX - 1
  }

  lemma PieceIsLine(content: string, length: nat)
    requires 0 < length <= |content| && IsPiece(content[..length])
    requires length < |content| ==> IsFull(content[..length])
    ensures LineLength(content) == length
  {
    var newline := IndexOf(content, '\n');
    assert newline.Some? ==> content[newline.value] == '\n' && '\n' !in content[..newline.value];
    assert content[..length][length - 1] == content[length - 1];
  }

  /** There is only one way to read a file. */
  lemma FirstPiece(content: string, lines: seq<string>)
    requires ReadAs(content, lines) && content != []
    ensures lines != []
    ensures var n := LineLength(content); lines[0] == content[..n] && ReadAs(content[n..], lines[1..])
  {
    var line, n := lines[0], LineLength(content);
    assert IsPiece(line);
    assert line == content[..|line|] && Joined(lines[1..]) == content[|line|..];
    assert |lines| == 1 ==> Joined(lines[1..]) == [];
    assert |lines| > 1 ==> IsFull(line);
    PieceIsLine(content, |line|);
    assert forall i :: 0 <= i < |lines| - 1 ==> lines[1..][i] == lines[i + 1];
  }

  /** And there is always one. */
  lemma {:induction false} FileCanBeRead(content: string) returns (lines: seq<string>)
    ensures ReadAs(content, lines)
    decreases |content|
  {
    if content == [] {
      lines := [];
    } else {
      var n := LineLength(content);
      var rest := FileCanBeRead(content[n..]);
      lines := [content[..n]] + rest;
      assert lines[1..] == rest;
      NewlineOnlyAtEnd(content);
      if |lines| > 1 {
        assert content[n..] != [];
        assert IsFull(content[..n]);
      }
      assert forall i :: 0 < i < |lines| ==> lines[i] == rest[i - 1];
    }
  }

  // ---------- Assignments ----------

  /** A line assigns `value` to `key` if its first visible character is not '#' and it has a '=', with
      the key in front of the first one and the value behind it, both trimmed. Nothing behind a NUL
      counts. */
  ghost predicate Assigns(line: string, key: string, value: string) {
    var shown := TrimText(CText(line));
    && shown != [] && shown[0] != '#'
    && exists i :: 0 <= i < |shown| && Splits(shown, i, key, value)
  }

  ghost predicate Splits(shown: string, i: nat, key: string, value: string)
    requires i < |shown|
  {
    shown[i] == '=' && '=' !in shown[..i] && TrimText(shown[..i]) == key && TrimText(shown[i + 1..]) == value
  }

  /** Line k is the last to assign `key`, and it assigns `value`. */
  ghost predicate LastAssigns(lines: seq<string>, k: nat, key: string, value: string) {
    && k < |lines| && Assigns(lines[k], key, value)
    && forall j, other :: k < j < |lines| ==> !Assigns(lines[j], key, other)
  }

  ghost predicate Unassigned(lines: seq<string>, key: string) {
    forall j, other :: 0 <= j < |lines| ==> !Assigns(lines[j], key, other)
  }

  /** A string field holds as much of the last value as fits. */
  ghost predicate SetsText(lines: seq<string>, key: string, size: nat, before: string, after: string)
    requires 0 < size
  {
    && (forall k, value :: LastAssigns(lines, k, key, value) ==> after == value[..Min(|value|, size - 1)])
    && (Unassigned(lines, key) ==> after == before)
  }

  /** A number field holds the last value as atoi reads it. */
  ghost predicate SetsNumber(lines: seq<string>, key: string, before: int, after: int) {
    && (forall k, value :: LastAssigns(lines, k, key, value) ==> after == Atoi(value))
    && (Unassigned(lines, key) ==> after == before)
  }

  /** Either some line is the last to assign a key, or none does, so a field is always determined. */
  lemma {:induction false} LastOrNone(lines: seq<string>, key: string) returns (k: nat, value: string)
    ensures LastAssigns(lines, k, key, value) || Unassigned(lines, key)
    decreases |lines|
  {
    hide Assigns, LastAssigns, Unassigned;
    k, value := 0, [];
    if lines == [] {
      NothingAssigned(key);
    } else {
      var n := |lines| - 1;
      if v :| Assigns(lines[n], key, v) {
        k, value := n, v;
        LastLine(lines, key, v);
      } else {
        k, value := LastOrNone(lines[..n], key);
        OneMoreLine(lines, lines[n], k, key, value);
      }
    }
  }

  lemma NothingAssigned(key: string)
    ensures Unassigned([], key)
  {
  }

  lemma LastLine(lines: seq<string>, key: string, value: string)
    requires lines != [] && Assigns(lines[|lines| - 1], key, value)
    ensures LastAssigns(lines, |lines| - 1, key, value)
  {
  }

  lemma OneMoreLine(lines: seq<string>, last: string, k: nat, key: string, value: string)
    requires lines != [] && last == lines[|lines| - 1] && forall other :: !Assigns(last, key, other)
    ensures LastAssigns(lines[..|lines| - 1], k, key, value) ==> LastAssigns(lines, k, key, value)
    ensures Unassigned(lines[..|lines| - 1], key) ==> Unassigned(lines, key)
  {
    hide Assigns;
    assert forall j :: 0 <= j < |lines| - 1 ==> lines[..|lines| - 1][j] == lines[j];
  }

  // ---------- One line ----------

  function KeyAt(rank: nat): string
    requires rank < 12
  {
    Entries(DEFAULTS)[rank].key
  }

  function SizeAt(rank: nat): (size: nat)
    ensures 0 < size
  {
    if rank == 0 then MODE_MAX else VALUE_MAX
  }

  function NumberField(c: Config, rank: nat): int {
    if rank == 10 then c.vadAggressiveness else c.vadSilenceMs
  }

  lemma KeyHasRank(rank: nat)
    requires rank < 12
    ensures Rank(KeyAt(rank)) == rank
  {
    EntryRank(DEFAULTS, rank);
  }

  lemma RankHasKey(key: string)
    requires Rank(key) < 12
    ensures KeyAt(Rank(key)) == key
  {
  }

  lemma TextStored(c: Config, key: string, value: string, rank: nat)
    requires rank < 10
    ensures Field(Store(c, key, value), rank)
            == if Rank(key) == rank then Copied(value, SizeAt(rank)) else Field(c, rank)
  {
    hide Copied, Atoi;
    if Rank(key) != rank {
      FieldOfStore(c, key, value, rank);
    }
  }

  lemma NumberStored(c: Config, key: string, value: string, rank: nat)
    requires 10 <= rank < 12
    ensures NumberField(Store(c, key, value), rank) == if Rank(key) == rank then Atoi(value) else NumberField(c, rank)
  {
    hide Copied, Atoi;
  }

  /** A line that assigns this value to this key and nothing else. */
  ghost predicate Says(line: string, key: string, value: string) {
    && (forall k, v :: Assigns(line, k, v) <==> k == key && v == value)
    && (forall c :: ApplyLine(c, CText(line)) == Store(c, key, value))
  }

  ghost predicate SaysNothing(line: string) {
    && (forall k, v :: !Assigns(line, k, v))
    && (forall c :: ApplyLine(c, CText(line)) == c)
  }

  lemma LineSays(line: string) returns (key: string, value: string)
    ensures Says(line, key, value) || SaysNothing(line)
  {
    hide Store, TrimText, CText, Says, SaysNothing;
    key, value := [], [];
    var shown := TrimText(CText(line));
    if shown != [] && shown[0] != '#' && IndexOf(shown, '=').Some? {
      var i := IndexOf(shown, '=').value;
      key, value := TrimText(shown[..i]), TrimText(shown[i + 1..]);
      AssignmentSays(line, shown, i);
    } else {
      OtherLineSaysNothing(line);
    }
  }

  lemma AssignmentSays(line: string, shown: string, i: nat)
    requires shown == TrimText(CText(line)) && shown != [] && shown[0] != '#' && IndexOf(shown, '=') == Some(i)
    ensures Says(line, TrimText(shown[..i]), TrimText(shown[i + 1..]))
  {
    hide Store, TrimText, CText, IndexOf;
    var key, value := TrimText(shown[..i]), TrimText(shown[i + 1..]);
    assert Splits(shown, i, key, value);
    forall k, v | Assigns(line, k, v)
      ensures k == key && v == value
    {
      OnlyAssignment(line, shown, i, k, v);
    }
  }

  lemma OnlyAssignment(line: string, shown: string, i: nat, key: string, value: string)
    requires shown == TrimText(CText(line)) && IndexOf(shown, '=') == Some(i) && Assigns(line, key, value)
    ensures key == TrimText(shown[..i]) && value == TrimText(shown[i + 1..])
  {
    hide TrimText, CText, IndexOf;
    var j :| 0 <= j < |shown| && Splits(shown, j, key, value);
    FirstIsUnique(shown, i, j);
  }

  lemma OtherLineSaysNothing(line: string)
    requires var shown := TrimText(CText(line)); shown == [] || shown[0] == '#' || IndexOf(shown, '=').None?
    ensures SaysNothing(line)
  {
    hide Store, TrimText, CText, IndexOf;
  }

  lemma FirstIsUnique(s: string, i: nat, j: nat)
    requires i < |s| && j < |s| && s[i] == s[j] && s[i] !in s[..i] && s[j] !in s[..j]
    ensures i == j
  {
  }

  lemma LineMeans(c: Config, line: string, rank: nat)
    requires rank < 12
    ensures var d, key := ApplyLine(c, CText(line)), KeyAt(rank);
            && (forall value :: Assigns(line, key, value) ==>
                  if rank < 10 then Field(d, rank) == Copied(value, SizeAt(rank))
                  else NumberField(d, rank) == Atoi(value))
            && ((forall value :: !Assigns(line, key, value)) ==>
                  if rank < 10 then Field(d, rank) == Field(c, rank)
                  else NumberField(d, rank) == NumberField(c, rank))
  {
    hide Assigns, ApplyLine, CText, Store, Field, NumberField, Copied, Atoi, KeyAt, Rank;
    var key, value := LineSays(line);
    KeyHasRank(rank);
    if rank < 10 {
      TextStored(c, key, value, rank);
    } else {
      NumberStored(c, key, value, rank);
    }
    if Rank(key) < 12 {
      RankHasKey(key);
    }
    if Says(line, key, value) {
      assert Assigns(line, key, value);
    }
  }

  // ---------- The whole file ----------

  lemma TextOfMore(lines: seq<string>, key: string, size: nat, before: string, middle: string, after: string)
    requires lines != [] && 0 < size
    requires forall value :: Assigns(lines[0], key, value) ==> middle == value[..Min(|value|, size - 1)]
    requires (forall value :: !Assigns(lines[0], key, value)) ==> middle == before
    requires SetsText(lines[1..], key, size, middle, after)
    ensures SetsText(lines, key, size, before, after)
  {
    hide Assigns;
    var rest := lines[1..];
    assert forall j :: 0 <= j < |rest| ==> rest[j] == lines[j + 1];
    forall k: nat, value | LastAssigns(lines, k, key, value)
      ensures after == value[..Min(|value|, size - 1)]
    {
      if k > 0 {
        assert LastAssigns(rest, k - 1, key, value);
      } else {
        assert Unassigned(rest, key);
      }
    }
    if Unassigned(lines, key) {
      assert Unassigned(rest, key);
    }
  }

  lemma NumberOfMore(lines: seq<string>, key: string, before: int, middle: int, after: int)
    requires lines != []
    requires forall value :: Assigns(lines[0], key, value) ==> middle == Atoi(value)
    requires (forall value :: !Assigns(lines[0], key, value)) ==> middle == before
    requires SetsNumber(lines[1..], key, middle, after)
    ensures SetsNumber(lines, key, before, after)
  {
    hide Assigns, Atoi;
    var rest := lines[1..];
    assert forall j :: 0 <= j < |rest| ==> rest[j] == lines[j + 1];
    forall k: nat, value | LastAssigns(lines, k, key, value)
      ensures after == Atoi(value)
    {
      if k > 0 {
        assert LastAssigns(rest, k - 1, key, value);
      } else {
        assert Unassigned(rest, key);
      }
    }
    if Unassigned(lines, key) {
      assert Unassigned(rest, key);
    }
  }

  lemma CopiedIsPrefix(value: string, size: nat)
    requires 0 < size
    ensures Copied(value, size) == value[..Min(|value|, size - 1)]
  {
  }

  lemma {:induction false} FieldMeans(c: Config, content: string, lines: seq<string>, rank: nat)
    requires ReadAs(content, lines) && rank < 12
    ensures var d := LoadText(c, content);
            if rank < 10 then SetsText(lines, KeyAt(rank), SizeAt(rank), Field(c, rank), Field(d, rank))
            else SetsNumber(lines, KeyAt(rank), NumberField(c, rank), NumberField(d, rank))
    decreases |content|
  {
    hide Assigns, ApplyLine, CText, Field, NumberField, KeyAt, SizeAt, Atoi, Copied;
    if content == [] {
      NoLines(lines);
    } else {
      FirstPiece(content, lines);
      var n := LineLength(content);
      var middle := ApplyLine(c, CText(lines[0]));
      FieldMeans(middle, content[n..], lines[1..], rank);
      LineMeans(c, lines[0], rank);
      var d := LoadText(c, content);
      if rank < 10 {
        forall value
          ensures Copied(value, SizeAt(rank)) == value[..Min(|value|, SizeAt(rank) - 1)]
        {
          CopiedIsPrefix(value, SizeAt(rank));
        }
        TextOfMore(lines, KeyAt(rank), SizeAt(rank), Field(c, rank), Field(middle, rank), Field(d, rank));
      } else {
        NumberOfMore(lines, KeyAt(rank), NumberField(c, rank), NumberField(middle, rank), NumberField(d, rank));
      }
    }
  }

  lemma NoLines(lines: seq<string>)
    requires ReadAs([], lines)
    ensures lines == []
  {
  }

  /** Loading any file over any configuration: each of the twelve fields is what the last line that
      assigns its key says, and is left alone if no line does. Comments, blank lines, lines without
      '=' and unknown keys assign none of them. */
  lemma FileMeans(c: Config, content: string, lines: seq<string>)
    requires ReadAs(content, lines)
    ensures var d := LoadText(c, content);
            && SetsText(lines, "ASSISTANT_MODE", 16, c.assistantMode, d.assistantMode)
            && SetsText(lines, "RUNTIME_DIR", 512, c.runtimeDir, d.runtimeDir)
            && SetsText(lines, "AUDIO_CAPTURE_DEVICE", 512, c.audioCaptureDevice, d.audioCaptureDevice)
            && SetsText(lines, "AUDIO_PLAYBACK_DEVICE", 512, c.audioPlaybackDevice, d.audioPlaybackDevice)
            && SetsText(lines, "STT_API_BASE_URL", 512, c.sttApiBaseUrl, d.sttApiBaseUrl)
            && SetsText(lines, "LLM_API_BASE_URL", 512, c.llmApiBaseUrl, d.llmApiBaseUrl)
            && SetsText(lines, "LLM_MODEL", 512, c.llmModel, d.llmModel)
            && SetsText(lines, "LLM_SYSTEM_PROMPT_PATH", 512, c.llmSystemPromptPath, d.llmSystemPromptPath)
            && SetsText(lines, "TTS_BIN", 512, c.ttsBin, d.ttsBin)
            && SetsText(lines, "TTS_VOICE_PATH", 512, c.ttsVoicePath, d.ttsVoicePath)
            && SetsNumber(lines, "VAD_AGGRESSIVENESS", c.vadAggressiveness, d.vadAggressiveness)
            && SetsNumber(lines, "VAD_SILENCE_MS", c.vadSilenceMs, d.vadSilenceMs)
  {
    hide LoadText, SetsText, SetsNumber, ReadAs;
    FieldMeans(c, content, lines, 0);
    FieldMeans(c, content, lines, 1);
    FieldMeans(c, content, lines, 2);
    FieldMeans(c, content, lines, 3);
    FieldMeans(c, content, lines, 4);
    FieldMeans(c, content, lines, 5);
    FieldMeans(c, content, lines, 6);
    FieldMeans(c, content, lines, 7);
    FieldMeans(c, content, lines, 8);
    FieldMeans(c, content, lines, 9);
    FieldMeans(c, content, lines, 10);
    FieldMeans(c, content, lines, 11);
  }

  // ---------- The dump as a file ----------

  ghost function LineList(entries: seq<Entry>): seq<string> {
    if entries == [] then [] else [Line(entries[0].key, entries[0].value)] + LineList(entries[1..])
  }

  lemma {:induction false} LinesOfList(entries: seq<Entry>)
    ensures Joined(LineList(entries)) == Lines(entries) && |LineList(entries)| == |entries|
    ensures forall i :: 0 <= i < |entries| ==> LineList(entries)[i] == Line(entries[i].key, entries[i].value)
  {
    if entries != [] {
      LinesOfList(entries[1..]);
      assert LineList(entries)[1..] == LineList(entries[1..]);
    }
  }

  lemma EntryIsPiece(c: Config, i: nat)
    requires WellFormed(c) && IsInt32(c.vadAggressiveness) && IsInt32(c.vadSilenceMs) && i < |Entries(c)|
    ensures var line := Line(Entries(c)[i].key, Entries(c)[i].value); IsPiece(line) && IsFull(line)
  {
    hide TrimRight, IntText, KeyOk;
    WellFormedIsCarried(c);
    EntryIsHeld(c, i);
    EntryHasNoNewline(c, i);
    KeyFits(Entries(c)[i].key);
    var key, value := Entries(c)[i].key, Entries(c)[i].value;
    var line := Line(key, value);
    assert line[..|line| - 1] == key + "=" + value;
  }

  lemma EntryHasNoNewline(c: Config, i: nat)
    requires WellFormed(c) && IsInt32(c.vadAggressiveness) && IsInt32(c.vadSilenceMs) && i < |Entries(c)|
    ensures '\n' !in Entries(c)[i].value
  {
    hide IntText;
    IntHasNoNewline(c.vadAggressiveness);
    IntHasNoNewline(c.vadSilenceMs);
  }

  lemma IntHasNoNewline(n: int)
    ensures '\n' !in IntText(n)
  {
    var text := IntText(n);
    assert forall i :: 0 <= i < |text| ==> IsDigit(text[i]) || text[i] == '-';
  }

  lemma KeyFits(key: string)
    requires KeyOk(key)
    ensures |key| <= 32 && '\n' !in key
  {
  }

  /** A dump is exactly twelve lines of the form KEY=value, in this order. */
  lemma DumpIsTwelveLines(c: Config) returns (lines: seq<string>)
    requires WellFormed(c) && IsInt32(c.vadAggressiveness) && IsInt32(c.vadSilenceMs)
    ensures ReadAs(Dump(c), lines)
    ensures lines == ["ASSISTANT_MODE" + "=" + c.assistantMode + "\n",
                      "RUNTIME_DIR" + "=" + c.runtimeDir + "\n",
                      "AUDIO_CAPTURE_DEVICE" + "=" + c.audioCaptureDevice + "\n",
                      "AUDIO_PLAYBACK_DEVICE" + "=" + c.audioPlaybackDevice + "\n",
                      "STT_API_BASE_URL" + "=" + c.sttApiBaseUrl + "\n",
                      "LLM_API_BASE_URL" + "=" + c.llmApiBaseUrl + "\n",
                      "LLM_MODEL" + "=" + c.llmModel + "\n",
                      "LLM_SYSTEM_PROMPT_PATH" + "=" + c.llmSystemPromptPath + "\n",
                      "TTS_BIN" + "=" + c.ttsBin + "\n",
                      "TTS_VOICE_PATH" + "=" + c.ttsVoicePath + "\n",
                      "VAD_AGGRESSIVENESS" + "=" + IntText(c.vadAggressiveness) + "\n",
                      "VAD_SILENCE_MS" + "=" + IntText(c.vadSilenceMs) + "\n"]
  {
    hide IntText, IsPiece, IsFull;
    lines := LineList(Entries(c));
    LinesOfList(Entries(c));
    forall i | 0 <= i < |lines|
      ensures IsPiece(lines[i]) && lines[i] != [] && IsFull(lines[i])
    {
      EntryIsPiece(c, i);
      PieceIsNotEmpty(lines[i]);
    }
  }

  lemma PieceIsNotEmpty(line: string)
    requires IsPiece(line)
    ensures line != []
  {
  }

  // ---------- Numbers ----------

  /** How atoi reads a value: white space, at most one sign, then digits, up to the first character
      that is none. */
  lemma AtoiReads(space: string, sign: string, digits: string, rest: string)
    requires forall i :: 0 <= i < |space| ==> IsSpace(space[i])
    requires sign in {"", "+", "-"} && forall i :: 0 <= i < |digits| ==> IsDigit(digits[i])
    requires rest != [] ==> !IsDigit(rest[0])
    requires sign == "" && digits == "" && rest != [] ==> !IsSpace(rest[0]) && rest[0] !in {'+', '-'}
    ensures Atoi(space + sign + digits + rest) == if sign == "-" then 0 - Number(digits) else Number(digits)
  {
    hide TrimLeft, LeadingDigits, Number, Atoi;
    var text := sign + digits + rest;
    assert space + sign + digits + rest == space + text;
    LeadingSpaceGoes(space, text);
    DigitsThenRest(digits, rest);
    AtoiOfVisible(space + text, sign, digits + rest);
  }

  lemma AtoiOfVisible(s: string, sign: string, text: string)
    requires TrimLeft(s) == sign + text && sign in {"", "+", "-"}
    requires sign == "" && text != [] ==> text[0] !in {'+', '-'}
    ensures Atoi(s) == if sign == "-" then 0 - Number(LeadingDigits(text)) else Number(LeadingDigits(text))
  {
    hide TrimLeft, LeadingDigits, Number;
    if sign == "" {
      assert sign + text == text;
    } else {
      assert (sign + text)[1..] == text;
    }
  }

  lemma {:induction false} LeadingSpaceGoes(space: string, text: string)
    requires forall i :: 0 <= i < |space| ==> IsSpace(space[i])
    requires text != [] ==> !IsSpace(text[0])
    ensures TrimLeft(space + text) == text
  {
    if space == [] {
      assert space + text == text;
    } else {
      assert (space + text)[1..] == space[1..] + text;
      LeadingSpaceGoes(space[1..], text);
    }
  }

  lemma {:induction false} DigitsThenRest(digits: string, rest: string)
    requires forall i :: 0 <= i < |digits| ==> IsDigit(digits[i])
    requires rest != [] ==> !IsDigit(rest[0])
    ensures LeadingDigits(digits + rest) == digits
  {
    if digits == [] {
      assert digits + rest == rest;
    } else {
      assert (digits + rest)[1..] == digits[1..] + rest;
      DigitsThenRest(digits[1..], rest);
    }
  }
}
