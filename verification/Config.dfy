/** The key/value configuration (config.c): what a file means, the dump, and why a dump loads back.
    Text is a string of chars below 256; a C string ends at its first NUL. */
module Configs {
  import opened Base
  import opened Decimals

  const VALUE_MAX: nat := 512
  const MODE_MAX: nat := 16
  const LINE_MAX: nat := 1024

  /** assistantd_config_t */
  datatype Config = Config(
    assistantMode: string,
    runtimeDir: string,
    audioCaptureDevice: string,
    audioPlaybackDevice: string,
    sttApiBaseUrl: string,
    llmApiBaseUrl: string,
    llmModel: string,
    llmSystemPromptPath: string,
    ttsBin: string,
    ttsVoicePath: string,
    vadAggressiveness: int,
    vadSilenceMs: int)

  /** assistantd_config_init_defaults */
  const DEFAULTS := Config(
    "local", "/var/lib/local-ai-assistant", "default", "default", "http://127.0.0.1:8178", "http://127.0.0.1:8080/v1",
    "SmolLM2-1.7B-Instruct-Q4_K_M", "/etc/local-ai-assistant/system_prompt.txt", "/usr/local/bin/piper",
    "/opt/models/piper-voice.onnx", 2, 700)

  // ---------- Text ----------

  predicate IsSpace(c: char) {
    c == ' ' || '\t' <= c <= '\r'
  }

  function TrimLeft(s: string): string {
    if s != [] && IsSpace(s[0]) then TrimLeft(s[1..]) else s
  }

  function TrimRight(s: string): (t: string)
    ensures t <= s
  {
    if s != [] && IsSpace(s[|s| - 1]) then TrimRight(s[..|s| - 1]) else s
  }

  function TrimText(s: string): string {
    TrimRight(TrimLeft(s))
  }

  /** What C sees of an array of chars. */
  function CText(s: string): (t: string)
    ensures t <= s && '\0' !in t && (t == s || s[|t|] == '\0')
  {
    if s == [] || s[0] == '\0' then [] else [s[0]] + CText(s[1..])
  }

  function IndexOf(s: string, c: char): (i: Option<nat>)
    ensures i.Some? ==> i.value < |s| && s[i.value] == c && c !in s[..i.value]
    ensures i.None? ==> c !in s
  {
    if s == [] then None
    else if s[0] == c then Some(0)
    else match IndexOf(s[1..], c)
         case None => None
         case Some(i) => Some(i + 1)
  }

  /** snprintf("%s") into `size` bytes. */
  function Copied(s: string, size: nat): string
    requires 0 < size
  {
    if |s| < size then s else s[..size - 1]
  }

  function LeadingDigits(s: string): (t: string)
    ensures t <= s && forall i :: 0 <= i < |t| ==> IsDigit(t[i])
  {
    if s != [] && IsDigit(s[0]) then [s[0]] + LeadingDigits(s[1..]) else []
  }

  /** atoi, for numbers an int can hold. */
  function Atoi(s: string): int {
    var t := TrimLeft(s);
    if t != [] && t[0] == '-' then 0 - Number(LeadingDigits(t[1..]))
    else if t != [] && t[0] == '+' then Number(LeadingDigits(t[1..]))
    else Number(LeadingDigits(t))
  }

  /** %d */
  function IntText(n: int): string {
    if n < 0 then "-" + Digits(-n) else Digits(n)
  }

  // ---------- Loading ----------

  /** One recognised key. */
  function Store(c: Config, key: string, value: string): Config {
    if key == "ASSISTANT_MODE" then c.(assistantMode := Copied(value, MODE_MAX))
    else if key == "RUNTIME_DIR" then c.(runtimeDir := Copied(value, VALUE_MAX))
    else if key == "AUDIO_CAPTURE_DEVICE" then c.(audioCaptureDevice := Copied(value, VALUE_MAX))
    else if key == "AUDIO_PLAYBACK_DEVICE" then c.(audioPlaybackDevice := Copied(value, VALUE_MAX))
    else if key == "STT_API_BASE_URL" then c.(sttApiBaseUrl := Copied(value, VALUE_MAX))
    else if key == "LLM_API_BASE_URL" then c.(llmApiBaseUrl := Copied(value, VALUE_MAX))
    else if key == "LLM_MODEL" then c.(llmModel := Copied(value, VALUE_MAX))
    else if key == "LLM_SYSTEM_PROMPT_PATH" then c.(llmSystemPromptPath := Copied(value, VALUE_MAX))
    else if key == "TTS_BIN" then c.(ttsBin := Copied(value, VALUE_MAX))
    else if key == "TTS_VOICE_PATH" then c.(ttsVoicePath := Copied(value, VALUE_MAX))
    else if key == "VAD_AGGRESSIVENESS" then c.(vadAggressiveness := Atoi(value))
    else if key == "VAD_SILENCE_MS" then c.(vadSilenceMs := Atoi(value))
    else c
  }

  /** One line. Blank lines, comments, lines without '=' and unknown keys change nothing. */
  function ApplyLine(c: Config, line: string): Config {
    var cursor := TrimText(line);
    if cursor == [] || cursor[0] == '#' then c
    else match IndexOf(cursor, '=')
         case None => c
         case Some(i) => Store(c, TrimText(cursor[..i]), TrimText(cursor[i + 1..]))
  }

  /** How much fgets takes: up to and including a newline, at most 1023 chars. */
  function LineLength(content: string): (n: nat)
    requires content != []
    ensures 0 < n <= |content| && n < LINE_MAX
  {
    var newline := IndexOf(content, '\n');
    Min(if newline.Some? then newline.value + 1 else |content|, LINE_MAX - 1)
  }

  /** What a file does to a configuration. */
  function LoadText(c: Config, content: string): Config
    decreases |content|
  {
    if content == [] then c
    else
      var n := LineLength(content);
      LoadText(ApplyLine(c, CText(content[..n])), content[n..])
  }

  function Line(key: string, value: string): string {
    key + "=" + value + "\n"
  }

  datatype Entry = Entry(key: string, value: string)

  /** The keys in the order they are dumped. */
  function Entries(c: Config): seq<Entry> {
    [Entry("ASSISTANT_MODE", c.assistantMode),
     Entry("RUNTIME_DIR", c.runtimeDir),
     Entry("AUDIO_CAPTURE_DEVICE", c.audioCaptureDevice),
     Entry("AUDIO_PLAYBACK_DEVICE", c.audioPlaybackDevice),
     Entry("STT_API_BASE_URL", c.sttApiBaseUrl),
     Entry("LLM_API_BASE_URL", c.llmApiBaseUrl),
     Entry("LLM_MODEL", c.llmModel),
     Entry("LLM_SYSTEM_PROMPT_PATH", c.llmSystemPromptPath),
     Entry("TTS_BIN", c.ttsBin),
     Entry("TTS_VOICE_PATH", c.ttsVoicePath),
     Entry("VAD_AGGRESSIVENESS", IntText(c.vadAggressiveness)),
     Entry("VAD_SILENCE_MS", IntText(c.vadSilenceMs))]
  }

  function Lines(entries: seq<Entry>): string {
    if entries == [] then [] else Line(entries[0].key, entries[0].value) + Lines(entries[1..])
  }

  /** assistantd_config_dump */
  function Dump(c: Config): string {
    Lines(Entries(c))
  }

  // ---------- Round trip ----------

  /** A C string in an array of `size` chars. */
  ghost predicate InArray(s: string, size: nat) {
    |s| < size && '\0' !in s
  }

  /** A value a dumped line carries: its newlines, if any, are in the white space behind it. */
  ghost predicate Carried(s: string, size: nat) {
    InArray(s, size) && '\n' !in TrimRight(s)
  }

  ghost predicate FieldOk(s: string, size: nat) {
    InArray(s, size) && '\n' !in s
  }

  ghost predicate AllFields(c: Config, ok: (string, nat) -> bool) {
    && ok(c.assistantMode, MODE_MAX)
    && ok(c.runtimeDir, VALUE_MAX)
    && ok(c.audioCaptureDevice, VALUE_MAX)
    && ok(c.audioPlaybackDevice, VALUE_MAX)
    && ok(c.sttApiBaseUrl, VALUE_MAX)
    && ok(c.llmApiBaseUrl, VALUE_MAX)
    && ok(c.llmModel, VALUE_MAX)
    && ok(c.llmSystemPromptPath, VALUE_MAX)
    && ok(c.ttsBin, VALUE_MAX)
    && ok(c.ttsVoicePath, VALUE_MAX)
  }

  /** Every field a C string in its array. */
  ghost predicate Representable(c: Config) {
    && AllFields(c, (s: string, size: nat) => InArray(s, size))
    && IsInt32(c.vadAggressiveness) && IsInt32(c.vadSilenceMs)
  }

  ghost predicate NewlinesTrail(c: Config) {
    AllFields(c, (s: string, size: nat) => '\n' !in TrimRight(s))
  }

  /** Every field within its array and without newline. */
  ghost predicate WellFormed(c: Config) {
    AllFields(c, (s: string, size: nat) => FieldOk(s, size))
  }

  function Trimmed(c: Config): Config {
    c.(assistantMode := TrimText(c.assistantMode),
       runtimeDir := TrimText(c.runtimeDir),
       audioCaptureDevice := TrimText(c.audioCaptureDevice),
       audioPlaybackDevice := TrimText(c.audioPlaybackDevice),
       sttApiBaseUrl := TrimText(c.sttApiBaseUrl),
       llmApiBaseUrl := TrimText(c.llmApiBaseUrl),
       llmModel := TrimText(c.llmModel),
       llmSystemPromptPath := TrimText(c.llmSystemPromptPath),
       ttsBin := TrimText(c.ttsBin),
       ttsVoicePath := TrimText(c.ttsVoicePath))
  }

  lemma {:induction false} TrimLeftIsSuffix(s: string)
    ensures |TrimLeft(s)| <= |s| && TrimLeft(s) == s[|s| - |TrimLeft(s)|..]
    ensures TrimLeft(s) != [] ==> !IsSpace(TrimLeft(s)[0])
  {
    if s != [] && IsSpace(s[0]) {
      TrimLeftIsSuffix(s[1..]);
    }
  }

  lemma {:induction false} TrimRightEnd(s: string)
    ensures TrimRight(s) != [] ==> !IsSpace(TrimRight(s)[|TrimRight(s)| - 1])
  {
    if s != [] && IsSpace(s[|s| - 1]) {
      TrimRightEnd(s[..|s| - 1]);
    }
  }

  lemma TrimBounds(s: string)
    ensures |TrimText(s)| <= |s| && forall c :: c in TrimText(s) ==> c in s
  {
    TrimLeftIsSuffix(s);
  }

  lemma TrimIsIdempotent(s: string)
    ensures TrimText(TrimText(s)) == TrimText(s)
  {
    TrimLeftIsSuffix(s);
    TrimRightEnd(TrimLeft(s));
  }

  /** Trailing space beyond a visible character can be trimmed on its own. */
  lemma {:induction false} TrimRightAfter(prefix: string, s: string)
    requires prefix != [] && !IsSpace(prefix[|prefix| - 1])
    ensures TrimRight(prefix + s) == prefix + TrimRight(s)
  {
    if s != [] && IsSpace(s[|s| - 1]) {
      TrimRightAfter(prefix, s[..|s| - 1]);
      assert (prefix + s)[..|prefix + s| - 1] == prefix + s[..|s| - 1];
    } else if s == [] {
      assert prefix + s == prefix;
    }
  }

  /** The two trims commute. */
  lemma {:induction false} TrimOfTrimRight(s: string)
    ensures TrimText(TrimRight(s)) == TrimText(s)
  {
    if s != [] && IsSpace(s[0]) {
      if TrimRight(s) == [] {
        AllSpace(s);
      } else {
        TrimOfTrimRight(s[1..]);
        TrimRightOfTail(s);
      }
    } else {
      TrimRightEnd(s);
    }
  }

  lemma {:induction false} AllSpace(s: string)
    requires TrimRight(s) == []
    ensures TrimLeft(s) == []
  {
    if s != [] {
      AllSpace(s[..|s| - 1]);
      SpaceRun(s[..|s| - 1], s[|s| - 1]);
      assert s == s[..|s| - 1] + [s[|s| - 1]];
    }
  }

  lemma {:induction false} SpaceRun(s: string, c: char)
    requires TrimLeft(s) == [] && IsSpace(c)
    ensures TrimLeft(s + [c]) == []
  {
    if s != [] {
      assert (s + [c])[1..] == s[1..] + [c];
      SpaceRun(s[1..], c);
    }
  }

  lemma {:induction false} TrimRightOfTail(s: string)
    requires TrimRight(s) != []
    ensures TrimRight(s)[1..] == TrimRight(s[1..])
  {
    if IsSpace(s[|s| - 1]) {
      TrimRightOfTail(s[..|s| - 1]);
      assert s[..|s| - 1][1..] == s[1..][..|s[1..]| - 1];
    }
  }

  /** A key that can be written before '='. */
  ghost predicate KeyOk(key: string) {
    && key != [] && key[0] != '#'
    && (forall i :: 0 <= i < |key| ==> !IsSpace(key[i]) && key[i] != '=' && key[i] != '\0')
    && |key| <= 32
  }

  lemma {:induction false} CTextOfClean(s: string)
    requires '\0' !in s
    ensures CText(s) == s
  {
  }

  lemma {:induction false} IndexOfFirst(prefix: string, c: char, rest: string)
    requires c !in prefix
    ensures IndexOf(prefix + [c] + rest, c) == Some(|prefix|)
  {
    var s := prefix + [c] + rest;
    assert s[|prefix|] == c;
    if prefix != [] {
      assert s[1..] == prefix[1..] + [c] + rest;
      IndexOfFirst(prefix[1..], c, rest);
    }
  }

  lemma TrimOfKey(key: string)
    requires KeyOk(key)
    ensures TrimText(key) == key
  {
  }

  lemma AppliedLine(c: Config, key: string, value: string)
    requires KeyOk(key)
    ensures ApplyLine(c, Line(key, value)) == Store(c, key, TrimText(value))
  {
    hide Store;
    var line := Line(key, value);
    var head := key + "=";
    assert line == head + (value + "\n");
    assert TrimLeft(line) == line by { assert line[0] == key[0]; }
    TrimRightAfter(head, value + "\n");
    assert (value + "\n")[..|value|] == value;
    var cursor := head + TrimRight(value);
    assert TrimText(line) == cursor;
    assert cursor == key + ['='] + TrimRight(value);
    IndexOfFirst(key, '=', TrimRight(value));
    assert cursor[..|key|] == key && cursor[|key| + 1..] == TrimRight(value);
    TrimOfKey(key);
    TrimOfTrimRight(value);
  }

  /** Files that end in a newline can be loaded one after the other or as one. */
  lemma {:induction false} LoadOfAppend(c: Config, first: string, rest: string)
    requires first != [] ==> first[|first| - 1] == '\n'
    ensures LoadText(c, first + rest) == LoadText(LoadText(c, first), rest)
    decreases |first|
  {
    hide ApplyLine;
    if first == [] {
      assert first + rest == rest;
    } else {
      SameFirstLine(first, rest);
      var n := LineLength(first);
      LoadOfAppend(ApplyLine(c, CText(first[..n])), first[n..], rest);
    }
  }

  lemma SameFirstLine(first: string, rest: string)
    requires first != [] && first[|first| - 1] == '\n'
    ensures var n := LineLength(first);
            && LineLength(first + rest) == n
            && (first + rest)[..n] == first[..n] && (first + rest)[n..] == first[n..] + rest
  {
    var i := IndexOf(first, '\n').value;
    assert first == first[..i] + ['\n'] + first[i + 1..];
    assert first + rest == first[..i] + ['\n'] + (first[i + 1..] + rest);
    IndexOfFirst(first[..i], '\n', first[i + 1..] + rest);
  }

  lemma {:induction false} SpacesTrimAway(s: string)
    requires forall i :: 0 <= i < |s| ==> IsSpace(s[i])
    ensures TrimLeft(s) == []
  {
    if s != [] {
      SpacesTrimAway(s[1..]);
    }
  }

  lemma {:induction false} BlankLinesChangeNothing(c: Config, blank: string)
    requires forall i :: 0 <= i < |blank| ==> IsSpace(blank[i])
    ensures LoadText(c, blank) == c
    decreases |blank|
  {
    if blank != [] {
      var n := LineLength(blank);
      CTextOfClean(blank[..n]);
      SpacesTrimAway(blank[..n]);
      BlankLinesChangeNothing(c, blank[n..]);
    }
  }

  lemma {:induction false} TrimRightOfCut(s: string, i: nat)
    requires i <= |s| && forall j :: i <= j < |s| ==> IsSpace(s[j])
    ensures TrimRight(s[..i]) == TrimRight(s)
    decreases |s|
  {
    if i == |s| {
      assert s[..i] == s;
    } else {
      assert s[..|s| - 1][..i] == s[..i];
      TrimRightOfCut(s[..|s| - 1], i);
    }
  }

  lemma {:induction false} TrimRightDropsSpace(s: string)
    ensures forall j :: |TrimRight(s)| <= j < |s| ==> IsSpace(s[j])
  {
    if s != [] && IsSpace(s[|s| - 1]) {
      TrimRightDropsSpace(s[..|s| - 1]);
    }
  }

  /** The line of an entry up to the first newline of its value. */
  lemma FirstLineOf(c: Config, key: string, value: string)
    requires KeyOk(key) && InArray(value, VALUE_MAX) && '\n' !in value
    ensures LoadText(c, Line(key, value)) == Store(c, key, TrimText(value))
  {
    hide Store, ApplyLine;
    var line := Line(key, value);
    var body := key + "=" + value;
    assert line == body + ['\n'] + [];
    assert '\n' !in body by {
      forall i | 0 <= i < |body|
        ensures body[i] != '\n'
      {
      }
    }
    IndexOfFirst(body, '\n', []);
    assert LineLength(line) == |line|;
    assert line[..|line|] == line && line[|line|..] == [];
    CTextOfClean(line);
    AppliedLine(c, key, value);
  }

  /** How the text of an entry splits at the first newline of its value. */
  lemma SplitAtNewline(key: string, value: string, i: nat)
    requires i <= |value| && (i < |value| ==> value[i] == '\n')
    ensures Line(key, value) == Line(key, value[..i]) + (value + "\n")[i + 1..]
  {
    assert value + "\n" == value[..i] + "\n" + (value + "\n")[i + 1..];
  }

  lemma LoadedLine(c: Config, key: string, value: string)
    requires KeyOk(key) && Carried(value, VALUE_MAX)
    ensures LoadText(c, Line(key, value)) == Store(c, key, TrimText(value))
  {
    hide Store, LoadText, Line;
    var newline := IndexOf(value, '\n');
    var i := if newline.Some? then newline.value else |value|;
    SplitAtNewline(key, value, i);
    var blank := (value + "\n")[i + 1..];
    TrimRightDropsSpace(value);
    assert |TrimRight(value)| <= i;
    LineEnds(key, value[..i]);
    LoadOfAppend(c, Line(key, value[..i]), blank);
    FirstLineOf(c, key, value[..i]);
    BlankLinesChangeNothing(LoadText(c, Line(key, value[..i])), blank);
    TrimRightOfCut(value, i);
    TrimOfTrimRight(value);
    TrimOfTrimRight(value[..i]);
  }

  lemma LineEnds(key: string, value: string)
    ensures Line(key, value) != [] && Line(key, value)[|Line(key, value)| - 1] == '\n'
  {
  }

  /** Storing entries one after the other. */
  function StoreAll(c: Config, entries: seq<Entry>): Config {
    if entries == [] then c
    else
      var last := entries[|entries| - 1];
      Store(StoreAll(c, entries[..|entries| - 1]), last.key, TrimText(last.value))
  }

  lemma {:induction false} StoreAllFirst(c: Config, entries: seq<Entry>)
    requires entries != []
    ensures StoreAll(c, entries) == StoreAll(Store(c, entries[0].key, TrimText(entries[0].value)), entries[1..])
  {
    hide Store;
    if |entries| > 1 {
      StoreAllFirst(c, entries[..|entries| - 1]);
      assert entries[1..][..|entries| - 2] == entries[..|entries| - 1][1..];
    }
  }

  ghost predicate EntryOk(e: Entry) {
    KeyOk(e.key) && Carried(e.value, VALUE_MAX)
  }

  lemma {:induction false} LoadedLines(c: Config, entries: seq<Entry>)
    requires forall i :: 0 <= i < |entries| ==> EntryOk(entries[i])
    ensures LoadText(c, Lines(entries)) == StoreAll(c, entries)
    decreases |entries|
  {
    hide Store, LoadText, Line;
    if entries == [] {
      EmptyFile(c);
    } else {
      var e := entries[0];
      assert EntryOk(e);
      LineEnds(e.key, e.value);
      LoadOfAppend(c, Line(e.key, e.value), Lines(entries[1..]));
      LoadedLine(c, e.key, e.value);
      LoadedLines(Store(c, e.key, TrimText(e.value)), entries[1..]);
      StoreAllFirst(c, entries);
    }
  }

  lemma EmptyFile(c: Config)
    ensures LoadText(c, []) == c
  {
  }

  lemma {:induction false} DigitsLead(s: string)
    requires forall i :: 0 <= i < |s| ==> IsDigit(s[i])
    ensures LeadingDigits(s) == s
  {
    if s != [] {
      DigitsLead(s[1..]);
    }
  }

  /** A text without white space is its own trimmed form. */
  lemma NothingToTrim(s: string)
    requires forall i :: 0 <= i < |s| ==> !IsSpace(s[i])
    ensures TrimLeft(s) == s && TrimText(s) == s
  {
  }

  /** atoi reads back what %d printed. */
  lemma AtoiOfIntText(n: int)
    ensures TrimText(IntText(n)) == IntText(n) && Atoi(IntText(n)) == n
  {
    hide Digits, Number, LeadingDigits, TrimLeft, TrimRight;
    var digits := Digits(if n < 0 then -n else n);
    NumberOfDigits(if n < 0 then -n else n);
    DigitsLead(digits);
    var text := IntText(n);
    assert forall i :: 0 <= i < |text| ==> !IsSpace(text[i]);
    NothingToTrim(text);
    if n < 0 {
      assert text[1..] == digits;
    }
  }

  /** An int has at most ten digits and a sign. */
  ghost predicate IsInt32(n: int) {
    -0x8000_0000 <= n <= 0x7FFF_FFFF
  }

  lemma IntTextIsAField(n: int)
    requires IsInt32(n)
    ensures Carried(IntText(n), VALUE_MAX)
  {
    var m := if n < 0 then -n else n;
    assert m < Pow10(10) by {
      assert Pow10(5) == 100000 * Pow10(0);
      assert Pow10(10) == 100000 * Pow10(5);
    }
    DigitsAreFixed(m, 10);
    var text := IntText(n);
    assert forall i :: 0 <= i < |text| ==> IsDigit(text[i]) || text[i] == '-';
  }

  lemma AudioKeysAreOk()
    ensures KeyOk("ASSISTANT_MODE") && KeyOk("RUNTIME_DIR")
    ensures KeyOk("AUDIO_CAPTURE_DEVICE") && KeyOk("AUDIO_PLAYBACK_DEVICE")
  {
  }

  lemma ServerKeysAreOk()
    ensures KeyOk("STT_API_BASE_URL") && KeyOk("LLM_API_BASE_URL")
    ensures KeyOk("LLM_MODEL") && KeyOk("LLM_SYSTEM_PROMPT_PATH")
  {
  }

  lemma SpeechKeysAreOk()
    ensures KeyOk("TTS_BIN") && KeyOk("TTS_VOICE_PATH") && KeyOk("VAD_AGGRESSIVENESS") && KeyOk("VAD_SILENCE_MS")
  {
  }

  lemma EntriesAreOk(c: Config, i: nat)
    requires Representable(c) && NewlinesTrail(c) && i < |Entries(c)|
    ensures EntryOk(Entries(c)[i])
  {
    hide IntText, KeyOk;
    AudioKeysAreOk();
    ServerKeysAreOk();
    SpeechKeysAreOk();
    IntTextIsAField(c.vadAggressiveness);
    IntTextIsAField(c.vadSilenceMs);
  }

  lemma TrimmedFits(s: string, size: nat)
    requires InArray(s, size)
    ensures 0 < size && Copied(TrimText(s), size) == TrimText(s)
  {
    TrimBounds(s);
  }

  lemma Prefixes(entries: seq<Entry>, i: nat)
    requires i < |entries|
    ensures entries[..i + 1][..i] == entries[..i] && entries[..i + 1][i] == entries[i]
  {
  }

  /** One more entry stored. */
  lemma StoredUpTo(c: Config, entries: seq<Entry>, i: nat, before: Config, after: Config)
    requires i < |entries| && StoreAll(c, entries[..i]) == before
    requires Store(before, entries[i].key, TrimText(entries[i].value)) == after
    ensures StoreAll(c, entries[..i + 1]) == after
  {
    hide Store;
    Prefixes(entries, i);
  }

  lemma StoredEntries(c0: Config, c: Config)
    requires Representable(c)
    ensures StoreAll(c0, Entries(c)) == Trimmed(c)
  {
    hide TrimText, IntText, Atoi, Copied, StoreAll, InArray;
    var e, t := Entries(c), Trimmed(c);
    FieldsFit(c);
    AtoiOfIntText(c.vadAggressiveness);
    AtoiOfIntText(c.vadSilenceMs);
    assert StoreAll(c0, e[..0]) == c0 by { NothingStored(c0); }
    var c1 := c0.(assistantMode := t.assistantMode);
    StoredUpTo(c0, e, 0, c0, c1);
    var c2 := c1.(runtimeDir := t.runtimeDir);
    StoredUpTo(c0, e, 1, c1, c2);
    var c3 := c2.(audioCaptureDevice := t.audioCaptureDevice);
    StoredUpTo(c0, e, 2, c2, c3);
    var c4 := c3.(audioPlaybackDevice := t.audioPlaybackDevice);
    StoredUpTo(c0, e, 3, c3, c4);
    var c5 := c4.(sttApiBaseUrl := t.sttApiBaseUrl);
    StoredUpTo(c0, e, 4, c4, c5);
    var c6 := c5.(llmApiBaseUrl := t.llmApiBaseUrl);
    StoredUpTo(c0, e, 5, c5, c6);
    var c7 := c6.(llmModel := t.llmModel);
    StoredUpTo(c0, e, 6, c6, c7);
    var c8 := c7.(llmSystemPromptPath := t.llmSystemPromptPath);
    StoredUpTo(c0, e, 7, c7, c8);
    var c9 := c8.(ttsBin := t.ttsBin);
    StoredUpTo(c0, e, 8, c8, c9);
    var c10 := c9.(ttsVoicePath := t.ttsVoicePath);
    StoredUpTo(c0, e, 9, c9, c10);
    var c11 := c10.(vadAggressiveness := c.vadAggressiveness);
    StoredUpTo(c0, e, 10, c10, c11);
    StoredUpTo(c0, e, 11, c11, t);
    assert e[..12] == e;
  }

  lemma NothingStored(c: Config)
    ensures StoreAll(c, []) == c
  {
  }

  lemma FieldsFit(c: Config)
    requires Representable(c)
    ensures Copied(TrimText(c.assistantMode), MODE_MAX) == TrimText(c.assistantMode)
    ensures Copied(TrimText(c.runtimeDir), VALUE_MAX) == TrimText(c.runtimeDir)
    ensures Copied(TrimText(c.audioCaptureDevice), VALUE_MAX) == TrimText(c.audioCaptureDevice)
    ensures Copied(TrimText(c.audioPlaybackDevice), VALUE_MAX) == TrimText(c.audioPlaybackDevice)
    ensures Copied(TrimText(c.sttApiBaseUrl), VALUE_MAX) == TrimText(c.sttApiBaseUrl)
    ensures Copied(TrimText(c.llmApiBaseUrl), VALUE_MAX) == TrimText(c.llmApiBaseUrl)
    ensures Copied(TrimText(c.llmModel), VALUE_MAX) == TrimText(c.llmModel)
    ensures Copied(TrimText(c.llmSystemPromptPath), VALUE_MAX) == TrimText(c.llmSystemPromptPath)
    ensures Copied(TrimText(c.ttsBin), VALUE_MAX) == TrimText(c.ttsBin)
    ensures Copied(TrimText(c.ttsVoicePath), VALUE_MAX) == TrimText(c.ttsVoicePath)
  {
    hide TrimText, InArray, Copied;
    TrimmedFits(c.assistantMode, MODE_MAX);
    TrimmedFits(c.runtimeDir, VALUE_MAX);
    TrimmedFits(c.audioCaptureDevice, VALUE_MAX);
    TrimmedFits(c.audioPlaybackDevice, VALUE_MAX);
    TrimmedFits(c.sttApiBaseUrl, VALUE_MAX);
    TrimmedFits(c.llmApiBaseUrl, VALUE_MAX);
    TrimmedFits(c.llmModel, VALUE_MAX);
    TrimmedFits(c.llmSystemPromptPath, VALUE_MAX);
    TrimmedFits(c.ttsBin, VALUE_MAX);
    TrimmedFits(c.ttsVoicePath, VALUE_MAX);
  }

  lemma CarriedComesBack(c0: Config, c: Config)
    requires Representable(c) && NewlinesTrail(c)
    ensures LoadText(c0, Dump(c)) == Trimmed(c)
  {
    hide LoadText, StoreAll, Lines, Entries, NewlinesTrail;
    forall i | 0 <= i < |Entries(c)|
      ensures EntryOk(Entries(c)[i])
    {
      EntriesAreOk(c, i);
    }
    LoadedLines(c0, Entries(c));
    StoredEntries(c0, c);
  }

  // ---------- What a newline in front of visible text destroys ----------

  /** The part of s that trimming leaves. */
  lemma TrimWhere(s: string) returns (lo: nat, hi: nat)
    ensures lo <= hi <= |s| && TrimText(s) == s[lo..hi]
    ensures lo < hi ==> !IsSpace(s[lo]) && !IsSpace(s[hi - 1])
    ensures forall i :: 0 <= i < lo || hi <= i < |s| ==> IsSpace(s[i])
  {
    var left := TrimLeft(s);
    TrimLeftIsSuffix(s);
    TrimRightEnd(left);
    TrimRightDropsSpace(left);
    lo := |s| - |left|;
    hi := lo + |TrimRight(left)|;
    LeftIsSpace(s);
    forall i | hi <= i < |s|
      ensures IsSpace(s[i])
    {
      assert s[i] == left[i - lo];
    }
  }

  lemma {:induction false} LeftIsSpace(s: string)
    ensures |TrimLeft(s)| <= |s| && forall i :: 0 <= i < |s| - |TrimLeft(s)| ==> IsSpace(s[i])
  {
    if s != [] && IsSpace(s[0]) {
      LeftIsSpace(s[1..]);
      forall i | 0 <= i < |s| - |TrimLeft(s)|
        ensures IsSpace(s[i])
      {
        assert i > 0 ==> s[i] == s[1..][i - 1];
      }
    }
  }

  /** A stretch between two visible characters survives trimming. */
  lemma TrimAtLeast(s: string, lo: nat, hi: nat)
    requires lo < hi <= |s| && !IsSpace(s[lo]) && !IsSpace(s[hi - 1])
    ensures hi - lo <= |TrimText(s)|
  {
    var a, b := TrimWhere(s);
  }

  lemma TrimOfPart(s: string, lo: nat, hi: nat)
    requires lo <= hi <= |s|
    ensures |TrimText(s[lo..hi])| <= |TrimText(s)|
  {
    var part := s[lo..hi];
    var a, b := TrimWhere(part);
    if a < b {
      assert part[a] == s[lo + a] && part[b - 1] == s[lo + b - 1];
      TrimAtLeast(s, lo + a, lo + b);
    }
  }

  /** What comes before a newline inside the visible part is shorter than the visible part. */
  lemma TrimBeforeNewline(s: string, i: nat)
    requires i < |TrimRight(s)| && s[i] == '\n'
    ensures |TrimText(s[..i])| < |TrimText(s)|
  {
    TrimRightEnd(s);
    var end := |TrimRight(s)|;
    var a, b := TrimWhere(s[..i]);
    var from := if a < b then a else end - 1;
    assert a < b ==> s[a] == s[..i][a];
    assert TrimRight(s)[end - 1] == s[end - 1];
    TrimAtLeast(s, from, end);
  }

  /** Where a key stands in the dump. */
  function Rank(key: string): nat {
    if key == "ASSISTANT_MODE" then 0
    else if key == "RUNTIME_DIR" then 1
    else if key == "AUDIO_CAPTURE_DEVICE" then 2
    else if key == "AUDIO_PLAYBACK_DEVICE" then 3
    else if key == "STT_API_BASE_URL" then 4
    else if key == "LLM_API_BASE_URL" then 5
    else if key == "LLM_MODEL" then 6
    else if key == "LLM_SYSTEM_PROMPT_PATH" then 7
    else if key == "TTS_BIN" then 8
    else if key == "TTS_VOICE_PATH" then 9
    else if key == "VAD_AGGRESSIVENESS" then 10
    else if key == "VAD_SILENCE_MS" then 11
    else 12
  }

  /** The text field with a given rank. */
  function Field(c: Config, rank: nat): string {
    match rank
    case 0 => c.assistantMode
    case 1 => c.runtimeDir
    case 2 => c.audioCaptureDevice
    case 3 => c.audioPlaybackDevice
    case 4 => c.sttApiBaseUrl
    case 5 => c.llmApiBaseUrl
    case 6 => c.llmModel
    case 7 => c.llmSystemPromptPath
    case 8 => c.ttsBin
    case 9 => c.ttsVoicePath
    case _ => []
  }

  lemma OtherFieldOfEarlyStore(c: Config, key: string, value: string, rank: nat)
    requires rank != Rank(key) && Rank(key) < 5
    ensures Field(Store(c, key, value), rank) == Field(c, rank)
  {
    hide Atoi, Copied;
  }

  lemma OtherFieldOfLateStore(c: Config, key: string, value: string, rank: nat)
    requires rank != Rank(key) && Rank(key) >= 5
    ensures Field(Store(c, key, value), rank) == Field(c, rank)
  {
    hide Atoi, Copied;
  }

  lemma OwnFieldOfStore(c: Config, key: string, value: string)
    ensures |Field(Store(c, key, value), Rank(key))| <= |value|
  {
    hide Atoi, Copied;
    CopiedIsNotLonger(value, MODE_MAX);
    CopiedIsNotLonger(value, VALUE_MAX);
  }

  lemma FieldOfStore(c: Config, key: string, value: string, rank: nat)
    ensures rank != Rank(key) ==> Field(Store(c, key, value), rank) == Field(c, rank)
    ensures |Field(Store(c, key, value), Rank(key))| <= |value|
  {
    hide Store, Field, Rank;
    OwnFieldOfStore(c, key, value);
    if rank != Rank(key) {
      if Rank(key) < 5 {
        OtherFieldOfEarlyStore(c, key, value, rank);
      } else {
        OtherFieldOfLateStore(c, key, value, rank);
      }
    }
  }

  lemma CopiedIsNotLonger(s: string, size: nat)
    requires 0 < size
    ensures |Copied(s, size)| <= |s|
  {
  }

  lemma LineKeepsShort(c: Config, line: string, rank: nat, length: nat)
    requires |TrimText(line)| <= length && |Field(c, rank)| < length
    ensures |Field(ApplyLine(c, line), rank)| < length
  {
    hide Store, Field, Rank;
    var cursor := TrimText(line);
    if cursor != [] && cursor[0] != '#' && IndexOf(cursor, '=').Some? {
      var i := IndexOf(cursor, '=').value;
      TrimBounds(cursor[i + 1..]);
      FieldOfStore(c, TrimText(cursor[..i]), TrimText(cursor[i + 1..]), rank);
    }
  }

  /** A text cannot put more into a field than it has between its first and last visible
      characters. */
  lemma {:induction false} TextKeepsShort(c: Config, text: string, rank: nat, length: nat)
    requires |TrimText(text)| <= length && |Field(c, rank)| < length
    ensures |Field(LoadText(c, text), rank)| < length
    decreases |text|
  {
    hide ApplyLine, Field, TrimText;
    if text != [] {
      var n := LineLength(text);
      var line := CText(text[..n]);
      assert line == text[0..|line|] && text[n..] == text[n..|text|];
      TrimOfPart(text, 0, |line|);
      TrimOfPart(text, n, |text|);
      LineKeepsShort(c, line, rank, length);
      TextKeepsShort(ApplyLine(c, line), text[n..], rank, length);
    }
  }

  /** An entry whose value has a newline before its last visible character loads shorter than the
      value. */
  lemma BrokenEntry(c: Config, key: string, value: string)
    requires KeyOk(key) && InArray(value, VALUE_MAX) && !Carried(value, VALUE_MAX)
    ensures |Field(LoadText(c, Line(key, value)), Rank(key))| < |TrimText(value)|
  {
    hide Store, LoadText, Line, Field, TrimText, Rank;
    var i := IndexOf(value, '\n').value;
    var rest := (value + "\n")[i + 1..];
    NewlineIsInside(value, i);
    TrimBeforeNewline(value, i);
    SplitAtNewline(key, value, i);
    LineEnds(key, value[..i]);
    LoadOfAppend(c, Line(key, value[..i]), rest);
    FirstLineOf(c, key, value[..i]);
    FieldOfStore(c, key, TrimText(value[..i]), Rank(key));
    TrimOfPart(value + "\n", i + 1, |value| + 1);
    assert (value + "\n")[i + 1..|value| + 1] == rest;
    TrimWithNewline(value);
    TextKeepsShort(LoadText(c, Line(key, value[..i])), rest, Rank(key), |TrimText(value)|);
  }

  lemma NewlineIsInside(value: string, i: nat)
    requires '\n' in TrimRight(value) && i < |value| && '\n' !in value[..i]
    ensures i < |TrimRight(value)|
  {
    var j :| 0 <= j < |TrimRight(value)| && TrimRight(value)[j] == '\n';
    assert value[j] == '\n';
  }

  lemma TrimWithNewline(value: string)
    ensures TrimText(value + "\n") == TrimText(value)
  {
    assert (value + "\n")[..|value|] == value;
    TrimOfTrimRight(value + "\n");
    TrimOfTrimRight(value);
  }

  lemma LinesEnd(entries: seq<Entry>)
    requires entries != []
    ensures Lines(entries) != [] && Lines(entries)[|Lines(entries)| - 1] == '\n'
  {
    if |entries| > 1 {
      LinesEnd(entries[1..]);
    }
  }

  lemma {:induction false} LinesSplit(entries: seq<Entry>, k: nat)
    requires k <= |entries|
    ensures Lines(entries) == Lines(entries[..k]) + Lines(entries[k..])
  {
    if k > 0 {
      LinesSplit(entries[1..], k - 1);
      assert entries[1..][..k - 1] == entries[..k][1..];
      assert entries[1..][k - 1..] == entries[k..];
    } else {
      assert entries[k..] == entries;
    }
  }

  /** Entries under other keys leave a field alone. */
  lemma {:induction false} OthersKeepField(c: Config, entries: seq<Entry>, rank: nat)
    requires forall i :: 0 <= i < |entries| ==> Rank(entries[i].key) != rank
    ensures Field(StoreAll(c, entries), rank) == Field(c, rank)
  {
    hide Store, Field, Rank;
    if entries != [] {
      var last := entries[|entries| - 1];
      OthersKeepField(c, entries[..|entries| - 1], rank);
      FieldOfStore(StoreAll(c, entries[..|entries| - 1]), last.key, TrimText(last.value), rank);
    }
  }

  /** The last broken entry of a list is lost. */
  lemma LastBrokenIsLost(c: Config, entries: seq<Entry>, k: nat)
    requires k < |entries| && KeyOk(entries[k].key)
    requires InArray(entries[k].value, VALUE_MAX) && !Carried(entries[k].value, VALUE_MAX)
    requires forall i :: k < i < |entries| ==> EntryOk(entries[i]) && Rank(entries[i].key) != Rank(entries[k].key)
    ensures |Field(LoadText(c, Lines(entries)), Rank(entries[k].key))| < |TrimText(entries[k].value)|
  {
    hide Store, LoadText, Line, Field, TrimText, EntryOk, StoreAll, Rank;
    var e, rest := entries[k], entries[k + 1..];
    LinesSplit(entries, k);
    assert entries[k..][1..] == rest;
    assert Lines(entries) == Lines(entries[..k]) + (Line(e.key, e.value) + Lines(rest));
    if k > 0 {
      LinesEnd(entries[..k]);
    }
    var before := LoadText(c, Lines(entries[..k]));
    LoadOfAppend(c, Lines(entries[..k]), Line(e.key, e.value) + Lines(rest));
    LineEnds(e.key, e.value);
    LoadOfAppend(before, Line(e.key, e.value), Lines(rest));
    BrokenEntry(before, e.key, e.value);
    LoadedLines(LoadText(before, Line(e.key, e.value)), rest);
    OthersKeepField(LoadText(before, Line(e.key, e.value)), rest, Rank(e.key));
  }

  lemma EntryRank(c: Config, i: nat)
    requires i < |Entries(c)|
    ensures Rank(Entries(c)[i].key) == i
  {
    hide IntText;
  }

  /** A dumped field in the configuration it came from. */
  lemma FieldOfEntry(c: Config, i: nat)
    requires i < 10
    ensures Field(c, i) == Entries(c)[i].value
    ensures Field(Trimmed(c), i) == TrimText(Entries(c)[i].value)
  {
    hide TrimText, IntText;
  }

  lemma EntryIsHeld(c: Config, i: nat)
    requires Representable(c) && i < |Entries(c)|
    ensures KeyOk(Entries(c)[i].key) && InArray(Entries(c)[i].value, VALUE_MAX)
    ensures i >= 10 ==> EntryOk(Entries(c)[i])
  {
    hide IntText, KeyOk;
    AudioKeysAreOk();
    ServerKeysAreOk();
    SpeechKeysAreOk();
    IntTextIsAField(c.vadAggressiveness);
    IntTextIsAField(c.vadSilenceMs);
  }

  lemma BrokenField(c: Config) returns (i: nat)
    requires Representable(c) && !NewlinesTrail(c)
    ensures i < |Entries(c)| && !EntryOk(Entries(c)[i])
  {
    hide IntText, KeyOk, TrimRight;
    i := if !Carried(c.assistantMode, VALUE_MAX) then 0
    else if !Carried(c.runtimeDir, VALUE_MAX) then 1
    else if !Carried(c.audioCaptureDevice, VALUE_MAX) then 2
    else if !Carried(c.audioPlaybackDevice, VALUE_MAX) then 3
    else if !Carried(c.sttApiBaseUrl, VALUE_MAX) then 4
    else if !Carried(c.llmApiBaseUrl, VALUE_MAX) then 5
    else if !Carried(c.llmModel, VALUE_MAX) then 6
    else if !Carried(c.llmSystemPromptPath, VALUE_MAX) then 7
    else if !Carried(c.ttsBin, VALUE_MAX) then 8
    else 9;
  }

  lemma {:induction false} LastBroken(entries: seq<Entry>, i: nat) returns (k: nat)
    requires i < |entries| && !EntryOk(entries[i])
    ensures i <= k < |entries| && !EntryOk(entries[k])
    ensures forall j :: k < j < |entries| ==> EntryOk(entries[j])
    decreases |entries| - i
  {
    hide EntryOk;
    if j: nat :| i < j < |entries| && !EntryOk(entries[j]) {
      k := LastBroken(entries, j);
    } else {
      k := i;
    }
  }

  lemma BrokenDoesNotComeBack(c0: Config, c: Config)
    requires Representable(c) && !NewlinesTrail(c)
    ensures LoadText(c0, Dump(c)) !in {c, Trimmed(c)}
  {
    hide LoadText, Lines, Entries, NewlinesTrail, Representable, Field, TrimText, KeyOk, Carried, InArray, Rank,
         Trimmed;
    var entries := Entries(c);
    var i := BrokenField(c);
    var k := LastBroken(entries, i);
    EntryIsHeld(c, k);
    EntryRank(c, k);
    forall j | k < j < |entries|
      ensures Rank(entries[j].key) != Rank(entries[k].key)
    {
      EntryRank(c, j);
    }
    LastBrokenIsLost(c0, entries, k);
    FieldOfEntry(c, k);
    TrimBounds(entries[k].value);
  }

  /** Loading a dump over any configuration gives the dumped configuration, trimmed, if and only if
      no field has a newline in front of a visible character. */
  lemma LoadOfDump(c0: Config, c: Config)
    requires Representable(c)
    ensures LoadText(c0, Dump(c)) == Trimmed(c) <==> NewlinesTrail(c)
  {
    hide LoadText, Dump, NewlinesTrail, Representable, Trimmed;
    if NewlinesTrail(c) {
      CarriedComesBack(c0, c);
    } else {
      BrokenDoesNotComeBack(c0, c);
    }
  }

  /** So a configuration that loads back is stable from then on. */
  lemma LoadOfDumpIsIdempotent(c0: Config, c1: Config, c: Config)
    requires Representable(c) && NewlinesTrail(c)
    ensures LoadText(c0, Dump(LoadText(c1, Dump(c)))) == LoadText(c1, Dump(c))
  {
    hide LoadText, Dump, NewlinesTrail, Representable, Trimmed;
    LoadOfDump(c1, c);
    TrimmedIsCarried(c);
    LoadOfDump(c0, Trimmed(c));
  }

  /** And one comes back as it was if and only if it is trimmed and has no such newline. */
  lemma ComesBackUnchanged(c0: Config, c: Config)
    requires Representable(c)
    ensures LoadText(c0, Dump(c)) == c <==> c == Trimmed(c) && NewlinesTrail(c)
  {
    hide LoadText, Dump, NewlinesTrail, Representable, Trimmed;
    if NewlinesTrail(c) {
      LoadOfDump(c0, c);
    } else {
      BrokenDoesNotComeBack(c0, c);
    }
  }

  lemma TrimmedField(s: string, size: nat)
    requires Carried(s, size)
    ensures Carried(TrimText(s), size) && TrimText(TrimText(s)) == TrimText(s)
  {
    TrimBounds(s);
    TrimIsIdempotent(s);
    TrimOfTrimRight(s);
    TrimBounds(TrimRight(s));
  }

  lemma TrimmedIsCarried(c: Config)
    requires Representable(c) && NewlinesTrail(c)
    ensures Representable(Trimmed(c)) && NewlinesTrail(Trimmed(c)) && Trimmed(Trimmed(c)) == Trimmed(c)
  {
    hide TrimText, TrimRight, InArray;
    TrimmedField(c.assistantMode, MODE_MAX);
    TrimmedField(c.runtimeDir, VALUE_MAX);
    TrimmedField(c.audioCaptureDevice, VALUE_MAX);
    TrimmedField(c.audioPlaybackDevice, VALUE_MAX);
    TrimmedField(c.sttApiBaseUrl, VALUE_MAX);
    TrimmedField(c.llmApiBaseUrl, VALUE_MAX);
    TrimmedField(c.llmModel, VALUE_MAX);
    TrimmedField(c.llmSystemPromptPath, VALUE_MAX);
    TrimmedField(c.ttsBin, VALUE_MAX);
    TrimmedField(c.ttsVoicePath, VALUE_MAX);
  }

  // ---------- Every configuration the program makes is well formed ----------

  lemma CopiedIsAField(s: string, size: nat)
    requires 0 < size && '\0' !in s && '\n' !in s
    ensures FieldOk(Copied(s, size), size)
  {
  }

  lemma StoreKeepsWellFormed(c: Config, key: string, value: string)
    requires WellFormed(c) && '\0' !in value && '\n' !in value
    ensures WellFormed(Store(c, key, value))
  {
    hide FieldOk, Copied, Atoi;
    CopiedIsAField(value, MODE_MAX);
    CopiedIsAField(value, VALUE_MAX);
  }

  lemma NewlineOnlyAtEnd(content: string)
    requires content != []
    ensures '\n' !in content[..LineLength(content) - 1]
  {
  }

  lemma {:induction false} TrimDropsLastNewline(line: string)
    requires line != [] && '\n' !in line[..|line| - 1]
    ensures '\n' !in TrimText(line)
  {
    TrimLeftIsSuffix(line);
    TrimRightEnd(TrimLeft(line));
    var t := TrimText(line);
    var l := TrimLeft(line);
    assert t <= l;
    forall i | 0 <= i < |t|
      ensures t[i] != '\n'
    {
      var j := i + |line| - |l|;
      if j < |line| - 1 {
        assert line[..|line| - 1][j] == t[i];
      }
    }
  }

  lemma ApplyLineKeepsWellFormed(c: Config, line: string)
    requires WellFormed(c) && '\0' !in line && line != [] && '\n' !in line[..|line| - 1]
    ensures WellFormed(ApplyLine(c, line))
  {
    hide Store, WellFormed;
    TrimDropsLastNewline(line);
    TrimBounds(line);
    var cursor := TrimText(line);
    if cursor != [] && cursor[0] != '#' && IndexOf(cursor, '=').Some? {
      var rest := cursor[IndexOf(cursor, '=').value + 1..];
      TrimBounds(rest);
      StoreKeepsWellFormed(c, TrimText(cursor[..IndexOf(cursor, '=').value]), TrimText(rest));
    }
  }

  /** Whatever is in the file. */
  lemma {:induction false} LoadKeepsWellFormed(c: Config, content: string)
    requires WellFormed(c)
    ensures WellFormed(LoadText(c, content))
    decreases |content|
  {
    hide WellFormed, ApplyLine;
    if content != [] {
      var n := LineLength(content);
      NewlineOnlyAtEnd(content);
      var line := CText(content[..n]);
      if line == [] {
        BlankLine(c);
      } else {
        assert line[..|line| - 1] <= content[..n - 1];
        ApplyLineKeepsWellFormed(c, line);
      }
      LoadKeepsWellFormed(ApplyLine(c, line), content[n..]);
    }
  }

  lemma BlankLine(c: Config)
    ensures ApplyLine(c, []) == c
  {
  }

  lemma DefaultNamesAreFields()
    ensures FieldOk("local", MODE_MAX) && FieldOk("default", VALUE_MAX)
    ensures FieldOk("/var/lib/local-ai-assistant", VALUE_MAX)
    ensures FieldOk("http://127.0.0.1:8178", VALUE_MAX) && FieldOk("http://127.0.0.1:8080/v1", VALUE_MAX)
  {
  }

  lemma DefaultModelIsAField()
    ensures FieldOk("SmolLM2-1.7B-Instruct-Q4_K_M", VALUE_MAX)
  {
  }

  lemma DefaultPromptIsAField()
    ensures FieldOk("/etc/local-ai-assistant/system_prompt.txt", VALUE_MAX)
  {
  }

  lemma DefaultVoiceIsAField()
    ensures FieldOk("/usr/local/bin/piper", VALUE_MAX) && FieldOk("/opt/models/piper-voice.onnx", VALUE_MAX)
  {
  }

  lemma DefaultsAreWellFormed()
    ensures WellFormed(DEFAULTS)
  {
    hide FieldOk;
    DefaultNamesAreFields();
    DefaultModelIsAField();
    DefaultPromptIsAField();
    DefaultVoiceIsAField();
  }

  lemma FieldIsCarried(s: string, size: nat)
    requires FieldOk(s, size)
    ensures Carried(s, size)
  {
  }

  lemma WellFormedIsCarried(c: Config)
    requires WellFormed(c) && IsInt32(c.vadAggressiveness) && IsInt32(c.vadSilenceMs)
    ensures Representable(c) && NewlinesTrail(c)
  {
    hide FieldOk, TrimRight, InArray;
    FieldIsCarried(c.assistantMode, MODE_MAX);
    FieldIsCarried(c.runtimeDir, VALUE_MAX);
    FieldIsCarried(c.audioCaptureDevice, VALUE_MAX);
    FieldIsCarried(c.audioPlaybackDevice, VALUE_MAX);
    FieldIsCarried(c.sttApiBaseUrl, VALUE_MAX);
    FieldIsCarried(c.llmApiBaseUrl, VALUE_MAX);
    FieldIsCarried(c.llmModel, VALUE_MAX);
    FieldIsCarried(c.llmSystemPromptPath, VALUE_MAX);
    FieldIsCarried(c.ttsBin, VALUE_MAX);
    FieldIsCarried(c.ttsVoicePath, VALUE_MAX);
  }

  /** So whatever configuration file the daemon has read over its defaults, the dump of the result
      loads back to it, trimmed. */
  lemma LoadedFileComesBack(c0: Config, content: string)
    requires var c := LoadText(DEFAULTS, content); IsInt32(c.vadAggressiveness) && IsInt32(c.vadSilenceMs)
    ensures LoadText(c0, Dump(LoadText(DEFAULTS, content))) == Trimmed(LoadText(DEFAULTS, content))
  {
    hide LoadText, Dump, WellFormed, Representable, NewlinesTrail, Trimmed;
    DefaultsAreWellFormed();
    LoadKeepsWellFormed(DEFAULTS, content);
    WellFormedIsCarried(LoadText(DEFAULTS, content));
    LoadOfDump(c0, LoadText(DEFAULTS, content));
  }
}
