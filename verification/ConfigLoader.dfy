/** config.c as it runs: fgets into a line buffer, trimming in place by writing NULs, and one
    field of the configuration overwritten per recognised line. */
module ConfigLoaders {
  import opened Base
  import opened Configs

  /** A NUL-terminated string inside a buffer. */
  ghost predicate HasText(buffer: seq<char>, at: nat, text: string) {
    at + |text| < |buffer| && buffer[at..at + |text|] == text && '\0' !in text && buffer[at + |text|] == '\0'
  }

  lemma CharAt(buffer: seq<char>, at: nat, text: string, i: nat)
    requires HasText(buffer, at, text) && i <= |text|
    ensures buffer[at + i] == '\0' <==> i == |text|
    ensures i < |text| ==> buffer[at + i] == text[i]
  {
    if i < |text| {
      assert buffer[at..at + |text|][i] == text[i];
    }
  }

  /** strlen */
  method Length(buffer: array<char>, at: nat, ghost text: string) returns (n: nat)
    requires HasText(buffer[..], at, text)
    ensures n == |text|
  {
    n := 0;
    while buffer[at + n] != '\0'
      invariant n <= |text|
      decreases |text| - n
    {
      CharAt(buffer[..], at, text, n);
      n := n + 1;
    }
    CharAt(buffer[..], at, text, n);
  }

  /** strchr */
  method Find(buffer: array<char>, at: nat, c: char, ghost text: string) returns (index: Option<nat>)
    requires HasText(buffer[..], at, text) && c != '\0'
    ensures index == IndexOf(text, c)
  {
    var i := 0;
    while buffer[at + i] != '\0'
      invariant i <= |text| && c !in text[..i]
      decreases |text| - i
    {
      CharAt(buffer[..], at, text, i);
      if buffer[at + i] == c {
        FirstIndex(text, c, i);
        return Some(i);
      }
      i := i + 1;
    }
    CharAt(buffer[..], at, text, i);
    assert text[..i] == text;
    return None;
  }

  lemma FirstIndex(text: string, c: char, i: nat)
    requires i < |text| && text[i] == c && c !in text[..i]
    ensures IndexOf(text, c) == Some(i)
  {
    assert text == text[..i] + [c] + text[i + 1..];
    IndexOfFirst(text[..i], c, text[i + 1..]);
  }

  /** trim: skip leading space, then overwrite trailing space with NULs. Nothing outside the
      string changes. */
  method Trim(buffer: array<char>, at: nat, ghost text: string) returns (start: nat)
    requires HasText(buffer[..], at, text)
    modifies buffer
    ensures at <= start <= at + |text|
    ensures HasText(buffer[..], start, TrimText(text))
    ensures forall j :: 0 <= j < buffer.Length && (j < at || j >= at + |text|) ==> buffer[j] == old(buffer[j])
  {
    start := SkipSpace(buffer, at, text);
    ghost var rest := TrimLeft(text);
    if buffer[start] == '\0' {
      return;
    }
    TrimLeftIsSuffix(text);
    CutSpace(buffer, start, rest);
  }

  method SkipSpace(buffer: array<char>, at: nat, ghost text: string) returns (start: nat)
    requires HasText(buffer[..], at, text)
    ensures at <= start && start + |TrimLeft(text)| == at + |text| && HasText(buffer[..], start, TrimLeft(text))
    ensures buffer[start] == '\0' <==> TrimLeft(text) == []
    ensures TrimLeft(text) == [] ==> TrimText(text) == []
  {
    start := at;
    while buffer[start] != '\0' && IsSpace(buffer[start])
      invariant at <= start <= at + |text|
      invariant HasText(buffer[..], start, text[start - at..])
      invariant TrimLeft(text) == TrimLeft(text[start - at..])
      decreases at + |text| - start
    {
      assert buffer[start] == text[start - at..][0];
      assert text[start - at..][1..] == text[start + 1 - at..];
      start := start + 1;
    }
    assert text[start - at..] != [] ==> buffer[start] == text[start - at..][0];
  }

  method CutSpace(buffer: array<char>, start: nat, ghost text: string)
    requires HasText(buffer[..], start, text) && text != [] && !IsSpace(text[0])
    modifies buffer
    ensures HasText(buffer[..], start, TrimRight(text))
    ensures forall j :: 0 <= j < buffer.Length && (j < start || j >= start + |text|) ==> buffer[j] == old(buffer[j])
  {
    var n := Length(buffer, start, text);
    var end := start + n - 1;
    while end > start && IsSpace(buffer[end])
      invariant start <= end < start + |text|
      invariant HasText(buffer[..], start, text[..end - start + 1])
      invariant TrimRight(text) == TrimRight(text[..end - start + 1])
      invariant forall j :: 0 <= j < buffer.Length && (j < start || j >= start + |text|) ==> buffer[j] == old(buffer[j])
    {
      ghost var kept := text[..end - start + 1];
      assert buffer[end] == kept[|kept| - 1];
      buffer[end] := '\0';
      end := end - 1;
      assert text[..end - start + 1] == kept[..|kept| - 1];
    }
    ghost var kept := text[..end - start + 1];
    assert buffer[end] == kept[|kept| - 1];
  }

  /** fgets: the next line, or as much of it as the buffer takes, and a NUL. */
  method GetLine(content: string, position: nat, line: array<char>) returns (next: nat)
    requires position < |content| && line.Length == LINE_MAX
    modifies line
    ensures next == position + LineLength(content[position..])
    ensures HasText(line[..], 0, CText(content[position..next]))
  {
    var chunk := content[position..];
    var n := LineLength(chunk);
    forall i | 0 <= i < n {
      line[i] := chunk[i];
    }
    line[n] := '\0';
    next := position + n;
    assert content[position..next] == chunk[..n];
    ghost var text := CText(chunk[..n]);
    assert line[..|text|] == text;
  }

  /** The text at `at`, as strcmp and snprintf read it. */
  method ReadText(buffer: array<char>, at: nat, ghost text: string) returns (copy: string)
    requires HasText(buffer[..], at, text)
    ensures copy == text
  {
    var n := Length(buffer, at, text);
    copy := buffer[at..at + n];
  }

  class ConfigStore {
    var value: Config

    constructor ()
      ensures value == DEFAULTS
    {
      value := DEFAULTS;
    }

    /** The loop body of assistantd_config_load_file on one line in the buffer. */
    method UseLine(line: array<char>, ghost text: string)
      requires HasText(line[..], 0, text)
      modifies this, line
      ensures value == ApplyLine(old(value), text)
    {
      hide TrimText, Store;
      var cursor := Trim(line, 0, text);
      ghost var shown := TrimText(text);
      CharAt(line[..], cursor, shown, 0);
      if line[cursor] == '\0' || line[cursor] == '#' {
        return;
      }
      var equals := Find(line, cursor, '=', shown);
      if equals.None? {
        return;
      }
      UsePair(line, cursor, shown, equals.value);
    }

    /** A line split at its first '='. */
    method UsePair(line: array<char>, cursor: nat, ghost shown: string, equals: nat)
      requires HasText(line[..], cursor, shown) && equals < |shown|
      modifies this, line
      ensures value == Store(old(value), TrimText(shown[..equals]), TrimText(shown[equals + 1..]))
    {
      hide TrimText, Store;
      SplitText(line[..], cursor, shown, equals);
      line[cursor + equals] := '\0';
      ghost var rest := shown[equals + 1..];
      var after := cursor + equals + 1;
      assert line[after..after + |rest|] == rest;
      assert line[cursor..cursor + equals] == shown[..equals];
      var keyAt := Trim(line, cursor, shown[..equals]);
      var key := ReadText(line, keyAt, TrimText(shown[..equals]));
      assert line[after..after + |rest|] == rest;
      var valueAt := Trim(line, after, rest);
      var text := ReadText(line, valueAt, TrimText(rest));
      value := Store(value, key, text);
    }

    /** assistantd_config_load_file; None when the file cannot be opened. */
    method LoadFile(file: Option<string>) returns (status: Status)
      modifies this
      ensures status == if file.Some? then Ok else IoError
      ensures value == if file.Some? then LoadText(old(value), file.value) else old(value)
    {
      hide ApplyLine, LineLength, CText;
      if file.None? {
        return IoError;
      }
      var content := file.value;
      var line := new char[LINE_MAX](_ => '\0');
      var position := 0;
      while position < |content|
        invariant position <= |content|
        invariant LoadText(value, content[position..]) == LoadText(old(value), content)
      {
        var next := GetLine(content, position, line);
        ghost var rest := content[position..];
        assert rest[..next - position] == content[position..next] && rest[next - position..] == content[next..];
        UseLine(line, CText(content[position..next]));
        position := next;
      }
      return Ok;
    }
  }

  lemma SplitText(buffer: seq<char>, at: nat, text: string, i: nat)
    requires HasText(buffer, at, text) && i < |text|
    ensures '\0' !in text[..i] && '\0' !in text[i + 1..]
    ensures buffer[at..at + i] == text[..i] && buffer[at + i + 1..at + |text|] == text[i + 1..]
  {
    assert buffer[at..at + |text|][..i] == buffer[at..at + i];
    assert buffer[at..at + |text|][i + 1..] == buffer[at + i + 1..at + |text|];
  }
}
