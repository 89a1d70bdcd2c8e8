/** The backing file: one saved path per line. */
module Store {
  import opened Errors

  /** A list entry that is written and read back unchanged. */
  predicate Storable(line: string) {
    line != [] && '\n' !in line && line[|line| - 1] != '\r'
  }

  /** An entry that survives a write and a read, apart from being dropped when empty. */
  predicate LineSafe(line: string) {
    '\n' !in line && (line == [] || line[|line| - 1] != '\r')
  }

  /** Removes the carriage return of a "\r\n" line ending: one trailing "\r", and nothing else. */
  function StripCr(line: string): (r: string)
    ensures line != [] && line[|line| - 1] == '\r' ==> r + "\r" == line
    ensures line == [] || line[|line| - 1] != '\r' ==> r == line
  {
    if line != [] && line[|line| - 1] == '\r' then line[..|line| - 1] else line
  }

  /** An empty line is dropped; any other line is kept as it is. */
  function Keep(line: string): (r: seq<string>)
    ensures |r| <= 1 && (r == [] <==> line == [])
    ensures forall i :: 0 <= i < |r| ==> r[i] == line
  {
    if line == [] then [] else [line]
  }

  /**
   * Splits `text` into lines and drops the empty ones; `cur` is the part of the
   * current line read so far. A line ended by "\n" loses one trailing "\r"; the
   * last line, when nothing ends it, keeps it.
   */
  function ParseLines(text: string, cur: string): (r: seq<string>)
    requires '\n' !in cur
    ensures forall i :: 0 <= i < |r| ==> r[i] != [] && '\n' !in r[i]
    decreases |text|
  {
    if text == [] then Keep(cur)
    else if text[0] == '\n' then Keep(StripCr(cur)) + ParseLines(text[1..], [])
    else ParseLines(text[1..], cur + [text[0]])
  }

  /** The saved paths in the backing file's text, in file order, without empty lines. */
  function ReadLines(text: string): (r: seq<string>)
    ensures forall i :: 0 <= i < |r| ==> r[i] != [] && '\n' !in r[i]
  {
    ParseLines(text, [])
  }

  /**
   * The text the list is written as: every entry followed by a line feed, so
   * an empty list is an empty file and any other text ends in a line feed.
   */
  function Serialize(lines: seq<string>): (text: string)
    ensures text == [] <==> lines == []
    ensures lines != [] ==> text[|text| - 1] == '\n'
  {
    if lines == [] then [] else lines[0] + "\n" + Serialize(lines[1..])
  }

  /** The same list written with "\r\n" line endings. */
  function SerializeCrLf(lines: seq<string>): string {
    if lines == [] then [] else lines[0] + "\r\n" + SerializeCrLf(lines[1..])
  }

  /** The entries that are not empty, in their order. */
  function NonEmpty(lines: seq<string>): (r: seq<string>)
    ensures |r| <= |lines|
  {
    if lines == [] then []
    else if lines[0] == [] then NonEmpty(lines[1..])
    else [lines[0]] + NonEmpty(lines[1..])
  }

  /** Reading the path file: a missing file is an error, otherwise its lines. */
  function Load(file: Option<string>): (r: Result<seq<string>>)
    ensures r == Err(NoPathFile) <==> file.None?
    ensures r.Ok? ==> forall i :: 0 <= i < |r.value| ==> r.value[i] != [] && '\n' !in r.value[i]
  {
    match file
    case None => Err(NoPathFile)
    case Some(text) => Ok(ReadLines(text))
  }

  /** Writes the list: each entry is followed by a line feed. */
  method SaveLines(lines: seq<string>) returns (text: string)
    ensures text == Serialize(lines)
    ensures (forall i :: 0 <= i < |lines| ==> Storable(lines[i])) ==> ReadLines(text) == lines
  {
    text := [];
    for i := 0 to |lines|
      invariant text + Serialize(lines[i..]) == Serialize(lines)
    {
      assert lines[i..][1..] == lines[i + 1..];
      text := text + lines[i] + "\n";
    }
    assert lines[|lines|..] == [];
    if forall i :: 0 <= i < |lines| ==> Storable(lines[i]) {
      RoundTrip(lines);
    }
  }

  /** Reading a line followed by "\n" completes the current line and starts a new one. */
  lemma {:induction false} ParseLine(line: string, rest: string, cur: string)
    requires '\n' !in cur && '\n' !in line
    ensures ParseLines(line + "\n" + rest, cur) == Keep(StripCr(cur + line)) + ParseLines(rest, [])
    decreases |line|
  {
    if line == [] {
      assert line + "\n" + rest == "\n" + rest;
      assert cur + line == cur;
    } else {
      var text := line + "\n" + rest;
      assert text[0] == line[0];
      assert text[1..] == line[1..] + "\n" + rest;
      assert cur + [line[0]] + line[1..] == cur + line;
      ParseLine(line[1..], rest, cur + [line[0]]);
    }
  }

  /** Reading written text gives back the non-empty entries, in order. */
  lemma {:induction false} ReadSerialized(lines: seq<string>)
    requires forall i :: 0 <= i < |lines| ==> LineSafe(lines[i])
    ensures ReadLines(Serialize(lines)) == NonEmpty(lines)
    decreases |lines|
  {
    if lines != [] {
      assert LineSafe(lines[0]);
      ReadSerialized(lines[1..]);
      ParseLine(lines[0], Serialize(lines[1..]), []);
      assert [] + lines[0] == lines[0];
    }
  }

  /** A safe entry followed by "\n" is read as itself, unless it is empty. */
  lemma ReadSafeLine(line: string, rest: string)
    requires LineSafe(line)
    ensures ReadLines(line + "\n" + rest) == Keep(line) + ReadLines(rest)
  {
    ParseLine(line, rest, []);
    assert [] + line == line;
  }

  /** Text without a line feed is the rest of the current line. */
  lemma {:induction false} ParseUnterminated(text: string, cur: string)
    requires '\n' !in cur && '\n' !in text
    ensures ParseLines(text, cur) == Keep(cur + text)
    decreases |text|
  {
    if text == [] {
      assert cur + text == cur;
    } else {
      assert cur + [text[0]] + text[1..] == cur + text;
      ParseUnterminated(text[1..], cur + [text[0]]);
    }
  }

  /**
   * Reading written text followed by a last line that nothing ends gives the
   * non-empty entries and then that line, "\r" included.
   */
  lemma {:induction false} ReadUnterminatedLast(lines: seq<string>, last: string)
    requires forall i :: 0 <= i < |lines| ==> LineSafe(lines[i])
    requires '\n' !in last
    ensures ReadLines(Serialize(lines) + last) == NonEmpty(lines) + Keep(last)
    decreases |lines|
  {
    if lines == [] {
      assert Serialize(lines) + last == last;
      ParseUnterminated(last, []);
      assert [] + last == last;
    } else {
      var rest := Serialize(lines[1..]) + last;
      assert Serialize(lines) + last == lines[0] + "\n" + rest;
      assert LineSafe(lines[0]);
      ReadUnterminatedLast(lines[1..], last);
      ReadSafeLine(lines[0], rest);
      assert NonEmpty(lines) == Keep(lines[0]) + NonEmpty(lines[1..]);
    }
  }

  /** Reading text written with "\r\n" endings gives back the non-empty entries, without the "\r". */
  lemma {:induction false} ReadCrLfSerialized(lines: seq<string>)
    requires forall i :: 0 <= i < |lines| ==> LineSafe(lines[i])
    ensures ReadLines(SerializeCrLf(lines)) == NonEmpty(lines)
    decreases |lines|
  {
    if lines != [] {
      var line := lines[0] + "\r";
      assert LineSafe(lines[0]);
      ReadCrLfSerialized(lines[1..]);
      assert SerializeCrLf(lines) == line + "\n" + SerializeCrLf(lines[1..]);
      ParseLine(line, SerializeCrLf(lines[1..]), []);
      assert [] + line == line;
      assert StripCr(line) == lines[0];
    }
  }

  /** Writing a list of storable entries and reading it back gives the same list. */
  lemma RoundTrip(lines: seq<string>)
    requires forall i :: 0 <= i < |lines| ==> Storable(lines[i])
    ensures ReadLines(Serialize(lines)) == lines
  {
    ReadSerialized(lines);
    NonEmptyOfNonEmpty(lines);
  }

  lemma {:induction false} NonEmptyOfNonEmpty(lines: seq<string>)
    requires forall i :: 0 <= i < |lines| ==> lines[i] != []
    ensures NonEmpty(lines) == lines
    decreases |lines|
  {
    if lines != [] {
      NonEmptyOfNonEmpty(lines[1..]);
    }
  }
}
