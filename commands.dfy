/**
 * The commands of the tool, step by step as the program runs them: read the
 * path file, check and change the list, write the file back when it changed.
 * The path file is `Some(text)` when it exists and `None` when it does not;
 * whether a path is an existing directory is asked of the oracle `isDir`.
 */
module Commands {
  import opened Errors
  import opened Positions
  import opened Store
  import opened Prompt
  import opened Engine

  /** What restore did, when the position was in the list. */
  datatype Restored =
    | ChangeDir(command: string)                       // the line for the shell wrapper
    | StaleKept(notice: Error)                         // a stale entry the user kept
    | StaleRemoved(notice: Error, deletion: Deletion)  // a stale entry the user removed

  /** The selected entry of the path file is not a directory any more. */
  predicate StaleSelected(file: Option<string>, id: nat, isDir: string -> bool) {
    file.Some? && id < |ReadLines(file.value)| && !isDir(ReadLines(file.value)[id])
  }

  /** Formats the first `n` entries as rows, stale ones tagged. */
  method PrintLines(lines: seq<string>, n: nat, isDir: string -> bool) returns (rows: seq<string>)
    requires n <= |lines|
    ensures |rows| == n && Shows(rows, lines, isDir)
  {
    ghost var want := seq(n, k requires 0 <= k < n => Row(k, lines[k], isDir(lines[k])));
    rows := [];
    for i := 0 to n
      invariant rows == want[..i]
    {
      rows := rows + [Row(i, lines[i], isDir(lines[i]))];
      assert rows == want[..i + 1];
    }
    assert rows == want;
  }

  /** `list [length]`: all rows, or the first `length`; a length over the list warns and is clamped. */
  method List(file: Option<string>, length: Option<nat>, isDir: string -> bool)
    returns (r: Result<seq<string>>, warning: Option<Warn>)
    ensures file.None? ==> r == Err(NoPathFile) && warning == None
    ensures file.Some? ==> var lines := ReadLines(file.value);
      r.Ok? && Shows(r.value, lines, isDir) &&
      |r.value| == (if length.Some? && length.value < |lines| then length.value else |lines|)
    ensures file.Some? ==> var lines := ReadLines(file.value);
      (warning.Some? <==> length.Some? && length.value > |lines|) &&
      (warning.Some? ==> warning.value == InvalidLengthValue(length.value, |lines|))
  {
    var loaded := Load(file);
    if loaded.Err? {
      return Err(loaded.error), None;
    }
    var lines := loaded.value;
    var nLines := |lines|;
    var n := if length.Some? then length.value else nLines;
    warning := None;
    if n > nLines {
      warning := Some(InvalidLengthValue(n, nLines));
      n := nLines;
    }
    var rows := PrintLines(lines, n, isDir);
    r := Ok(rows);
  }

  /** `l`: at most the first five rows, without a warning. */
  method ShortList(file: Option<string>, isDir: string -> bool) returns (r: Result<seq<string>>)
    ensures file.None? ==> r == Err(NoPathFile)
    ensures file.Some? ==> var lines := ReadLines(file.value);
      r.Ok? && Shows(r.value, lines, isDir) &&
      |r.value| == (if |lines| < ShortListLinesLimit then |lines| else ShortListLinesLimit)
  {
    var loaded := Load(file);
    if loaded.Err? {
      return Err(loaded.error);
    }
    var lines := loaded.value;
    var n := if |lines| < ShortListLinesLimit then |lines| else ShortListLinesLimit;
    var rows := PrintLines(lines, n, isDir);
    r := Ok(rows);
  }

  /**
   * `save <path> [pos]`: the argument checks come before the path file is read;
   * the list then changes as Upsert says, and is written only when that succeeds.
   */
  method Save(file: Option<string>, path: Option<string>, pos: Option<nat>, isDir: string -> bool)
    returns (r: Result<Saved>, file': Option<string>)
    requires pos.Some? ==> ValidPos(pos.value)
    ensures path.None? ==> r == Err(NoPathArg)
    ensures path.Some? && !isDir(path.value) ==> r == Err(PathIsNotDir(path.value))
    ensures path.Some? && isDir(path.value) && file.None? ==> r == Err(NoPathFile)
    ensures path.Some? && isDir(path.value) && file.Some? ==>
      r == Upsert(ReadLines(file.value), path.value, ResolveId(pos))
    ensures r.Err? ==> file' == file
    ensures r.Ok? ==> file' == Some(Serialize(r.value.lines))
  {
    var id := ResolveId(pos);
    if path.None? {
      return Err(NoPathArg), file;
    }
    var p := path.value;
    if !isDir(p) {
      return Err(PathIsNotDir(p)), file;
    }
    var loaded := Load(file);
    if loaded.Err? {
      return Err(loaded.error), file;
    }
    var lines := loaded.value;
    var nLines := |lines|;
    var existing := IndexOf(lines, p);
    if existing.Some? {
      if id >= nLines {
        return Err(InvalidPosValue(id, nLines)), file;
      }
      if existing.value == id {
        return Err(IdenticalPathPos(p)), file;
      }
      lines := RemoveAt(lines, existing.value);
    } else {
      if id > nLines {
        return Err(InvalidPosValue(id, nLines)), file;
      }
      if nLines >= SavedPathsLimitP1 {
        return Err(PathLimitReached), file;
      }
    }
    lines := InsertAt(lines, id, p);
    var text := SaveLines(lines);
    file' := Some(text);
    var effect := if existing.Some? then Moved(existing.value, id) else Added(id);
    r := Ok(Saved(effect, lines));
  }

  /** `delete <pos>`: removes the entry at the position and writes the list, as Removal says. */
  method Delete(file: Option<string>, pos: nat) returns (r: Result<Deletion>, file': Option<string>)
    requires ValidPos(pos)
    ensures file.None? ==> r == Err(NoPathFile)
    ensures file.Some? ==> r == Removal(ReadLines(file.value), PosToId(pos))
    ensures r.Err? ==> file' == file
    ensures r.Ok? ==> file' == Some(Serialize(r.value.lines))
  {
    var id := PosToId(pos);
    var loaded := Load(file);
    if loaded.Err? {
      return Err(loaded.error), file;
    }
    var lines := loaded.value;
    if id >= |lines| {
      return Err(InvalidPosValue(id, |lines|)), file;
    }
    var p := lines[id];
    lines := RemoveAt(lines, id);
    var text := SaveLines(lines);
    r, file' := Ok(Deletion(id, p, lines)), Some(text);
  }

  /**
   * Asks whether to remove the stale entry at `id`, one reply at a time, until a
   * reply says yes or no; `used` is the index of that reply.
   */
  method AskToRemove(id: nat, lines: seq<string>, replies: seq<string>, file: Option<string>)
    returns (removed: Option<Deletion>, file': Option<string>, used: nat)
    requires id < |lines|
    requires Decisive(replies)
    ensures used == FirstDecisive(replies)
    ensures removed.Some? <==> Classify(replies[used]) == Yes
    ensures removed.Some? ==> Ok(removed.value) == Removal(lines, id)
    ensures removed.Some? ==> file' == Some(Serialize(removed.value.lines))
    ensures removed.None? ==> file' == file
  {
    removed, file', used := None, file, 0;
    while true
      invariant used <= FirstDecisive(replies)
      decreases |replies| - used
    {
      var answer := Classify(replies[used]);
      if answer == Yes {
        var p := lines[id];
        var rest := RemoveAt(lines, id);
        var text := SaveLines(rest);
        removed, file' := Some(Deletion(id, p, rest)), Some(text);
        return;
      } else if answer == No {
        return;
      }
      used := used + 1;
    }
  }

  /**
   * `restore [pos]`: the entry at the position is handed to the shell wrapper; a
   * stale one is reported and offered for removal, and restore still succeeds.
   */
  method Restore(file: Option<string>, pos: Option<nat>, verbose: bool, isDir: string -> bool,
                 replies: seq<string>)
    returns (r: Result<Restored>, file': Option<string>)
    requires pos.Some? ==> ValidPos(pos.value)
    requires StaleSelected(file, ResolveId(pos), isDir) ==> Decisive(replies)
    ensures file.None? ==> r == Err(NoPathFile)
    ensures file.Some? ==> var lines, id := ReadLines(file.value), ResolveId(pos);
      id >= |lines| ==> r == Err(InvalidPosValue(id, |lines|))
    ensures file.Some? ==> var lines, id := ReadLines(file.value), ResolveId(pos);
      id < |lines| && isDir(lines[id]) ==>
        r == Ok(ChangeDir((if verbose then "CHDIRV " else "CHDIR ") + lines[id]))
    ensures StaleSelected(file, ResolveId(pos), isDir) ==>
      var lines, id := ReadLines(file.value), ResolveId(pos);
      r.Ok? && !r.value.ChangeDir? && r.value.notice == PathIsNotDir(lines[id]) &&
      (r.value.StaleRemoved? <==> Classify(replies[FirstDecisive(replies)]) == Yes) &&
      (r.value.StaleRemoved? ==> Ok(r.value.deletion) == Removal(lines, id))
    ensures r.Ok? && r.value.StaleRemoved? ==> file' == Some(Serialize(r.value.deletion.lines))
    ensures !(r.Ok? && r.value.StaleRemoved?) ==> file' == file
  {
    var id := ResolveId(pos);
    var loaded := Load(file);
    if loaded.Err? {
      return Err(loaded.error), file;
    }
    var lines := loaded.value;
    if id >= |lines| {
      return Err(InvalidPosValue(id, |lines|)), file;
    }
    var line := lines[id];
    if !isDir(line) {
      var notice := PathIsNotDir(line);
      var removed, written, _ := AskToRemove(id, lines, replies, file);
      if removed.Some? {
        return Ok(StaleRemoved(notice, removed.value)), written;
      }
      return Ok(StaleKept(notice)), file;
    }
    if verbose {
      r := Ok(ChangeDir("CHDIRV " + line));
    } else {
      r := Ok(ChangeDir("CHDIR " + line));
    }
    file' := file;
  }
}
