# workdir: a verified model of the positional path list

`workdir` is a "jump list" for the shell. It keeps an ordered list of directory
paths in a text file, one path per line; index 0 is position 1. A shell wrapper
function calls it: `save` stores or moves the current directory, `delete`
removes a position, `list` and `l` show the rows, and `restore` prints
`CHDIR <path>` (or `CHDIRV <path>` when verbose), which the wrapper turns into a
`cd`. This project models that engine in Dafny and proves its properties.

Modules, in dependency order:

- `Errors` (errors.dfy): `Option`, `Result`, the error variants and the listing warning.
- `Positions` (positions.dfy): the limits, position/index conversion, the decimal
  label `[pos]`, `fmt_id`/`fmt_path`, and `ParseRow`, an inverse of `fmt_path`
  used to state what a row says.
- `Store` (store.dfy): the file format. `ReadLines` parses text the way it is read
  (split into lines, drop empty ones). `Serialize`/`SaveLines` write it (each
  entry followed by `\n`). `Load` turns a missing file into `NoPathFile`.
- `Prompt` (prompt.dfy): the rule that turns one reply to "Remove from list?"
  into yes, no or ask again.
- `Engine` (engine.dfy): the list operations as functions (`Upsert` for save,
  `Removal` for delete, `Row` for a listing row) and the lemmas about them.
- `Commands` (commands.dfy): the commands as the program runs them, as methods.
  Each one reads the path file, checks and updates a local list, and writes the
  file back only on success. Each is proved against the `Engine` functions.

How the environment is modelled:

- The path file is an `Option<string>`: `None` means the file does not exist.
  A write replaces it with `Some(Serialize(list))`.
- "Is this path a directory" is an oracle parameter `isDir: string -> bool`.
- The user's replies to the prompt are a sequence of input lines.
- Output rows and the `CHDIR` line are returned as strings.

The model follows the code on these points:

- A fresh save is refused only when the list already holds 20 paths
  (`n_lines >= 20`), so the list can reach 20 entries. The command line only
  accepts positions 1 to 19. An entry at position 20 can still be moved by
  saving its path again, but no position addresses it.
- Restoring a stale entry prints an error, runs the removal prompt and then
  succeeds. Only a reply whose first non-whitespace character is `y`/`Y`
  removes the entry.
- For a path already in the list, the bounds check `id >= len` comes before
  the same-position check. The order cannot be observed, because the existing
  index is always below `len`.
- A length above the list size makes `list` print a warning and clamp the
  count. It is not an error.
- `delete` without a position panics rather than returning an error. The model
  takes the position as a required argument.

Line splitting follows the standard library's `str::lines`:

- A line ended by `\n` loses one trailing `\r`.
- A final line with no `\n` after it keeps its `\r`.

So an entry survives a write and a read unchanged exactly when it is non-empty,
has no `\n` and does not end in `\r` (`Store.Storable`).

## Model

| member | source | states |
|---|---|---|
| `Positions.ValidPos` | src/main.rs:97-135 | a position the command line accepts (1 up to the limit, exclusive) is at least 1 and addresses one of the first 19 indices |
| `Positions.PosToId` | src/main.rs:445-447 | the index it gives converts back to the same position |
| `Positions.IdToPos` | src/main.rs:450-452 | every index has a position of at least 1 |
| `Positions.IdPosRoundTrip` | src/main.rs:445-452 | converting an index to a position and back gives the index |
| `Positions.ResolveId` | src/main.rs:189 | no position selects index 0; position p selects the index whose position is p; a position the command line accepts gives an index below 19 |
| `Positions.Decimal` | src/main.rs:456 | a position is written as one or more decimal digits with no leading zero |
| `Positions.DecimalRoundTrip` | src/main.rs:456 | the digits written for n read back as n |
| `Positions.FmtId` | src/main.rs:455-458 | the label is `[`, the position in decimal digits without a leading zero, `]`, and its digits read back as the position |
| `Positions.FmtPathRoundTrip` | src/main.rs:455-462 | `fmt_path`'s `"[pos] path"` reads back as exactly that index and that path |
| `Store.StripCr` | src/main.rs:387 | a line that ends in `\r` loses exactly that one `\r`; any other line is left as it is |
| `Store.Keep` | src/main.rs:388 | an empty line is dropped and any other line is kept unchanged, as a list of at most one line |
| `Store.ParseLines` | src/main.rs:385-390 | every line produced is non-empty and holds no line feed |
| `Store.ReadLines` | src/main.rs:381-392 | the parsed list holds only non-empty entries without line feeds |
| `Store.Load` | src/main.rs:381-392 | a missing path file, and nothing else, gives NoPathFile; a loaded list holds only non-empty entries |
| `Store.Serialize` | src/main.rs:401-403 | an empty list is written as an empty file, and any other list as text that ends in a line feed |
| `Store.SaveLines` | src/main.rs:395-406 | the loop writes every entry followed by a line feed, in order; a list of storable entries reads back unchanged |
| `Store.ParseLine` | src/main.rs:387 | a line ended by `\n` completes the current line, minus one `\r`, before anything after it is read |
| `Store.ReadSerialized` | src/main.rs:381-406 | reading written text gives back the non-empty entries in their order, with empty ones dropped |
| `Store.ReadCrLfSerialized` | src/main.rs:385-390 | text whose lines end in `\r\n` reads back as the non-empty entries with the `\r` removed |
| `Store.ReadUnterminatedLast` | src/main.rs:385-390 | a last line that no `\n` ends is read as it is, `\r` included, after the entries before it |
| `Store.RoundTrip` | src/main.rs:381-406 | writing a list of storable entries and reading it back gives the same list |
| `Prompt.TrimStart` | src/main.rs:338 | only leading whitespace is dropped, and the rest starts with a non-whitespace character |
| `Prompt.TrimEnd` | src/main.rs:338 | only trailing whitespace is dropped, and the rest ends with a non-whitespace character |
| `Prompt.Trim` | src/main.rs:338 | nothing is left exactly when the reply is all whitespace; otherwise the result starts with the reply's first non-whitespace character and ends with a non-whitespace one |
| `Prompt.Classify` | src/main.rs:338-356 | a reply means yes exactly when its first non-whitespace character is `y`/`Y`, and no exactly when it is `n`/`N`; a blank reply asks again |
| `Prompt.FirstSettled` | src/main.rs:324-364 | the first answer that is not "ask again", with every earlier answer being "ask again" |
| `Prompt.FirstDecisive` | src/main.rs:324-364 | the reply that settles the prompt is a yes or a no, and every earlier reply asked again |
| `Engine.InsertAt` | src/main.rs:236 | the new path is at the index, earlier entries stay, later ones shift right by one, and the multiset gains exactly that path |
| `Engine.RemoveAt` | src/main.rs:219 | the entry at the index is gone, earlier entries stay, later ones shift left by one, and the multiset loses exactly that entry |
| `Engine.IndexOf` | src/main.rs:203 | it finds the first copy of the path, and finds none exactly when the path is not saved |
| `Engine.Row` | src/main.rs:372-375 | a row starts with the labelled path, and ends in the extra ` [*]` exactly when the path is not a directory |
| `Engine.RowLabel` | src/main.rs:368-378 | a row reads back as its index and the path, with ` [*]` after a stale path |
| `Engine.Upsert` | src/main.rs:203-236 | on success the path is at the index, the multiset of paths gains it only when it was not saved, and the list grows by at most one and only below 20 entries; the only errors are InvalidPosValue, IdenticalPathPos and PathLimitReached |
| `Engine.UpsertErrors` | src/main.rs:205-233 | each save error holds exactly under its condition: InvalidPosValue for a saved path with id >= len or a new path with id > len; IdenticalPathPos for a move onto the path's first copy; PathLimitReached for a new path at a valid index with len >= 20 |
| `Engine.UpsertAdds` | src/main.rs:221-236 | a new path at id <= len < 20 grows the list by one, lands at id, keeps the entries before id, and shifts the rest right |
| `Engine.UpsertMoves` | src/main.rs:205-220 | a saved path at ex != id with id < len moves to id at any list size; the length and multiset stay the same and the other entries keep their order |
| `Engine.RemoveInserted` | src/main.rs:219 | removing at an index undoes an insert at that index |
| `Engine.InsertRemoved` | src/main.rs:236 | inserting the removed entry at its index undoes a removal |
| `Engine.InsertKeepsNoDup` | src/main.rs:236 | inserting a path that is not saved keeps the list free of duplicates |
| `Engine.RemoveKeepsNoDup` | src/main.rs:219 | removal keeps the list free of duplicates, and the removed path no longer appears |
| `Engine.UpsertKeepsInvariants` | src/main.rs:203-236 | after a successful save on a list without duplicates, there are still none, the path appears exactly once, and a list within 20 entries stays within 20 |
| `Engine.IndexOfNoDup` | src/main.rs:203 | in a list without duplicates an entry is the first copy of its path |
| `Engine.UpsertTwiceRefused` | src/main.rs:209-216 | repeating a successful save with the same path and position fails with IdenticalPathPos |
| `Engine.UpsertMoveUndone` | src/main.rs:205-236 | moving the path back to its old index restores the original list |
| `Engine.Removal` | src/main.rs:289-297 | delete fails exactly when id >= len; otherwise it returns the path at id, and the multiset of paths loses exactly that path |
| `Engine.RemovalSpec` | src/main.rs:289-297 | a failed delete reports InvalidPosValue with id and len; a successful one keeps the entries before id and moves the later ones one place left, and keeps the list free of duplicates |
| `Engine.SaveUndoesDelete` | src/main.rs:282-303 | saving a deleted path at its old position restores the list |
| `Engine.DeleteUndoesSave` | src/main.rs:221-236 | deleting a freshly saved path at its index restores the list |
| `Engine.ScenarioFirstSave` | src/main.rs:221-236 | saving `/tmp` into an empty list gives `[/tmp]`, added at index 0 |
| `Engine.ScenarioMoveToFront` | src/main.rs:205-236 | saving `/c` at position 1 of `/a,/b,/c` gives `/c,/a,/b`, moved from index 2 to 0 |
| `Engine.ScenarioDeleteFirst` | src/main.rs:289-297 | deleting position 1 of `/a,/b` removes `/a` and leaves `[/b]` |
| `Commands.PrintLines` | src/main.rs:368-378 | the loop produces exactly n rows, the i-th being entry i labelled with position i+1 and tagged when stale |
| `Commands.List` | src/main.rs:157-172 | shows min(length, len) rows, or all rows without a length, in stored order; warns exactly when the length exceeds len; a missing file is NoPathFile |
| `Commands.ShortList` | src/main.rs:175-183 | shows min(len, 5) rows in stored order |
| `Commands.Save` | src/main.rs:186-246 | NoPathArg, then PathIsNotDir, then NoPathFile are checked before the list; after that the result is what Upsert gives; the file is rewritten with the new list on success and untouched on every error |
| `Commands.Delete` | src/main.rs:282-303 | the result is what Removal gives on the loaded list; the file is rewritten on success and left unchanged on error |
| `Commands.AskToRemove` | src/main.rs:315-365 | the loop stops at the first reply that says yes or no; only a yes removes exactly the entry at id and rewrites the file |
| `Commands.Restore` | src/main.rs:249-279 | an index at or past the end is InvalidPosValue; a directory entry gives `CHDIRV path` when verbose and `CHDIR path` otherwise, with the file unchanged; a stale entry succeeds and removes exactly that entry, and rewrites the file, only when the settling reply is yes |

## Left out

- Command-line parsing with clap (src/main.rs:77-149). The typed results are parameters instead: optional positions 1 to 19 become requires clauses, and the optional length is an `Option<nat>`.
- Coloured output and message text: the `Display` implementations, `print_error`, `print_warning` and `print_ok`. Errors and warnings are plain variants. The `Saved`, `Deletion` and `Restored` values carry the positions and paths that the confirmation messages show.
- Filesystem access. `Path::is_dir` is the `isDir` oracle. Reading and writing the path file are the pure `ReadLines` and `Serialize`. The expansion of `~` in the file path, and the file's location, are not modelled.
- I/O failures: CannotCheckFile, CannotOpenFile, CannotReadFile, CannotReadInput, and the per-line write and flush warnings. They depend on the operating system, not on the list.
- The stdin mechanics of the prompt: flushing, `read_line` and reusing the buffer. The end-of-input panic becomes the precondition `Decisive(replies)`, which applies only when the selected entry is stale.
- The panic when `delete` gets no position. It becomes the required argument `pos: nat`.
- `dump_wrapper`, which prints an embedded shell script.
- Integer widths. Positions are `u8` values from 1 to 19 and indices are `usize`. Within these ranges nothing wraps, so the model uses `nat`.
