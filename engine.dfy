/**
 * The list engine: what save, delete and a listing row are, as functions of the
 * saved list. The commands that run them step by step are in module Commands.
 */
module Engine {
  import opened Errors
  import opened Positions

  /** No path is saved twice. */
  predicate NoDup(s: seq<string>) {
    forall i, j :: 0 <= i < j < |s| ==> s[i] != s[j]
  }

  /** `Vec::insert`: `x` lands at index `i`, the entries from `i` on move one place right. */
  function InsertAt(s: seq<string>, i: nat, x: string): (r: seq<string>)
    requires i <= |s|
    ensures |r| == |s| + 1 && r[i] == x
    ensures forall k :: 0 <= k < i ==> r[k] == s[k]
    ensures forall k :: i <= k < |s| ==> r[k + 1] == s[k]
    ensures multiset(r) == multiset(s) + multiset{x}
  {
    assert s == s[..i] + s[i..];
    s[..i] + [x] + s[i..]
  }

  /** `Vec::remove`: the entry at `i` goes, the later ones move one place left. */
  function RemoveAt(s: seq<string>, i: nat): (r: seq<string>)
    requires i < |s|
    ensures |r| == |s| - 1
    ensures forall k :: 0 <= k < i ==> r[k] == s[k]
    ensures forall k :: i <= k < |r| ==> r[k] == s[k + 1]
    ensures multiset(r) + multiset{s[i]} == multiset(s)
  {
    assert s == s[..i] + [s[i]] + s[i + 1..];
    s[..i] + s[i + 1..]
  }

  /** The index of the first entry equal to `path`, if there is one. */
  function IndexOf(lines: seq<string>, path: string): (r: Option<nat>)
    ensures r.None? <==> path !in lines
    ensures r.Some? ==> r.value < |lines| && lines[r.value] == path
    ensures r.Some? ==> forall j :: 0 <= j < r.value ==> lines[j] != path
  {
    if lines == [] then None
    else if lines[0] == path then Some(0)
    else
      match IndexOf(lines[1..], path)
      case None => None
      case Some(k) => Some(k + 1)
  }

  /** What a successful save did. */
  datatype SaveEffect = Moved(from: nat, to: nat) | Added(at: nat)

  /** A successful save: what it did and the list it writes. */
  datatype Saved = Saved(effect: SaveEffect, lines: seq<string>)

  /** A successful removal: the index, the path removed and the list written. */
  datatype Deletion = Deletion(id: nat, path: string, lines: seq<string>)

  /**
   * Saving `path` at index `id`: a path already in the list (its first copy) is
   * moved there, any other path is inserted there. On success the path is at
   * `id`, the multiset of paths gains it only when it was not saved, and the
   * list grows by at most one and only below the limit.
   */
  function Upsert(lines: seq<string>, path: string, id: nat): (r: Result<Saved>)
    ensures r.Ok? ==> id < |r.value.lines| && r.value.lines[id] == path
    ensures r.Ok? ==> (multiset(r.value.lines) ==
      multiset(lines) + (if path in lines then multiset{} else multiset{path}))
    ensures r.Ok? ==> (|lines| <= |r.value.lines| <= |lines| + 1 &&
      (|r.value.lines| > |lines| ==> |lines| < SavedPathsLimitP1))
    ensures r.Err? ==>
      r.error in {InvalidPosValue(id, |lines|), IdenticalPathPos(path), PathLimitReached}
  {
    match IndexOf(lines, path)
    case Some(ex) =>
      if id >= |lines| then Err(InvalidPosValue(id, |lines|))
      else if ex == id then Err(IdenticalPathPos(path))
      else Ok(Saved(Moved(ex, id), InsertAt(RemoveAt(lines, ex), id, path)))
    case None =>
      if id > |lines| then Err(InvalidPosValue(id, |lines|))
      else if |lines| >= SavedPathsLimitP1 then Err(PathLimitReached)
      else Ok(Saved(Added(id), InsertAt(lines, id, path)))
  }

  /**
   * Removing the entry at index `id`: it fails exactly outside the list, and
   * otherwise takes out exactly the path at `id`.
   */
  function Removal(lines: seq<string>, id: nat): (r: Result<Deletion>)
    ensures r.Err? <==> id >= |lines|
    ensures r.Ok? ==> (r.value.id == id && r.value.path == lines[id] &&
      multiset(r.value.lines) + multiset{r.value.path} == multiset(lines))
  {
    if id >= |lines| then Err(InvalidPosValue(id, |lines|))
    else Ok(Deletion(id, lines[id], RemoveAt(lines, id)))
  }

  /** The suffix that marks a saved path that is no longer a directory. */
  const StaleTag: string := " [*]"

  /**
   * One row of a listing: it is labelled with the position of `id` and shows
   * the path, followed by the stale tag when the path is not a directory.
   */
  function Row(id: nat, path: string, isDir: bool): (r: string)
    ensures FmtPath(id, path) <= r
    ensures !isDir <==> |r| >= |FmtPath(id, path)| + |StaleTag| && r[|r| - |StaleTag|..] == StaleTag
  {
    if isDir then FmtPath(id, path) else FmtPath(id, path) + StaleTag
  }

  /** `rows` are the first rows of the listing of `lines`, in stored order. */
  predicate Shows(rows: seq<string>, lines: seq<string>, isDir: string -> bool) {
    |rows| <= |lines| &&
    forall i :: 0 <= i < |rows| ==> rows[i] == Row(i, lines[i], isDir(lines[i]))
  }

  // ---------------------------------------------------------------- rows

  /** A row reads back as its index and the path, followed by the stale tag when stale. */
  lemma RowLabel(id: nat, path: string, isDir: bool)
    ensures ParseRow(Row(id, path, isDir)) == Some((id, if isDir then path else path + StaleTag))
  {
    if isDir {
      FmtPathRoundTrip(id, path);
    } else {
      assert Row(id, path, isDir) == FmtPath(id, path + StaleTag);
      FmtPathRoundTrip(id, path + StaleTag);
    }
  }

  // ---------------------------------------------------------------- save

  /** When save fails, and with which error; nothing else makes it fail. */
  lemma UpsertErrors(lines: seq<string>, path: string, id: nat)
    ensures Upsert(lines, path, id) == Err(InvalidPosValue(id, |lines|)) <==>
      (path in lines && id >= |lines|) || (path !in lines && id > |lines|)
    ensures Upsert(lines, path, id) == Err(IdenticalPathPos(path)) <==>
      id < |lines| && IndexOf(lines, path) == Some(id)
    ensures Upsert(lines, path, id) == Err(PathLimitReached) <==>
      path !in lines && id <= |lines| && |lines| >= SavedPathsLimitP1
  {
  }

  /** A new path is inserted at `id`: the entries before stay, the others shift right by one. */
  lemma UpsertAdds(lines: seq<string>, path: string, id: nat)
    requires path !in lines && id <= |lines| < SavedPathsLimitP1
    ensures Upsert(lines, path, id).Ok?
    ensures var s := Upsert(lines, path, id).value;
      s.effect == Added(id) && |s.lines| == |lines| + 1 && s.lines[id] == path &&
      s.lines[..id] == lines[..id] && s.lines[id + 1..] == lines[id..]
  {
  }

  /** `Vec::remove` at an index undoes `Vec::insert` there. */
  lemma RemoveInserted(s: seq<string>, i: nat, x: string)
    requires i <= |s|
    ensures RemoveAt(InsertAt(s, i, x), i) == s
  {
  }

  /** `Vec::insert` of the removed entry at its index undoes `Vec::remove`. */
  lemma InsertRemoved(s: seq<string>, i: nat)
    requires i < |s|
    ensures InsertAt(RemoveAt(s, i), i, s[i]) == s
  {
  }

  /**
   * A path already saved at `ex` is moved to `id`: the length stays, the path is
   * at `id`, and the other entries keep their order. No capacity check is made.
   */
  lemma UpsertMoves(lines: seq<string>, path: string, id: nat, ex: nat)
    requires IndexOf(lines, path) == Some(ex) && ex != id && id < |lines|
    ensures Upsert(lines, path, id).Ok?
    ensures var s := Upsert(lines, path, id).value;
      s.effect == Moved(ex, id) && |s.lines| == |lines| && s.lines[id] == path &&
      RemoveAt(s.lines, id) == RemoveAt(lines, ex) && multiset(s.lines) == multiset(lines)
  {
  }

  /** Inserting a path that is not saved keeps the list free of duplicates. */
  lemma InsertKeepsNoDup(s: seq<string>, i: nat, x: string)
    requires NoDup(s) && x !in s && i <= |s|
    ensures NoDup(InsertAt(s, i, x))
  {
  }

  /** Removing keeps the list free of duplicates, and the removed path is gone. */
  lemma RemoveKeepsNoDup(s: seq<string>, i: nat)
    requires NoDup(s) && i < |s|
    ensures NoDup(RemoveAt(s, i)) && s[i] !in RemoveAt(s, i)
  {
  }

  /**
   * A successful save keeps the list free of duplicates, holds exactly one copy
   * of the saved path, and keeps the list within the limit.
   */
  lemma UpsertKeepsInvariants(lines: seq<string>, path: string, id: nat)
    requires NoDup(lines) && Upsert(lines, path, id).Ok?
    ensures var s := Upsert(lines, path, id).value;
      NoDup(s.lines) && multiset(s.lines)[path] == 1 &&
      (|lines| <= SavedPathsLimitP1 ==> |s.lines| <= SavedPathsLimitP1)
  {
    match IndexOf(lines, path)
    case None =>
      InsertKeepsNoDup(lines, id, path);
    case Some(ex) =>
      RemoveKeepsNoDup(lines, ex);
      InsertKeepsNoDup(RemoveAt(lines, ex), id, path);
  }

  /** In a list without duplicates, the entry at `i` is the first copy of its path. */
  lemma IndexOfNoDup(s: seq<string>, i: nat)
    requires NoDup(s) && i < |s|
    ensures IndexOf(s, s[i]) == Some(i)
  {
  }

  /** Saving the same path at the same position again is refused. */
  lemma UpsertTwiceRefused(lines: seq<string>, path: string, id: nat)
    requires NoDup(lines) && Upsert(lines, path, id).Ok?
    ensures Upsert(Upsert(lines, path, id).value.lines, path, id) == Err(IdenticalPathPos(path))
  {
    var s := Upsert(lines, path, id).value;
    UpsertKeepsInvariants(lines, path, id);
    assert s.lines[id] == path;
    IndexOfNoDup(s.lines, id);
  }

  /** Moving a path back to where it was restores the list. */
  lemma UpsertMoveUndone(lines: seq<string>, path: string, id: nat, ex: nat)
    requires NoDup(lines) && IndexOf(lines, path) == Some(ex) && ex != id && id < |lines|
    ensures var s := Upsert(lines, path, id).value;
      Upsert(s.lines, path, ex) == Ok(Saved(Moved(id, ex), lines))
  {
    UpsertMoves(lines, path, id, ex);
    var s := Upsert(lines, path, id).value;
    UpsertKeepsInvariants(lines, path, id);
    IndexOfNoDup(s.lines, id);
    InsertRemoved(lines, ex);
  }

  // ---------------------------------------------------------------- delete

  /**
   * Delete reports the index and the list length when it fails; otherwise the
   * entries before `id` stay and the later ones move one place left.
   */
  lemma RemovalSpec(lines: seq<string>, id: nat)
    ensures Removal(lines, id).Err? ==> Removal(lines, id).error == InvalidPosValue(id, |lines|)
    ensures Removal(lines, id).Ok? ==> var d := Removal(lines, id).value;
      |d.lines| == |lines| - 1 && d.lines[..id] == lines[..id] && d.lines[id..] == lines[id + 1..]
    ensures Removal(lines, id).Ok? && NoDup(lines) ==> var d := Removal(lines, id).value;
      NoDup(d.lines) && d.path !in d.lines
  {
  }

  /** Saving a deleted path at its old position gives the list back. */
  lemma SaveUndoesDelete(lines: seq<string>, id: nat)
    requires NoDup(lines) && id < |lines| <= SavedPathsLimitP1
    ensures var d := Removal(lines, id).value;
      Upsert(d.lines, d.path, id) == Ok(Saved(Added(id), lines))
  {
    RemoveKeepsNoDup(lines, id);
    InsertRemoved(lines, id);
  }

  /** Deleting a freshly saved path gives the list back. */
  lemma DeleteUndoesSave(lines: seq<string>, path: string, id: nat)
    requires path !in lines && Upsert(lines, path, id).Ok?
    ensures Removal(Upsert(lines, path, id).value.lines, id) == Ok(Deletion(id, path, lines))
  {
    RemoveInserted(lines, id, path);
  }

  /** Saving into an empty list puts the path at position 1. */
  lemma ScenarioFirstSave()
    ensures Upsert([], "/tmp", 0) == Ok(Saved(Added(0), ["/tmp"]))
  {
    assert InsertAt([], 0, "/tmp") == ["/tmp"];
  }

  /** Saving the third path at position 1 moves it to the front. */
  lemma ScenarioMoveToFront()
    ensures Upsert(["/a", "/b", "/c"], "/c", 0) == Ok(Saved(Moved(2, 0), ["/c", "/a", "/b"]))
  {
    assert IndexOf(["/a", "/b", "/c"], "/c") == Some(2);
    assert RemoveAt(["/a", "/b", "/c"], 2) == ["/a", "/b"];
    assert InsertAt(["/a", "/b"], 0, "/c") == ["/c", "/a", "/b"];
  }

  /** Deleting position 1 reports the first path and keeps the second. */
  lemma ScenarioDeleteFirst()
    ensures Removal(["/a", "/b"], 0) == Ok(Deletion(0, "/a", ["/b"]))
  {
    assert RemoveAt(["/a", "/b"], 0) == ["/b"];
  }
}
