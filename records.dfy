/**
 * The record-store side of the per-track commands: renaming, deleting one or
 * many tracks, saving edited artist/album fields, saving the tag entry, and
 * the error summary the bulk commands show. File-system effects (the rename,
 * the unlink, the tag-file save) and the confirmation dialogs are inputs.
 */
module Records {
  import opened Wrappers
  import opened Text
  import opened Paths
  import opened Store
  import opened LibraryView

  // ---- Error summary ----

  /** The line that stands for the errors beyond the first five. */
  function MoreErrorsLine(n: nat): (r: string)
    ensures '\n' !in r
  {
    var digits := IntToString(n);
    assert '\n' !in digits by { assert forall i :: 0 <= i < |digits| ==> '0' <= digits[i] <= '9'; }
    "... and " + digits + " more errors"
  }

  /** At most five error lines, then a count of the rest. */
  function ErrorList(errors: seq<string>): string {
    var shown := if |errors| <= 5 then errors else errors[..5];
    Join(shown, "\n") + (if |errors| > 5 then "\n" + MoreErrorsLine(|errors| - 5) else "")
  }

  /**
   * The summary shows the first five errors verbatim, one per line, and one
   * more line counting the rest when there are more than five.
   */
  lemma ErrorListLines(errors: seq<string>)
    requires errors != []
    requires forall i :: 0 <= i < |errors| ==> '\n' !in errors[i]
    ensures |errors| <= 5 ==> Split(ErrorList(errors), '\n') == errors
    ensures |errors| > 5 ==> Split(ErrorList(errors), '\n') == errors[..5] + [MoreErrorsLine(|errors| - 5)]
    ensures |Split(ErrorList(errors), '\n')| <= 6
  {
    if |errors| <= 5 {
      assert ErrorList(errors) == Join(errors, "\n");
      SplitJoin(errors, '\n');
    } else {
      var first := errors[..5];
      var more := MoreErrorsLine(|errors| - 5);
      assert forall i :: 0 <= i < |first| ==> '\n' !in first[i];
      assert ErrorList(errors) == Join(first, "\n") + ['\n'] + more;
      SplitAppend(Join(first, "\n"), '\n', more);
      SplitJoin(first, '\n');
      assert Split(more, '\n') == [more];
    }
  }

  /** The closing message of a bulk delete. */
  function DeleteMessage(deleted: nat, errors: seq<string>): (r: string)
    ensures StartsWith(r, "Successfully deleted " + IntToString(deleted) + " files.")
    ensures errors == [] <==> r == "Successfully deleted " + IntToString(deleted) + " files."
  {
    var head := "Successfully deleted " + IntToString(deleted) + " files.";
    if errors == [] then head
    else
      var r := head + "\n\nErrors:\n" + ErrorList(errors);
      assert r[..|head|] == head;
      assert |r| > |head|;
      r
  }

  // ---- Rename ----

  /** A name in the directory of `relPath`: the name alone for a file directly under the root. */
  function SiblingPath(relPath: string, name: string): (r: string)
    ensures Parent(relPath) == "." ==> r == name
    ensures Parent(relPath) != "." ==> r == Parent(relPath) + "/" + name
  {
    var parent := Parent(relPath);
    if parent == "." then name else parent + "/" + name
  }

  /** The file name of a sibling path is the name, when it holds no `/`. */
  lemma SiblingPathName(relPath: string, name: string)
    requires '/' !in name
    ensures Name(SiblingPath(relPath, name)) == name
  {
    if Parent(relPath) != "." {
      NameOfJoined(Parent(relPath), name);
    } else {
      LastIndexOfAbsent(name, '/');
    }
  }

  /**
   * The components of `file_path.parent / new_filename`, where `file_path` is
   * `Path(root) / relPath`: an absolute name replaces the whole path, any other
   * name extends the parent directory.
   */
  function RenameTarget(root: string, relPath: string, newFilename: string): seq<string> {
    var here := Components(root) + Components(relPath);
    var parent := if here == [] then [] else here[..|here| - 1];
    if IsAbsolute(newFilename) then Components(newFilename) else parent + Components(newFilename)
  }

  /** `new_path.name`: the last component, empty for `/`. */
  function TargetName(parts: seq<string>): string {
    if parts == [] then "" else parts[|parts| - 1]
  }

  /**
   * `str(new_path.relative_to(Path(root)))`: the components below the root's,
   * or None where Python raises because the target is not under the root.
   */
  function RenamedPath(root: string, relPath: string, newFilename: string): (r: Option<string>)
    ensures r.Some? <==> Components(root) <= RenameTarget(root, relPath, newFilename)
    ensures !IsAbsolute(newFilename) && Components(relPath) != [] ==> r.Some?
  {
    var base := Components(root);
    var target := RenameTarget(root, relPath, newFilename);
    if base <= target then Some(RelativeString(target[|base|..])) else None
  }

  /** The parent of `d/last` is `d`, for a `last` without `/` and a `d` that is neither empty nor `.`. */
  lemma ParentOfJoin(rel: string, d: string, last: string)
    requires rel == d + "/" + last && '/' !in last && d != [] && d != "."
    ensures Parent(rel) == d
  {
    assert rel[|d| + 1..] == last;
    LastIndexOfAt(rel, '/', |d|);
    assert rel[..|d|] == d;
  }

  /** A join whose first part is neither empty nor `.` is neither either. */
  lemma JoinNotDot(dir: seq<string>)
    requires dir != [] && dir[0] != [] && dir[0] != "."
    ensures Join(dir, "/") != [] && Join(dir, "/") != "."
  {
    if |dir| > 1 {
      assert Join(dir, "/") == dir[0] + "/" + Join(dir[1..], "/");
      assert |Join(dir, "/")| > 1;
    }
  }

  /** A separator in the text makes more than one split piece. */
  lemma SplitMany(s: string, sep: char)
    requires sep in s
    ensures |Split(s, sep)| > 1
  {
    var i := IndexOf(s, sep);
    assert Split(s, sep) == [s[..i]] + Split(s[i + 1..], sep);
  }

  /** Split pieces of a normalised path: one exactly when it has no parent, else the parent is the others joined. */
  lemma ParentOfPieces(rel: string)
    requires IsNormalRel(rel)
    ensures var ps := Split(rel, '/');
      && (|ps| == 1 <==> Parent(rel) == ".")
      && (|ps| > 1 ==> Join(ps[..|ps| - 1], "/") == Parent(rel))
  {
    var ps := Split(rel, '/');
    if '/' in rel {
      NormalPieces(rel, ps);
      ParentOfManyPieces(rel, ps);
    } else {
      assert ps == [rel];
    }
  }

  /** A normalised path with a `/` splits into several pieces, the first neither empty nor `.`, the last without `/`. */
  lemma NormalPieces(rel: string, ps: seq<string>)
    requires IsNormalRel(rel) && '/' in rel && ps == Split(rel, '/')
    ensures |ps| > 1 && ps[0] != [] && ps[0] != "." && '/' !in ps[|ps| - 1]
  {
    SplitMany(rel, '/');
    SplitLacksSep(rel, '/');
    assert ps[0] == Components(rel)[0];
  }

  /** With more than one split piece, the first neither empty nor `.`, the parent is all pieces but the last, joined. */
  lemma ParentOfManyPieces(rel: string, ps: seq<string>)
    requires ps == Split(rel, '/') && |ps| > 1 && ps[0] != [] && ps[0] != "." && '/' !in ps[|ps| - 1]
    ensures Join(ps[..|ps| - 1], "/") == Parent(rel) != "."
  {
    var dir, last := ps[..|ps| - 1], ps[|ps| - 1];
    assert ps == dir + [last];
    JoinSplit(rel, '/');
    JoinSnoc(dir, "/", last);
    assert rel == Join(dir, "/") + "/" + last;
    JoinNotDot(dir);
    ParentOfJoin(rel, Join(dir, "/"), last);
  }

  /**
   * A plain name (non-empty, no `/`, not `.`) keeps the file in its
   * directory: the stored path is the old parent with the new name, and the
   * target's file name is that name.
   */
  lemma RenamedPathPlain(root: string, relPath: string, newFilename: string)
    requires IsNormalRel(relPath)
    requires newFilename != [] && newFilename != "." && '/' !in newFilename
    ensures RenamedPath(root, relPath, newFilename) == Some(SiblingPath(relPath, newFilename))
    ensures TargetName(RenameTarget(root, relPath, newFilename)) == newFilename
  {
    var ps := Components(relPath);
    var dir := ps[..|ps| - 1];
    ComponentsPlain(newFilename);
    TargetPlain(root, relPath, newFilename);
    ParentOfPieces(relPath);
    SiblingString(relPath, dir, newFilename);
  }

  /** A relative name with one component extends the parent of the track's components. */
  lemma TargetPlain(root: string, relPath: string, name: string)
    requires Components(relPath) != [] && !IsAbsolute(name) && Components(name) == [name]
    ensures var ps := Components(relPath);
      RenameTarget(root, relPath, name) == Components(root) + ps[..|ps| - 1] + [name]
    ensures var ps := Components(relPath);
      RenamedPath(root, relPath, name) == Some(RelativeString(ps[..|ps| - 1] + [name]))
  {
    var base, ps := Components(root), Components(relPath);
    var dir := ps[..|ps| - 1];
    assert (base + ps)[..|base + ps| - 1] == base + dir;
    var target := base + dir + [name];
    assert target[|base|..] == dir + [name];
  }

  /** The relative string of the parent pieces and a name is the sibling path of that name. */
  lemma SiblingString(relPath: string, dir: seq<string>, name: string)
    requires |dir| == |Split(relPath, '/')| - 1
    requires |dir| == 0 <==> Parent(relPath) == "."
    requires |dir| > 0 ==> Join(dir, "/") == Parent(relPath)
    ensures RelativeString(dir + [name]) == SiblingPath(relPath, name)
  {
    if dir != [] {
      JoinSnoc(dir, "/", name);
    } else {
      assert dir + [name] == [name];
    }
  }

  /** The inputs a rename collects from the dialog and the file system. */
  datatype RenameInputs = RenameInputs(
    entered: string,          // the dialog's entry text
    fileExists: bool,         // the track's file is on disk
    confirmExtension: bool,   // the answer to the changed-extension warning
    targetExists: bool,       // a file with the new name is already there
    renameFails: bool)        // renaming the file itself raised

  datatype RenameOutcome =
    | NotFound | FileMissing | EmptyName | Unchanged | Declined | TargetExists | Failed
    | LeftLibrary     // the file was moved outside the root: `relative_to` raised and the row kept its old path
    | InvalidName     // a name that is not a plain file name, refused before the file is touched
    | Renamed

  /** Which way a rename goes, before anything is written (`rename_file` and `do_rename`). */
  function RenameDecision(songs: seq<Song>, root: string, id: nat, shownFilename: string, inp: RenameInputs): (r: RenameOutcome)
    ensures r != InvalidName
    ensures r == Renamed ==> FindById(songs, id).Some?
    ensures r == Renamed ==> Strip(inp.entered) != [] && Strip(inp.entered) != shownFilename
    ensures r == Renamed ==> RenamedPath(root, FindById(songs, id).value.relativePath, Strip(inp.entered)).Some?
  {
    match FindById(songs, id)
    case None => NotFound
    case Some(song) =>
      var newName := Strip(inp.entered);
      var target := RenameTarget(root, song.relativePath, newName);
      if !inp.fileExists then FileMissing
      else if newName == [] then EmptyName
      else if newName == shownFilename then Unchanged
      else if Lower(Suffix(TargetName(target))) != Lower(Suffix(Name(song.relativePath))) && !inp.confirmExtension then Declined
      else if inp.targetExists then TargetExists
      else if inp.renameFails then Failed
      else match RenamedPath(root, song.relativePath, newName)
        case None => LeftLibrary
        case Some(newPath) => if PathConflict(songs, id, newPath) then Failed else Renamed
  }

  /** Past the file-system guards, the UPDATE succeeds exactly when the rename is reported done. */
  lemma RenameWrites(songs: seq<Song>, root: string, id: nat, shownFilename: string, inp: RenameInputs)
    requires var r := RenameDecision(songs, root, id, shownFilename, inp); (r == Failed && !inp.renameFails) || r == Renamed
    ensures FindById(songs, id).Some?
    ensures var newPath := RenamedPath(root, FindById(songs, id).value.relativePath, Strip(inp.entered));
      && newPath.Some?
      && (RenameDecision(songs, root, id, shownFilename, inp) == Renamed <==> !PathConflict(songs, id, newPath.value))
  {
    var r := RenameDecision(songs, root, id, shownFilename, inp);
    assert r != NotFound;
    var song := FindById(songs, id).value;
    var newName := Strip(inp.entered);
    assert r != FileMissing && r != EmptyName && r != Unchanged && r != Declined && r != TargetExists;
    assert !inp.renameFails;
    assert r != LeftLibrary;
  }

  /**
   * Renames the track `id` of the library at `root` as `do_rename` does. Only
   * a successful rename touches the table: it sets that row's path and
   * filename, keeps the rest, and commits.
   */
  method Rename(lib: Library, root: string, id: nat, shownFilename: string, inp: RenameInputs) returns (outcome: RenameOutcome)
    requires lib.Valid()
    modifies lib
    ensures lib.Valid() && lib.nextId == old(lib.nextId)
    ensures outcome == RenameDecision(old(lib.songs), root, id, shownFilename, inp)
    ensures outcome == Renamed ==>
      var song := FindById(old(lib.songs), id).value;
      var newName := Strip(inp.entered);
      && lib.songs == WithPath(old(lib.songs), id, RenamedPath(root, song.relativePath, newName).value, newName)
      && lib.committed == lib.songs
    ensures outcome != Renamed ==> lib.songs == old(lib.songs) && lib.committed == old(lib.committed)
  {
    outcome := RenameDecision(lib.songs, root, id, shownFilename, inp);
    if (outcome == Failed && !inp.renameFails) || outcome == Renamed {
      // A failed UPDATE: the file was renamed, then the UNIQUE constraint broke.
      var song := FindById(lib.songs, id).value;
      var newName := Strip(inp.entered);
      RenameWrites(lib.songs, root, id, shownFilename, inp);
      var ok := lib.UpdatePath(id, RenamedPath(root, song.relativePath, newName).value, newName);
      if ok {
        lib.Commit();
      }
    }
  }

  /**
   * The rename as evidently intended: a typed name that is not a plain file
   * name (one holding a `/`, or `.` or `..`) is refused before the file is
   * touched; every other case goes as `RenameDecision` decides.
   */
  function RenameDecisionChecked(songs: seq<Song>, root: string, id: nat, shownFilename: string, inp: RenameInputs): (r: RenameOutcome)
    ensures r == InvalidName <==>
      (FindById(songs, id).Some? && inp.fileExists && Strip(inp.entered) !in {[], shownFilename}
       && ('/' in Strip(inp.entered) || Strip(inp.entered) in {".", ".."}))
    ensures r != InvalidName ==> r == RenameDecision(songs, root, id, shownFilename, inp)
  {
    var newName := Strip(inp.entered);
    if FindById(songs, id).Some? && inp.fileExists && newName != [] && newName != shownFilename
       && ('/' in newName || newName == "." || newName == "..")
    then InvalidName
    else RenameDecision(songs, root, id, shownFilename, inp)
  }

  /**
   * With the check, a completed rename keeps the file in its directory under
   * the root: the stored path is the old parent with the typed name, and its
   * file name is that name.
   */
  lemma RenameCheckedStaysInDirectory(songs: seq<Song>, root: string, id: nat, shownFilename: string, inp: RenameInputs)
    requires forall k :: 0 <= k < |songs| ==> IsNormalRel(songs[k].relativePath)
    requires RenameDecisionChecked(songs, root, id, shownFilename, inp) == Renamed
    ensures FindById(songs, id).Some?
    ensures var rel := FindById(songs, id).value.relativePath;
      var newName := Strip(inp.entered);
      && RenamedPath(root, rel, newName) == Some(SiblingPath(rel, newName))
      && Name(SiblingPath(rel, newName)) == newName
  {
    var rel := FindById(songs, id).value.relativePath;
    var newName := Strip(inp.entered);
    RenamedPathPlain(root, rel, newName);
    SiblingPathName(rel, newName);
  }

  /**
   * As written, an absolute name outside the library root moves the file
   * there and then fails in `relative_to`: the row keeps the old path of a
   * file that is gone. With the check the name is refused instead.
   */
  lemma RenameOutsideRootLeavesLibrary(songs: seq<Song>, root: string, id: nat, shownFilename: string, inp: RenameInputs)
    requires FindById(songs, id).Some? && inp.fileExists && inp.confirmExtension && !inp.targetExists && !inp.renameFails
    requires Strip(inp.entered) != shownFilename && IsAbsolute(Strip(inp.entered))
    requires !(Components(root) <= Components(Strip(inp.entered)))
    ensures RenameDecision(songs, root, id, shownFilename, inp) == LeftLibrary
    ensures RenameDecisionChecked(songs, root, id, shownFilename, inp) == InvalidName
  {
    assert Strip(inp.entered)[0] == '/';
  }

  // ---- Delete one track ----

  datatype DeleteOutcome = NoSuchSong | NotConfirmed | UnlinkFailed(message: string) | Deleted

  /**
   * `delete_file`: unknown ids and declined confirmations change nothing; a
   * failing unlink shows an error and keeps the row; otherwise the row goes
   * and the table is committed.
   */
  method DeleteFile(lib: Library, id: nat, confirmed: bool, unlinkError: Option<string>) returns (outcome: DeleteOutcome)
    requires lib.Valid()
    modifies lib
    ensures lib.Valid() && lib.nextId == old(lib.nextId)
    ensures FindById(old(lib.songs), id).None? ==> outcome == NoSuchSong
    ensures FindById(old(lib.songs), id).Some? && !confirmed ==> outcome == NotConfirmed
    ensures FindById(old(lib.songs), id).Some? && confirmed && unlinkError.Some? ==> outcome == UnlinkFailed(unlinkError.value)
    ensures outcome == Deleted <==> FindById(old(lib.songs), id).Some? && confirmed && unlinkError.None?
    ensures outcome == Deleted ==> lib.songs == WithoutId(old(lib.songs), id) && lib.committed == lib.songs
    ensures outcome != Deleted ==> lib.songs == old(lib.songs) && lib.committed == old(lib.committed)
  {
    if FindById(lib.songs, id).None? {
      return NoSuchSong;
    }
    if !confirmed {
      return NotConfirmed;
    }
    if unlinkError.Some? {
      return UnlinkFailed(unlinkError.value);
    }
    lib.DeleteById(id);
    lib.Commit();
    outcome := Deleted;
  }

  /** Deleting a track removes every row with its id and keeps all the others. */
  lemma DeleteRemovesOnlyThatId(songs: seq<Song>, id: nat)
    requires UniqueIds(songs)
    ensures forall s :: s in WithoutId(songs, id) <==> s in songs && s.id != id
    ensures FindById(WithoutId(songs, id), id).None?
    ensures forall k :: 0 <= k < |songs| && songs[k].id == id ==> |WithoutId(songs, id)| == |songs| - 1
  {
    WithoutIdMembers(songs, id);
    forall k | 0 <= k < |songs| && songs[k].id == id ensures |WithoutId(songs, id)| == |songs| - 1 {
      WithoutPresentId(songs, k);
    }
  }

  // ---- Delete many tracks ----

  /** What the bulk delete has done so far: the table, the rows deleted, the errors collected. */
  datatype DeleteTally = DeleteTally(songs: seq<Song>, deleted: nat, errors: seq<string>)

  /**
   * One selected item of the bulk delete: an id the table no longer has is
   * reported; a failing unlink is reported and keeps the row; otherwise the
   * row is deleted and counted.
   */
  function DeleteStep(t: DeleteTally, item: Row, unlinkError: Option<string>): DeleteTally {
    match FindById(t.songs, item.id)
    case None => t.(errors := t.errors + [item.filename + ": Not found in database"])
    case Some(_) =>
      match unlinkError
      case Some(e) => t.(errors := t.errors + [item.filename + ": " + e])
      case None => DeleteTally(WithoutId(t.songs, item.id), t.deleted + 1, t.errors)
  }

  /** The bulk delete over the selection; `unlinkErrors` maps a selection position to the exception its unlink raised. */
  function DeleteAll(songs: seq<Song>, items: seq<Row>, unlinkErrors: map<nat, string>): DeleteTally
    decreases |items|
  {
    if items == [] then DeleteTally(songs, 0, [])
    else
      var k := |items| - 1;
      DeleteStep(DeleteAll(songs, items[..k], unlinkErrors), items[k],
                 if k in unlinkErrors then Some(unlinkErrors[k]) else None)
  }

  /** The ids the bulk delete would delete: those of the selected items whose unlink does not fail. */
  function RemovedIds(items: seq<Row>, unlinkErrors: map<nat, string>): set<nat> {
    set k | 0 <= k < |items| && k !in unlinkErrors :: items[k].id
  }

  /** Every selected item is either deleted and counted, or reported: never both, never neither. */
  lemma {:induction false} DeleteAllAccounts(songs: seq<Song>, items: seq<Row>, unlinkErrors: map<nat, string>)
    ensures var t := DeleteAll(songs, items, unlinkErrors); t.deleted + |t.errors| == |items|
    decreases |items|
  {
    if items != [] {
      DeleteAllAccounts(songs, items[..|items| - 1], unlinkErrors);
    }
  }

  /** A row survives the bulk delete exactly when no item that unlinks cleanly has its id. */
  lemma {:induction false} DeleteAllSurvivors(songs: seq<Song>, items: seq<Row>, unlinkErrors: map<nat, string>)
    ensures forall s :: (s in DeleteAll(songs, items, unlinkErrors).songs
                         <==> s in songs && s.id !in RemovedIds(items, unlinkErrors))
    decreases |items|
  {
    if items != [] {
      var k := |items| - 1;
      var init := items[..k];
      DeleteAllSurvivors(songs, init, unlinkErrors);
      var prev := DeleteAll(songs, init, unlinkErrors);
      assert RemovedIds(items, unlinkErrors)
          == RemovedIds(init, unlinkErrors) + (if k in unlinkErrors then {} else {items[k].id}) by {
        forall j | 0 <= j < k ensures items[j] == init[j] { }
      }
      match FindById(prev.songs, items[k].id)
      case None =>
      case Some(_) =>
        WithoutIdMembers(prev.songs, items[k].id);
    }
  }

  /** The count is of rows actually found: an id the table never held is reported, not counted. */
  lemma DeleteMissingReported(t: DeleteTally, item: Row, unlinkError: Option<string>)
    requires forall i :: 0 <= i < |t.songs| ==> t.songs[i].id != item.id
    ensures DeleteStep(t, item, unlinkError)
         == t.(errors := t.errors + [item.filename + ": Not found in database"])
  {
  }

  /** One pass of the bulk delete loop: report a missing row or a failing unlink, otherwise delete and count. */
  method DeleteItem(lib: Library, item: Row, unlinkError: Option<string>, deleted: nat, errors: seq<string>)
    returns (deleted': nat, errors': seq<string>)
    requires lib.Valid()
    modifies lib
    ensures lib.Valid() && lib.nextId == old(lib.nextId)
    ensures DeleteTally(lib.songs, deleted', errors')
         == DeleteStep(DeleteTally(old(lib.songs), deleted, errors), item, unlinkError)
  {
    deleted', errors' := deleted, errors;
    match FindById(lib.songs, item.id) {
      case None =>
        errors' := errors + [item.filename + ": Not found in database"];
      case Some(_) =>
        match unlinkError {
          case Some(e) =>
            errors' := errors + [item.filename + ": " + e];
          case None =>
            lib.DeleteById(item.id);
            deleted' := deleted + 1;
        }
    }
  }

  /**
   * `delete_selected_files`: nothing without a selection, the single-track
   * command for one item, a confirmation for several, then the loop over the
   * items and an unconditional commit. Returns the closing message, if any.
   */
  method DeleteSelected(lib: Library, items: seq<Row>, confirmed: bool, unlinkErrors: map<nat, string>)
    returns (message: Option<string>)
    requires lib.Valid()
    modifies lib
    ensures lib.Valid() && lib.nextId == old(lib.nextId)
    ensures |items| != 1 && (items == [] || !confirmed) ==>
      message == None && lib.songs == old(lib.songs) && lib.committed == old(lib.committed)
    ensures |items| == 1 ==>
      var gone := FindById(old(lib.songs), items[0].id).Some? && confirmed && 0 !in unlinkErrors;
      && message == None
      && lib.songs == (if gone then WithoutId(old(lib.songs), items[0].id) else old(lib.songs))
      && lib.committed == (if gone then lib.songs else old(lib.committed))
    ensures |items| > 1 && confirmed ==>
      var t := DeleteAll(old(lib.songs), items, unlinkErrors);
      && lib.songs == t.songs && lib.committed == t.songs
      && message == Some(DeleteMessage(t.deleted, t.errors))
  {
    message := None;
    if items == [] {
      return;
    }
    if |items| == 1 {
      var outcome := DeleteFile(lib, items[0].id, confirmed, if 0 in unlinkErrors then Some(unlinkErrors[0]) else None);
      return;
    }
    if !confirmed {
      return;
    }
    ghost var start := lib.songs;
    var deleted := 0;
    var errors := [];
    var idx := 0;
    while idx < |items|
      invariant 0 <= idx <= |items|
      invariant lib.Valid() && lib.nextId == old(lib.nextId)
      invariant DeleteAll(start, items[..idx], unlinkErrors) == DeleteTally(lib.songs, deleted, errors)
      decreases |items| - idx
    {
      assert items[..idx + 1][..idx] == items[..idx];
      deleted, errors := DeleteItem(lib, items[idx], if idx in unlinkErrors then Some(unlinkErrors[idx]) else None,
                                    deleted, errors);
      idx := idx + 1;
    }
    assert items[..idx] == items;
    lib.Commit();
    message := Some(DeleteMessage(deleted, errors));
  }

  // ---- Edited fields and the tag entry ----

  /** An empty field is stored as NULL. */
  function NoneIfEmpty(s: string): (r: Option<string>)
    ensures r.None? <==> s == ""
    ensures r.Some? ==> r.value == s
  {
    if s == "" then None else Some(s)
  }

  /**
   * After the tag file is saved, the row's artist and album are set from the
   * stripped fields, empty ones as NULL, and committed; a failing save
   * changes nothing in the table.
   */
  method SaveArtistAlbum(lib: Library, id: nat, artist: string, album: string, saveFails: bool)
    requires lib.Valid()
    modifies lib
    ensures lib.Valid() && lib.nextId == old(lib.nextId)
    ensures saveFails ==> lib.songs == old(lib.songs) && lib.committed == old(lib.committed)
    ensures !saveFails ==>
      lib.songs == WithArtistAlbum(old(lib.songs), id, NoneIfEmpty(Strip(artist)), NoneIfEmpty(Strip(album)))
      && lib.committed == lib.songs
  {
    if !saveFails {
      lib.UpdateArtistAlbum(id, NoneIfEmpty(Strip(artist)), NoneIfEmpty(Strip(album)));
      lib.Commit();
    }
  }

  /** A saved empty field reads back as an empty cell, like one never set. */
  lemma SavedEmptyShowsEmpty(s: Song)
    ensures Display(s.(artist := NoneIfEmpty(""))).artist == ""
    ensures Display(s.(album := NoneIfEmpty(""))).album == ""
  {
  }

  /**
   * `update_tags`: with no track being edited the first selected one is
   * used, and with neither nothing happens; the entry text is stored as typed
   * and committed. Returns the id being edited afterwards.
   */
  method SaveTagEntry(lib: Library, editing: Option<nat>, selected: Option<nat>, entry: string)
    returns (editingAfter: Option<nat>)
    requires lib.Valid()
    modifies lib
    ensures lib.Valid() && lib.nextId == old(lib.nextId)
    ensures editingAfter == if editing.Some? then editing else selected
    ensures editingAfter.None? ==> lib.songs == old(lib.songs) && lib.committed == old(lib.committed)
    ensures editingAfter.Some? ==>
      lib.songs == WithTags(old(lib.songs), editingAfter.value, entry) && lib.committed == lib.songs
  {
    editingAfter := if editing.Some? then editing else selected;
    if editingAfter.Some? {
      lib.UpdateTags(editingAfter.value, entry);
      lib.Commit();
    }
  }
}
