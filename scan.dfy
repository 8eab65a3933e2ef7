/**
 * Rescanning the library root: snapshot every row's tags by relative path,
 * empty the table, then insert one row per audio file of the recursive
 * listing, carrying over the snapshot's tags for the same relative path and
 * reading artist and album from the file.
 */
module ScanReconciler {
  import opened Wrappers
  import opened Text
  import opened Paths
  import opened Metadata
  import opened Store

  /**
   * One path the recursive listing yields: its form relative to the root, the
   * `name` and `suffix` attributes of the path, and what the tag reader finds there.
   */
  datatype Listed = Listed(relPath: string, name: string, suffix: string, probe: Probe)

  /** The attributes agree with `pathlib` on the relative path. */
  predicate FromPathlib(f: Listed) {
    f.name == Name(f.relPath) && f.suffix == Suffix(f.name)
  }

  /** The scan's extension test on the path object is the test on its relative path. */
  lemma AudioTestAgrees(f: Listed)
    requires FromPathlib(f)
    ensures IsAudioSuffix(f.suffix) <==> IsAudioFile(f.relPath)
  {
  }

  datatype Outcome =
    | NoRootSelected
    | RootMissing
    | NoAudioFiles
    | Scanned(count: nat, preserved: nat)

  /** `{relative_path: tags}` built from the rows in order, a later row overwriting an earlier one. */
  function Snapshot(songs: seq<Song>): (m: map<string, string>)
    ensures forall p :: p in m <==> HasPath(songs, p)
  {
    if songs == [] then map[]
    else
      var prev := songs[..|songs| - 1];
      var last := songs[|songs| - 1];
      var m := Snapshot(prev);
      assert forall p :: HasPath(songs, p) <==> HasPath(prev, p) || p == last.relativePath by {
        forall p | HasPath(songs, p) ensures HasPath(prev, p) || p == last.relativePath {
          var i :| 0 <= i < |songs| && songs[i].relativePath == p;
          if i < |songs| - 1 { assert prev[i] == songs[i]; }
        }
        forall p | HasPath(prev, p) ensures HasPath(songs, p) {
          var i :| 0 <= i < |prev| && prev[i].relativePath == p;
          assert songs[i] == prev[i];
        }
      }
      m[last.relativePath := last.tags]
  }

  /** With unique paths, the snapshot holds each row's own tags. */
  lemma {:induction false} SnapshotHoldsTags(songs: seq<Song>, k: nat)
    requires UniquePaths(songs) && k < |songs|
    ensures Snapshot(songs)[songs[k].relativePath] == songs[k].tags
  {
    var prev := songs[..|songs| - 1];
    if k < |songs| - 1 {
      assert UniquePaths(prev) by {
        forall i, j | 0 <= i < j < |prev| ensures prev[i].relativePath != prev[j].relativePath {
          assert prev[i] == songs[i] && prev[j] == songs[j];
        }
      }
      assert prev[k] == songs[k];
      SnapshotHoldsTags(prev, k);
    }
  }

  /** The tags a scanned file gets: the snapshot's for its exact relative path, or none. */
  function TagsFor(snapshot: map<string, string>, path: string): string {
    if path in snapshot then snapshot[path] else ""
  }

  /** The listed paths a scan takes, in listing order. */
  function AudioFiles(listing: seq<Listed>): (r: seq<Listed>)
    ensures |r| <= |listing|
    ensures forall x :: x in r <==> x in listing && IsAudioSuffix(x.suffix)
  {
    if listing == [] then []
    else
      var prev := listing[..|listing| - 1];
      var last := listing[|listing| - 1];
      assert listing == prev + [last];
      AudioFiles(prev) + (if IsAudioSuffix(last.suffix) then [last] else [])
  }

  /** Files (not rows) whose path had non-empty tags before the scan. */
  function PreservedCount(snapshot: map<string, string>, files: seq<Listed>): (n: nat)
    ensures n <= |files|
  {
    if files == [] then 0
    else
      PreservedCount(snapshot, files[..|files| - 1])
      + (if files[|files| - 1].relPath in snapshot && snapshot[files[|files| - 1].relPath] != "" then 1 else 0)
  }

  /** The row a file gets, before the table assigns its id: path, name, carried-over tags, and the artist and album read from it. */
  function Candidate(f: Listed, snapshot: map<string, string>, readerAvailable: bool): Song {
    var fields := ReadFields(readerAvailable, Lower(f.suffix), f.probe);
    Song(0, f.relPath, f.name, TagsFor(snapshot, f.relPath), Some(fields.artist), Some(fields.album))
  }

  /** The rows the scan offers for insertion, one per file, in listing order. */
  function Candidates(files: seq<Listed>, snapshot: map<string, string>, readerAvailable: bool): (c: seq<Song>)
    ensures |c| == |files|
  {
    if files == [] then []
    else Candidates(files[..|files| - 1], snapshot, readerAvailable) + [Candidate(files[|files| - 1], snapshot, readerAvailable)]
  }

  /** The row offered for each file is that file's candidate. */
  lemma {:induction false} CandidatesAt(files: seq<Listed>, snapshot: map<string, string>, readerAvailable: bool, j: nat)
    requires j < |files|
    ensures Candidates(files, snapshot, readerAvailable)[j] == Candidate(files[j], snapshot, readerAvailable)
  {
    if j < |files| - 1 {
      var pre := files[..|files| - 1];
      CandidatesAt(pre, snapshot, readerAvailable, j);
      assert pre[j] == files[j];
    }
  }

  /** The index of the first row offered with this path. */
  function FirstWithPath(rows: seq<Song>, p: string): (j: nat)
    requires HasPath(rows, p)
    ensures j < |rows| && rows[j].relativePath == p
    ensures forall i :: 0 <= i < j ==> rows[i].relativePath != p
  {
    if rows[0].relativePath == p then 0
    else
      assert HasPath(rows[1..], p) by {
        var j :| 0 <= j < |rows| && rows[j].relativePath == p;
        assert rows[1..][j - 1] == rows[j];
      }
      1 + FirstWithPath(rows[1..], p)
  }

  /**
   * The table after `INSERT OR IGNORE` of `offered` in order into an empty table
   * whose AUTOINCREMENT counter stands at `startId`.
   */
  function Reconciled(offered: seq<Song>, startId: nat): seq<Song>
  {
    if offered == [] then []
    else
      var prev := Reconciled(offered[..|offered| - 1], startId);
      var c := offered[|offered| - 1];
      if HasPath(prev, c.relativePath) then prev
      else prev + [c.(id := startId + |prev|)]
  }

  /** A path offered in a prefix is offered first at the same index in the whole. */
  lemma FirstWithPathPrefix(rows: seq<Song>, p: string)
    requires rows != [] && HasPath(rows[..|rows| - 1], p)
    ensures HasPath(rows, p)
    ensures FirstWithPath(rows, p) == FirstWithPath(rows[..|rows| - 1], p)
  {
    var pre := rows[..|rows| - 1];
    var j := FirstWithPath(pre, p);
    assert rows[j] == pre[j];
    assert forall i :: 0 <= i < j ==> rows[i] == pre[i];
    FirstWithPathAt(rows, p, j);
  }

  /** The first index is the one with the path and none before it. */
  lemma FirstWithPathAt(rows: seq<Song>, p: string, j: nat)
    requires j < |rows| && rows[j].relativePath == p
    requires forall i :: 0 <= i < j ==> rows[i].relativePath != p
    ensures HasPath(rows, p) && FirstWithPath(rows, p) == j
  {
  }

  /** Rows get consecutive ids from the counter, and the table holds exactly the offered paths. */
  lemma {:induction false} ReconciledShape(offered: seq<Song>, startId: nat)
    ensures var r := Reconciled(offered, startId);
      && |r| <= |offered|
      && (forall k :: 0 <= k < |r| ==> r[k].id == startId + k)
      && (forall p :: HasPath(r, p) <==> HasPath(offered, p))
  {
    if offered != [] {
      var pre := offered[..|offered| - 1];
      var c := offered[|offered| - 1];
      ReconciledShape(pre, startId);
      assert offered == pre + [c];
      HasPathSnoc(pre, c);
      var prev := Reconciled(pre, startId);
      if !HasPath(prev, c.relativePath) {
        HasPathSnoc(prev, c.(id := startId + |prev|));
      }
    }
  }

  /** No two rows share a path or an id. */
  lemma {:induction false} ReconciledUnique(offered: seq<Song>, startId: nat)
    ensures UniquePaths(Reconciled(offered, startId))
    ensures UniqueIds(Reconciled(offered, startId))
    ensures IdsBelow(Reconciled(offered, startId), startId + |Reconciled(offered, startId)|)
  {
    ReconciledShape(offered, startId);
    if offered != [] {
      var pre := offered[..|offered| - 1];
      var c := offered[|offered| - 1];
      ReconciledUnique(pre, startId);
      var prev := Reconciled(pre, startId);
      var r := Reconciled(offered, startId);
      if !HasPath(prev, c.relativePath) {
        forall i, j | 0 <= i < j < |r| ensures r[i].relativePath != r[j].relativePath {
          if j == |prev| {
            assert r[i] == prev[i];
          } else {
            assert r[i] == prev[i] && r[j] == prev[j];
          }
        }
      }
    }
  }

  /** Each row is the first offered row with its path, given the next id: a duplicate keeps the first. */
  lemma {:induction false} ReconciledFirstWins(offered: seq<Song>, startId: nat)
    ensures var r := Reconciled(offered, startId);
      forall k :: 0 <= k < |r| ==>
        HasPath(offered, r[k].relativePath)
        && r[k] == offered[FirstWithPath(offered, r[k].relativePath)].(id := startId + k)
  {
    if offered != [] {
      var pre := offered[..|offered| - 1];
      var c := offered[|offered| - 1];
      ReconciledFirstWins(pre, startId);
      ReconciledShape(pre, startId);
      var prev := Reconciled(pre, startId);
      var r := Reconciled(offered, startId);
      forall k | 0 <= k < |r|
        ensures HasPath(offered, r[k].relativePath)
        ensures r[k] == offered[FirstWithPath(offered, r[k].relativePath)].(id := startId + k)
      {
        if k < |prev| {
          assert r[k] == prev[k];
          FirstWithPathPrefix(offered, prev[k].relativePath);
          assert offered[FirstWithPath(pre, prev[k].relativePath)] == pre[FirstWithPath(pre, prev[k].relativePath)];
        } else {
          assert !HasPath(pre, c.relativePath);
          assert HasPath(offered, c.relativePath) by { assert offered[|offered| - 1] == c; }
          FirstWithPathAt(offered, c.relativePath, |offered| - 1);
        }
      }
    }
  }

  /** The table after a scan holds exactly the paths of the files scanned. */
  lemma ScannedPaths(files: seq<Listed>, snapshot: map<string, string>, readerAvailable: bool, startId: nat, p: string)
    ensures HasPath(Reconciled(Candidates(files, snapshot, readerAvailable), startId), p)
        <==> exists j :: 0 <= j < |files| && files[j].relPath == p
  {
    var c := Candidates(files, snapshot, readerAvailable);
    ReconciledShape(c, startId);
    if HasPath(c, p) {
      var j :| 0 <= j < |c| && c[j].relativePath == p;
      CandidatesAt(files, snapshot, readerAvailable, j);
      assert files[j].relPath == p;
    }
    if exists j :: 0 <= j < |files| && files[j].relPath == p {
      var j :| 0 <= j < |files| && files[j].relPath == p;
      CandidatesAt(files, snapshot, readerAvailable, j);
      assert c[j].relativePath == p;
    }
  }

  /**
   * Every row's tags are the pre-scan tags of exactly the same relative path, or
   * empty when no row had that path; its name and its artist and album come from
   * the first listed file with that path.
   */
  lemma ScannedRow(files: seq<Listed>, before: seq<Song>, readerAvailable: bool, startId: nat, k: nat)
    requires UniquePaths(before)
    requires k < |Reconciled(Candidates(files, Snapshot(before), readerAvailable), startId)|
    ensures var row := Reconciled(Candidates(files, Snapshot(before), readerAvailable), startId)[k];
      && (forall i :: 0 <= i < |before| && before[i].relativePath == row.relativePath ==> row.tags == before[i].tags)
      && (!HasPath(before, row.relativePath) ==> row.tags == "")
      && row.id == startId + k
      && exists j :: 0 <= j < |files| && files[j].relPath == row.relativePath
           && (forall i :: 0 <= i < j ==> files[i].relPath != row.relativePath)
           && var fields := ReadFields(readerAvailable, Lower(files[j].suffix), files[j].probe);
              row.filename == files[j].name && row.artist == Some(fields.artist) && row.album == Some(fields.album)
  {
    var c := Candidates(files, Snapshot(before), readerAvailable);
    ReconciledFirstWins(c, startId);
    var row := Reconciled(c, startId)[k];
    var j := FirstWithPath(c, row.relativePath);
    assert row == c[j].(id := startId + k);
    CandidatesAt(files, Snapshot(before), readerAvailable, j);
    assert files[j].relPath == row.relativePath;
    forall i | 0 <= i < j ensures files[i].relPath != row.relativePath {
      CandidatesAt(files, Snapshot(before), readerAvailable, i);
      assert c[i].relativePath == files[i].relPath;
    }
    forall i | 0 <= i < |before| && before[i].relativePath == row.relativePath ensures row.tags == before[i].tags {
      SnapshotHoldsTags(before, i);
    }
  }

  /** The values the progress display is set to while processing file indices below `upTo`. */
  function ProgressMarks(upTo: nat, total: nat): seq<nat>
  {
    if upTo == 0 then []
    else
      var idx := upTo - 1;
      ProgressMarks(idx, total) + (if idx % 10 == 0 || idx == total - 1 then [idx + 1] else [])
  }

  /** The progress display climbs strictly, never past the total, and ends at the total. */
  lemma {:induction false} ProgressMarksClimb(upTo: nat, total: nat)
    requires upTo <= total
    ensures var m := ProgressMarks(upTo, total);
      && (forall i :: 0 <= i < |m| ==> 1 <= m[i] <= upTo)
      && (forall i, j :: 0 <= i < j < |m| ==> m[i] < m[j])
      && (upTo > 0 ==> m != [] && m[0] == 1)
      && (upTo == total && total > 0 ==> m[|m| - 1] == total)
  {
    if upTo > 0 {
      ProgressMarksClimb(upTo - 1, total);
      if upTo - 1 == 0 { assert ProgressMarks(upTo, total) == [1]; }
    }
  }

  /** Between two consecutive displayed values at most ten files pass, and none of the last nine goes undisplayed. */
  lemma {:induction false} ProgressMarksGaps(upTo: nat, total: nat)
    requires upTo <= total
    ensures var m := ProgressMarks(upTo, total);
      forall i :: 0 <= i < |m| - 1 ==> m[i + 1] <= m[i] + 10
    ensures var m := ProgressMarks(upTo, total);
      upTo > 0 ==> m != [] && upTo <= m[|m| - 1] + (upTo - 1) % 10
  {
    if upTo > 0 {
      ProgressMarksGaps(upTo - 1, total);
      ProgressMarksClimb(upTo - 1, total);
      if upTo > 1 && (upTo - 1) % 10 != 0 {
        assert (upTo - 1) % 10 == (upTo - 2) % 10 + 1;
      }
    }
  }

  /** Inserting or ignoring one row offered after `earlier` is one step of `Reconciled`. */
  lemma AbstractStep(earlier: seq<Song>, c: Song, startId: nat, prev: seq<Song>, after: seq<Song>, inserted: bool, key: string)
    requires prev == Reconciled(earlier, startId) && key == c.relativePath
    requires inserted == !HasPath(prev, key)
    requires after == if inserted then prev + [c.(id := startId + |prev|)] else prev
    ensures after == Reconciled(earlier + [c], startId)
  {
    ReconciledSnoc(earlier, c, startId);
  }

  /** The rows offered for one more file end with that file's candidate. */
  lemma CandidatesSnoc(done: seq<Listed>, f: Listed, snapshot: map<string, string>, readerAvailable: bool)
    ensures Candidates(done + [f], snapshot, readerAvailable)
      == Candidates(done, snapshot, readerAvailable) + [Candidate(f, snapshot, readerAvailable)]
  {
    assert (done + [f])[..|done|] == done;
  }

  /** Offering one more row inserts it unless its path is taken. */
  lemma ReconciledSnoc(offered: seq<Song>, c: Song, startId: nat)
    ensures var prev := Reconciled(offered, startId);
      Reconciled(offered + [c], startId)
        == if HasPath(prev, c.relativePath) then prev else prev + [c.(id := startId + |prev|)]
  {
    assert (offered + [c])[..|offered|] == offered;
  }

  /** One more file adds one to the preserved count when its path had non-empty tags. */
  lemma PreservedSnoc(snapshot: map<string, string>, done: seq<Listed>, f: Listed)
    ensures PreservedCount(snapshot, done + [f])
      == PreservedCount(snapshot, done) + (if f.relPath in snapshot && snapshot[f.relPath] != "" then 1 else 0)
  {
    assert (done + [f])[..|done|] == done;
  }

  /** The files up to one more index. */
  lemma TakeSnoc(files: seq<Listed>, idx: nat)
    requires idx < |files|
    ensures files[..idx + 1] == files[..idx] + [files[idx]]
  {
  }

  /** One more file extends the progress values only on the fixed cadence. */
  lemma ProgressStep(idx: nat, total: nat)
    ensures ProgressMarks(idx + 1, total)
      == ProgressMarks(idx, total) + (if idx % 10 == 0 || idx == total - 1 then [idx + 1] else [])
  {
  }

  /** The tag snapshot taken before the table is emptied. */
  method TakeSnapshot(songs: seq<Song>) returns (snapshot: map<string, string>)
    ensures snapshot == Snapshot(songs)
  {
    snapshot := map[];
    var i := 0;
    while i < |songs|
      invariant 0 <= i <= |songs|
      invariant snapshot == Snapshot(songs[..i])
    {
      assert songs[..i + 1][..i] == songs[..i];
      snapshot := snapshot[songs[i].relativePath := songs[i].tags];
      i := i + 1;
    }
    assert songs[..i] == songs;
  }

  /** The first pass: the listed paths with an audio suffix. */
  method SelectAudio(listing: seq<Listed>) returns (files: seq<Listed>)
    ensures files == AudioFiles(listing)
  {
    files := [];
    var i := 0;
    while i < |listing|
      invariant 0 <= i <= |listing|
      invariant files == AudioFiles(listing[..i])
    {
      assert listing[..i + 1][..i] == listing[..i];
      if IsAudioSuffix(listing[i].suffix) {
        files := files + [listing[i]];
      }
      i := i + 1;
    }
    assert listing[..i] == listing;
  }

  /** The row `INSERT OR IGNORE` adds for a file is its candidate with the next id. */
  lemma CandidateRow(f: Listed, snapshot: map<string, string>, readerAvailable: bool, id: nat)
    ensures var fields := ReadFields(readerAvailable, Lower(f.suffix), f.probe);
      Candidate(f, snapshot, readerAvailable).(id := id)
        == Song(id, f.relPath, f.name, TagsFor(snapshot, f.relPath), Some(fields.artist), Some(fields.album))
  {
  }

  /** One iteration of the second pass, after the files `done`: the file's tags, its artist and album, and the insert. */
  method ScanFile(lib: Library, f: Listed, snapshot: map<string, string>, readerAvailable: bool,
                  ghost done: seq<Listed>, ghost startId: nat)
    returns (kept: bool)
    requires lib.Valid()
    requires lib.songs == Reconciled(Candidates(done, snapshot, readerAvailable), startId)
    requires lib.nextId == startId + |lib.songs|
    modifies lib
    ensures lib.Valid() && lib.committed == old(lib.committed)
    ensures kept == (f.relPath in snapshot && snapshot[f.relPath] != "")
    ensures lib.songs == Reconciled(Candidates(done + [f], snapshot, readerAvailable), startId)
    ensures lib.nextId == startId + |lib.songs|
  {
    var tags := TagsFor(snapshot, f.relPath);
    kept := f.relPath in snapshot && tags != "";
    var fields := ReadFields(readerAvailable, Lower(f.suffix), f.probe);
    ghost var prev := lib.songs;
    ghost var row := Candidate(f, snapshot, readerAvailable).(id := lib.nextId);
    assert row == Song(lib.nextId, f.relPath, f.name, tags, Some(fields.artist), Some(fields.album)) by {
      CandidateRow(f, snapshot, readerAvailable, lib.nextId);
    }
    var inserted := lib.InsertOrIgnore(f.relPath, f.name, tags, fields.artist, fields.album);
    CandidatesSnoc(done, f, snapshot, readerAvailable);
    AbstractStep(Candidates(done, snapshot, readerAvailable), Candidate(f, snapshot, readerAvailable),
                 startId, prev, lib.songs, inserted, f.relPath);
  }

  /** One iteration of the second pass with its bookkeeping: the preserved count and the progress display. */
  method ScanCounted(lib: Library, f: Listed, snapshot: map<string, string>, readerAvailable: bool,
                     ghost done: seq<Listed>, ghost startId: nat, idx: nat, total: nat, preserved: nat, marks: seq<nat>)
    returns (preserved': nat, marks': seq<nat>)
    requires lib.Valid()
    requires lib.songs == Reconciled(Candidates(done, snapshot, readerAvailable), startId)
    requires lib.nextId == startId + |lib.songs|
    requires preserved == PreservedCount(snapshot, done) && marks == ProgressMarks(idx, total)
    modifies lib
    ensures lib.Valid() && lib.committed == old(lib.committed)
    ensures lib.songs == Reconciled(Candidates(done + [f], snapshot, readerAvailable), startId)
    ensures lib.nextId == startId + |lib.songs|
    ensures preserved' == PreservedCount(snapshot, done + [f]) && marks' == ProgressMarks(idx + 1, total)
  {
    PreservedSnoc(snapshot, done, f);
    var kept := ScanFile(lib, f, snapshot, readerAvailable, done, startId);
    preserved' := if kept then preserved + 1 else preserved;
    ProgressStep(idx, total);
    marks' := if idx % 10 == 0 || idx == total - 1 then marks + [idx + 1] else marks;
  }

  /** The second pass: insert one row per file into the emptied table, counting files and preserved tags. */
  method InsertScanned(lib: Library, files: seq<Listed>, snapshot: map<string, string>, readerAvailable: bool)
    returns (count: nat, preserved: nat, marks: seq<nat>)
    requires lib.Valid() && lib.songs == []
    modifies lib
    ensures lib.Valid() && lib.committed == old(lib.committed)
    ensures lib.songs == Reconciled(Candidates(files, snapshot, readerAvailable), old(lib.nextId))
    ensures lib.nextId == old(lib.nextId) + |lib.songs|
    ensures count == |files| && preserved == PreservedCount(snapshot, files)
    ensures marks == ProgressMarks(|files|, |files|)
  {
    var total := |files|;
    var startId := lib.nextId;
    count, preserved, marks := 0, 0, [];
    ghost var done: seq<Listed> := [];
    var idx := 0;
    while idx < total
      invariant 0 <= idx <= total && done == files[..idx]
      invariant lib.Valid() && lib.committed == old(lib.committed)
      invariant lib.songs == Reconciled(Candidates(done, snapshot, readerAvailable), startId)
      invariant lib.nextId == startId + |lib.songs|
      invariant count == idx
      invariant preserved == PreservedCount(snapshot, done)
      invariant marks == ProgressMarks(idx, total)
    {
      var f := files[idx];
      preserved, marks := ScanCounted(lib, f, snapshot, readerAvailable, done, startId, idx, total, preserved, marks);
      count := count + 1;
      TakeSnoc(files, idx);
      done := done + [f];
      idx := idx + 1;
    }
    assert files[..idx] == files;
  }

  /**
   * `scan_directory` against the table of the selected root. `rootSelected` and
   * `rootExists` stand for the two guards on the configured root, `listing` for
   * the recursive listing, `readerAvailable` for whether the tag reader could be
   * imported. `marks` are the values the progress display is set to.
   */
  method Scan(lib: Library, rootSelected: bool, rootExists: bool, listing: seq<Listed>, readerAvailable: bool)
    returns (outcome: Outcome, marks: seq<nat>)
    requires lib.Valid()
    modifies lib
    ensures lib.Valid()
    ensures !rootSelected ==> outcome == NoRootSelected
    ensures rootSelected && !rootExists ==> outcome == RootMissing
    ensures !(rootSelected && rootExists) ==>
      lib.songs == old(lib.songs) && lib.committed == old(lib.committed) && lib.nextId == old(lib.nextId)
    ensures rootSelected && rootExists && AudioFiles(listing) == [] ==>
      outcome == NoAudioFiles && lib.songs == [] && lib.committed == old(lib.committed) && lib.nextId == old(lib.nextId)
    ensures rootSelected && rootExists && AudioFiles(listing) != [] ==>
      var files := AudioFiles(listing);
      var snapshot := Snapshot(old(lib.songs));
      && outcome == Scanned(|files|, PreservedCount(snapshot, files))
      && lib.songs == Reconciled(Candidates(files, snapshot, readerAvailable), old(lib.nextId))
      && lib.nextId == old(lib.nextId) + |lib.songs|
      && lib.committed == lib.songs
      && marks == ProgressMarks(|files|, |files|)
  {
    marks := [];
    if !rootSelected {
      return NoRootSelected, marks;
    }
    if !rootExists {
      return RootMissing, marks;
    }
    var snapshot := TakeSnapshot(lib.songs);
    lib.Truncate();
    var files := SelectAudio(listing);
    if |files| == 0 {
      return NoAudioFiles, marks;
    }
    var count, preserved;
    count, preserved, marks := InsertScanned(lib, files, snapshot, readerAvailable);
    lib.Commit();
    outcome := Scanned(count, preserved);
  }
}
