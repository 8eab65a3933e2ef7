/**
 * Playlists: collecting the selected tracks, copying them into a folder,
 * writing M3U and PLS text, counting the entries of a saved playlist for the
 * listing, and reading a playlist back into the set of root-relative paths
 * the library then selects. File contents are strings; `json.load` is
 * abstract (a parsed `JsonDoc`, or None where it raises).
 */
module Playlists {
  import opened Wrappers
  import opened Text
  import opened Paths
  import opened Store

  /** A selected track as `create_playlist` collects it. */
  datatype Entry = Entry(relativePath: string, filename: string)

  /** The tracks of the selected ids that have a row, in selection order. */
  function Collected(songs: seq<Song>, ids: seq<nat>): (r: seq<Entry>)
    ensures |r| <= |ids|
  {
    if ids == [] then []
    else
      var prev := Collected(songs, ids[..|ids| - 1]);
      match FindById(songs, ids[|ids| - 1])
      case None => prev
      case Some(row) => prev + [Entry(row.relativePath, row.filename)]
  }

  /** Every selected id with a row contributes its track; an id without one is skipped. */
  lemma {:induction false} CollectedAllFound(songs: seq<Song>, ids: seq<nat>)
    requires forall i :: 0 <= i < |ids| ==> FindById(songs, ids[i]).Some?
    ensures |Collected(songs, ids)| == |ids|
    ensures forall i :: 0 <= i < |ids| ==>
      Collected(songs, ids)[i] == Entry(FindById(songs, ids[i]).value.relativePath, FindById(songs, ids[i]).value.filename)
  {
    if ids != [] {
      var init := ids[..|ids| - 1];
      assert forall i :: 0 <= i < |init| ==> init[i] == ids[i];
      CollectedAllFound(songs, init);
      var prev := Collected(songs, init);
      var row := FindById(songs, ids[|ids| - 1]).value;
      assert Collected(songs, ids) == prev + [Entry(row.relativePath, row.filename)];
    }
  }

  /** The collection loop of `create_playlist`. */
  method Collect(songs: seq<Song>, ids: seq<nat>) returns (entries: seq<Entry>)
    ensures entries == Collected(songs, ids)
  {
    entries := [];
    var i := 0;
    while i < |ids|
      invariant 0 <= i <= |ids| && entries == Collected(songs, ids[..i])
    {
      assert ids[..i + 1][..i] == ids[..i];
      var row := FindById(songs, ids[i]);
      if row.Some? {
        entries := entries + [Entry(row.value.relativePath, row.value.filename)];
      }
      i := i + 1;
    }
    assert ids[..i] == ids;
  }

  /** The stored paths of the collected tracks. */
  function PathSet(entries: seq<Entry>): set<string> {
    set i | 0 <= i < |entries| :: entries[i].relativePath
  }

  /** Every collected path can stand on its own line of a playlist. */
  predicate StoredEntries(entries: seq<Entry>) {
    forall i :: 0 <= i < |entries| ==> IsStoredRel(entries[i].relativePath)
  }

  // ---- the folder playlist ----

  /** The copies that succeed among the first `n` tracks: those whose position is not in `fails`. */
  function CopiedCount(n: nat, fails: set<nat>): (c: nat)
    ensures c <= n
  {
    if n == 0 then 0 else CopiedCount(n - 1, fails) + (if n - 1 in fails then 0 else 1)
  }

  /** The folder after the first `n` copies: each successful copy writes `dir/filename`, a later one of the same name overwriting. */
  function FolderAfter(root: string, entries: seq<Entry>, n: nat, fails: set<nat>): map<string, string>
    requires n <= |entries|
  {
    if n == 0 then map[]
    else
      var prev := FolderAfter(root, entries, n - 1, fails);
      if n - 1 in fails then prev
      else prev[entries[n - 1].filename := JoinPath(root, entries[n - 1].relativePath)]
  }

  /**
   * The reported count is the number of successful copies; the folder holds at
   * most that many files, and exactly the names of the tracks copied. Two
   * tracks with the same file name leave one file and are counted twice.
   */
  lemma {:induction false} FolderCounts(root: string, entries: seq<Entry>, n: nat, fails: set<nat>)
    requires n <= |entries|
    ensures |FolderAfter(root, entries, n, fails)| <= CopiedCount(n, fails)
    ensures forall name :: name in FolderAfter(root, entries, n, fails) <==>
      exists i :: 0 <= i < n && i !in fails && entries[i].filename == name
  {
    FolderSize(root, entries, n, fails);
    forall name ensures name in FolderAfter(root, entries, n, fails) <==>
      exists i :: 0 <= i < n && i !in fails && entries[i].filename == name
    {
      FolderNames(root, entries, n, fails, name);
    }
  }

  /** Each successful copy adds at most one file to the folder. */
  lemma {:induction false} FolderSize(root: string, entries: seq<Entry>, n: nat, fails: set<nat>)
    requires n <= |entries|
    ensures |FolderAfter(root, entries, n, fails)| <= CopiedCount(n, fails)
  {
    if n > 0 {
      FolderSize(root, entries, n - 1, fails);
      var prev := FolderAfter(root, entries, n - 1, fails);
      if n - 1 !in fails {
        var added := prev[entries[n - 1].filename := JoinPath(root, entries[n - 1].relativePath)];
        assert added.Keys == prev.Keys + {entries[n - 1].filename};
      }
    }
  }

  /** The folder holds a name exactly when some successful copy had that file name. */
  lemma {:induction false} FolderNames(root: string, entries: seq<Entry>, n: nat, fails: set<nat>, name: string)
    requires n <= |entries|
    ensures name in FolderAfter(root, entries, n, fails) <==>
      exists i :: 0 <= i < n && i !in fails && entries[i].filename == name
  {
    if n > 0 {
      FolderNames(root, entries, n - 1, fails, name);
      if exists i :: 0 <= i < n && i !in fails && entries[i].filename == name {
        var i :| 0 <= i < n && i !in fails && entries[i].filename == name;
        if i < n - 1 {
          assert exists j :: 0 <= j < n - 1 && j !in fails && entries[j].filename == name;
        }
      }
    }
  }

  /** Without a failing copy every track is counted. */
  lemma {:induction false} AllCopied(n: nat, fails: set<nat>)
    requires forall i :: 0 <= i < n ==> i !in fails
    ensures CopiedCount(n, fails) == n
  {
    if n > 0 { AllCopied(n - 1, fails); }
  }

  /**
   * The copy loop of a folder playlist over an emptied folder; `fails` holds
   * the positions whose `copy2` raises. Returns the count shown and the folder's
   * files, each mapped to the path it was copied from.
   */
  method CopyAll(root: string, entries: seq<Entry>, fails: set<nat>) returns (copied: nat, folder: map<string, string>)
    ensures copied == CopiedCount(|entries|, fails)
    ensures folder == FolderAfter(root, entries, |entries|, fails)
  {
    copied, folder := 0, map[];
    var idx := 0;
    while idx < |entries|
      invariant 0 <= idx <= |entries|
      invariant copied == CopiedCount(idx, fails) && folder == FolderAfter(root, entries, idx, fails)
    {
      if idx !in fails {
        folder := folder[entries[idx].filename := JoinPath(root, entries[idx].relativePath)];
        copied := copied + 1;
      }
      idx := idx + 1;
    }
  }

  // ---- M3U and PLS text ----

  /** The root-joined path of each track. */
  function FullPaths(root: string, entries: seq<Entry>): (r: seq<string>)
    ensures |r| == |entries|
  {
    seq(|entries|, i requires 0 <= i < |entries| => JoinPath(root, entries[i].relativePath))
  }

  /** The lines of an M3U playlist: the header, then one root-joined path per track. */
  function M3uLines(root: string, entries: seq<Entry>): seq<string> {
    ["#EXTM3U"] + FullPaths(root, entries)
  }

  /** An M3U playlist as `create_playlist` writes it. */
  function M3uText(root: string, entries: seq<Entry>): string {
    Lines(M3uLines(root, entries))
  }

  /** The PLS line of the `n`-th track (counting from 1). */
  function PlsEntryLine(n: nat, fullPath: string): string {
    "File" + NatToString(n) + "=" + fullPath
  }

  /** The `FileN=path` lines, numbered from 1. */
  function PlsEntryLines(root: string, entries: seq<Entry>): (r: seq<string>)
    ensures |r| == |entries|
  {
    seq(|entries|, i requires 0 <= i < |entries| => PlsEntryLine(i + 1, JoinPath(root, entries[i].relativePath)))
  }

  /** The lines of a PLS playlist: the section header, the entries, their number and the version. */
  function PlsLines(root: string, entries: seq<Entry>): seq<string> {
    ["[playlist]"] + PlsEntryLines(root, entries) + ["NumberOfEntries=" + NatToString(|entries|), "Version=2"]
  }

  /** A PLS playlist as `create_playlist` writes it. */
  function PlsText(root: string, entries: seq<Entry>): string {
    Lines(PlsLines(root, entries))
  }

  // ---- reading a playlist back ----

  /**
   * One line of an M3U file as `load_playlist_to_library` reads it: blank and
   * `#` lines are skipped; an absolute path is kept relative to the root, or
   * dropped when it lies outside; a relative path is kept as it is.
   */
  function M3uEntry(line: string, root: string): Option<string> {
    var l := Strip(line);
    if l == [] || l[0] == '#' then None
    else if IsAbsolute(l) then RelativeTo(l, root)
    else Some(l)
  }

  /** The paths an M3U file names. */
  function ReadM3uLines(lines: seq<string>, root: string): set<string> {
    set i | 0 <= i < |lines| && M3uEntry(lines[i], root).Some? :: M3uEntry(lines[i], root).value
  }

  function ReadM3u(content: string, root: string): set<string> {
    ReadM3uLines(Split(content, '\n'), root)
  }

  /** What one PLS line contributes. */
  datatype PlsItem = NotEntry | Malformed | Named(path: string)

  /**
   * One line of a PLS file: only stripped lines starting with `File` are
   * entries; the path is everything after the first `=`, and a `File` line
   * without `=` makes the whole load fail (the `IndexError` of `split`).
   */
  function PlsEntry(line: string, root: string): PlsItem {
    var l := Strip(line);
    if !StartsWith(l, "File") then NotEntry
    else if '=' !in l then Malformed
    else
      var path := l[IndexOf(l, '=') + 1..];
      if IsAbsolute(path) then
        match RelativeTo(path, root)
        case None => NotEntry
        case Some(r) => Named(r)
      else Named(path)
  }

  /** The paths a PLS file names, or None where a malformed entry aborts the load. */
  function ReadPlsLines(lines: seq<string>, root: string): Option<set<string>> {
    if exists i :: 0 <= i < |lines| && PlsEntry(lines[i], root).Malformed? then None
    else Some(set i | 0 <= i < |lines| && PlsEntry(lines[i], root).Named? :: PlsEntry(lines[i], root).path)
  }

  function ReadPls(content: string, root: string): Option<set<string>> {
    ReadPlsLines(Split(content, '\n'), root)
  }

  /** A song object of a JSON playlist: its `relative_path` member, if any. */
  datatype JsonSong = JsonSong(relativePath: Option<string>)

  /** A parsed JSON playlist: its `songs` member, if any. */
  datatype JsonDoc = JsonDoc(songs: Option<seq<JsonSong>>)

  /** `data.get('songs', [])` */
  function JsonSongs(doc: JsonDoc): seq<JsonSong> {
    doc.songs.GetOr([])
  }

  /** The paths the loop over `songs` adds: each song's `relative_path`, or `''` where it has none. */
  function ReadJsonSongs(songs: seq<JsonSong>): set<string> {
    if songs == [] then {} else {songs[0].relativePath.GetOr("")} + ReadJsonSongs(songs[1..])
  }

  /** The paths a JSON playlist names. */
  function ReadJson(doc: JsonDoc): set<string> {
    ReadJsonSongs(JsonSongs(doc))
  }

  /** A path is read from the songs exactly when some song names it, or it is `''` and some song names none. */
  lemma {:induction false} ReadJsonSongsMembers(songs: seq<JsonSong>, p: string)
    ensures p in ReadJsonSongs(songs) <==>
      (exists k :: 0 <= k < |songs| && songs[k].relativePath == Some(p))
      || (p == "" && exists k :: 0 <= k < |songs| && songs[k].relativePath.None?)
  {
    if songs != [] {
      ReadJsonSongsMembers(songs[1..], p);
      if exists k :: 0 <= k < |songs[1..]| && songs[1..][k].relativePath == Some(p) {
        var k :| 0 <= k < |songs[1..]| && songs[1..][k].relativePath == Some(p);
        assert songs[k + 1] == songs[1..][k];
      }
      if exists k :: 0 <= k < |songs[1..]| && songs[1..][k].relativePath.None? {
        var k :| 0 <= k < |songs[1..]| && songs[1..][k].relativePath.None?;
        assert songs[k + 1] == songs[1..][k];
      }
      if exists k :: 0 <= k < |songs| && songs[k].relativePath == Some(p) {
        var k :| 0 <= k < |songs| && songs[k].relativePath == Some(p);
        if k > 0 { assert songs[1..][k - 1] == songs[k]; }
      }
      if exists k :: 0 <= k < |songs| && songs[k].relativePath.None? {
        var k :| 0 <= k < |songs| && songs[k].relativePath.None?;
        if k > 0 { assert songs[1..][k - 1] == songs[k]; }
      }
    }
  }

  /** The loop adds at most one path per song. */
  lemma {:induction false} ReadJsonSongsCount(songs: seq<JsonSong>)
    ensures |ReadJsonSongs(songs)| <= |songs|
  {
    if songs != [] {
      ReadJsonSongsCount(songs[1..]);
    }
  }

  /**
   * Loading a JSON playlist selects exactly the paths its songs name (`''`
   * for a song without one), and never more paths than the listing counts
   * songs.
   */
  lemma ReadJsonSpec(doc: JsonDoc, content: string, p: string)
    ensures ListedCount(JsonKind, content, Some(doc)) == Some(|JsonSongs(doc)|)
    ensures |ReadJson(doc)| <= |JsonSongs(doc)|
    ensures p in ReadJson(doc) <==>
      (exists k :: 0 <= k < |JsonSongs(doc)| && JsonSongs(doc)[k].relativePath == Some(p))
      || (p == "" && exists k :: 0 <= k < |JsonSongs(doc)| && JsonSongs(doc)[k].relativePath.None?)
  {
    ReadJsonSongsCount(JsonSongs(doc));
    ReadJsonSongsMembers(JsonSongs(doc), p);
  }

  /**
   * `load_playlist_to_library`: the reader the lower-cased suffix selects; any
   * other suffix names no paths. None is the error dialog (a JSON file that
   * does not parse, a malformed PLS entry).
   */
  function LoadPlaylist(path: string, content: string, json: Option<JsonDoc>, root: string): Option<set<string>> {
    var suffix := Lower(Suffix(Name(path)));
    if suffix == ".json" then
      match json
      case None => None
      case Some(doc) => Some(ReadJson(doc))
    else if suffix == ".m3u" then Some(ReadM3u(content, root))
    else if suffix == ".pls" then ReadPls(content, root)
    else Some({})
  }

  /** A root-joined stored path, read from an M3U line, is its stored path again. */
  lemma M3uEntryOfJoined(root: string, rel: string)
    requires IsRootDir(root) && IsStoredRel(rel)
    ensures M3uEntry(JoinPath(root, rel), root) == Some(rel)
  {
    var p := JoinPath(root, rel);
    JoinPathLine(root, rel);
    StripStripped(p);
    RelativeToJoin(root, rel);
  }

  /** The `k`-th written path reads back as the `k`-th track's stored path, is a single line and is counted. */
  lemma M3uLineAt(root: string, entries: seq<Entry>, k: nat)
    requires IsRootDir(root) && StoredEntries(entries) && k < |entries|
    ensures M3uEntry(FullPaths(root, entries)[k], root) == Some(entries[k].relativePath)
    ensures '\n' !in FullPaths(root, entries)[k] && M3uCounted(FullPaths(root, entries)[k])
  {
    var rel := entries[k].relativePath;
    assert FullPaths(root, entries)[k] == JoinPath(root, rel);
    JoinPathLine(root, rel);
    M3uEntryOfJoined(root, rel);
    M3uLineCounted(root, rel);
  }

  /** A line whose text starts with `#` is skipped. */
  lemma M3uHeaderSkipped()
    ensures M3uEntry("#EXTM3U", "") == None
    ensures forall root :: M3uEntry("#EXTM3U", root) == None && M3uEntry("", root) == None
  {
    StripStripped("#EXTM3U");
    StripStripped("");
  }

  /** No line of a written M3U playlist holds a line break. */
  lemma M3uLinesSingle(root: string, entries: seq<Entry>)
    requires IsRootDir(root) && StoredEntries(entries)
    ensures NoneHolds(M3uLines(root, entries), '\n')
  {
    var lines := M3uLines(root, entries);
    forall i | 0 <= i < |lines| ensures '\n' !in lines[i] {
      if i > 0 {
        M3uLineAt(root, entries, i - 1);
        assert lines[i] == FullPaths(root, entries)[i - 1];
      }
    }
  }

  /** The lines of a written M3U playlist, as the reader splits them. */
  lemma M3uSplit(root: string, entries: seq<Entry>)
    requires IsRootDir(root) && StoredEntries(entries)
    ensures Split(M3uText(root, entries), '\n') == ["#EXTM3U"] + FullPaths(root, entries) + [""]
  {
    M3uLinesSingle(root, entries);
    SplitLines(M3uLines(root, entries));
  }

  /** The values of the present items of `opts`. */
  function SomeValues(opts: seq<Option<string>>): set<string> {
    set i | 0 <= i < |opts| && opts[i].Some? :: opts[i].value
  }

  /** Items that are the stored paths of `entries`, between a first and a last item that are absent, give exactly those paths. */
  lemma SomeValuesFramed(opts: seq<Option<string>>, entries: seq<Entry>)
    requires |opts| == |entries| + 2 && opts[0].None? && opts[|opts| - 1].None?
    requires forall k :: 0 <= k < |entries| ==> opts[k + 1] == Some(entries[k].relativePath)
    ensures SomeValues(opts) == PathSet(entries)
  {
    forall x ensures x in SomeValues(opts) <==> x in PathSet(entries) {
      if x in SomeValues(opts) {
        var i :| 0 <= i < |opts| && opts[i].Some? && opts[i].value == x;
        var k := i - 1;
        assert opts[k + 1] == Some(entries[k].relativePath);
      }
      if x in PathSet(entries) {
        var k :| 0 <= k < |entries| && entries[k].relativePath == x;
        assert opts[k + 1].Some?;
      }
    }
  }

  /** The M3U reader collects the present items of the per-line entries. */
  lemma ReadM3uValues(lines: seq<string>, root: string, opts: seq<Option<string>>)
    requires |opts| == |lines| && forall i :: 0 <= i < |lines| ==> opts[i] == M3uEntry(lines[i], root)
    ensures ReadM3uLines(lines, root) == SomeValues(opts)
  {
    forall x ensures x in ReadM3uLines(lines, root) <==> x in SomeValues(opts) {
      if x in ReadM3uLines(lines, root) {
        var i :| 0 <= i < |lines| && M3uEntry(lines[i], root).Some? && M3uEntry(lines[i], root).value == x;
        assert opts[i] == M3uEntry(lines[i], root);
      }
      if x in SomeValues(opts) {
        var i :| 0 <= i < |opts| && opts[i].Some? && opts[i].value == x;
        assert opts[i] == M3uEntry(lines[i], root);
      }
    }
  }

  /** Lines that read as the stored paths of `entries`, between a first and a last line that read as nothing, name exactly those paths. */
  lemma ReadM3uFramed(lines: seq<string>, root: string, entries: seq<Entry>)
    requires |lines| == |entries| + 2
    requires M3uEntry(lines[0], root).None? && M3uEntry(lines[|lines| - 1], root).None?
    requires forall k :: 0 <= k < |entries| ==> M3uEntry(lines[k + 1], root) == Some(entries[k].relativePath)
    ensures ReadM3uLines(lines, root) == PathSet(entries)
  {
    var opts := seq(|lines|, i requires 0 <= i < |lines| => M3uEntry(lines[i], root));
    ReadM3uValues(lines, root, opts);
    SomeValuesFramed(opts, entries);
  }

  /**
   * Reading back a written M3U playlist gives exactly the stored paths of the
   * tracks it was written from.
   */
  lemma M3uRoundTrip(root: string, entries: seq<Entry>)
    requires IsRootDir(root) && StoredEntries(entries)
    ensures ReadM3u(M3uText(root, entries), root) == PathSet(entries)
  {
    M3uSplit(root, entries);
    var full := FullPaths(root, entries);
    var lines := ["#EXTM3U"] + full + [""];
    M3uHeaderSkipped();
    forall k | 0 <= k < |entries| ensures M3uEntry(lines[k + 1], root) == Some(entries[k].relativePath) {
      assert lines[k + 1] == full[k];
      M3uLineAt(root, entries, k);
    }
    ReadM3uFramed(lines, root, entries);
  }

  /** A digit string holds no `=`. */
  lemma DigitsLackEquals(d: string)
    requires IsDigits(d)
    ensures '=' !in d && '\n' !in d
  {
    forall j | 0 <= j < |d| ensures d[j] != '=' && d[j] != '\n' { assert '0' <= d[j] <= '9'; }
  }

  /** `File<digits>=path` starts with `File`, and its first `=` is the one after the digits. */
  lemma PlsLineShape(d: string, p: string)
    requires IsDigits(d)
    ensures var l := "File" + d + "=" + p;
      && StartsWith(l, "File") && '=' in l && IndexOf(l, '=') == 4 + |d| && l[4 + |d| + 1..] == p
  {
    var l := "File" + d + "=" + p;
    DigitsLackEquals(d);
    assert l[..4] == "File";
    assert l[..4 + |d|] == "File" + d;
    assert l[4 + |d|] == '=';
    IndexOfAt(l, '=', 4 + |d|);
    assert l[4 + |d| + 1..] == p;
  }

  /** `File<digits>=path` for a non-empty stripped single-line path is stripped and a single line. */
  lemma PlsLineText(d: string, p: string)
    requires IsDigits(d) && p != [] && IsStripped(p) && '\n' !in p
    ensures var l := "File" + d + "=" + p;
      Strip(l) == l && '\n' !in l
  {
    var l := "File" + d + "=" + p;
    DigitsLackEquals(d);
    assert l[|l| - 1] == p[|p| - 1];
    StripStripped(l);
    assert l == ("File" + d) + ("=" + p);
    assert '\n' !in "File" + d && '\n' !in "=" + p;
  }

  /** A stripped `File` line whose text after the first `=` is an absolute path names that path relative to the root. */
  lemma PlsEntryAbsolute(l: string, p: string, root: string)
    requires Strip(l) == l && StartsWith(l, "File") && '=' in l && l[IndexOf(l, '=') + 1..] == p && IsAbsolute(p)
    ensures PlsEntry(l, root) == if RelativeTo(p, root).Some? then Named(RelativeTo(p, root).value) else NotEntry
  {
  }

  /** An entry line written for a stored path reads back as that path. */
  lemma PlsEntryOfLine(root: string, n: nat, rel: string)
    requires IsRootDir(root) && IsStoredRel(rel)
    ensures PlsEntry(PlsEntryLine(n, JoinPath(root, rel)), root) == Named(rel)
    ensures '\n' !in PlsEntryLine(n, JoinPath(root, rel))
  {
    var p := JoinPath(root, rel);
    var d := NatToString(n);
    JoinPathLine(root, rel);
    PlsLineText(d, p);
    PlsLineShape(d, p);
    RelativeToJoin(root, rel);
    PlsEntryAbsolute("File" + d + "=" + p, p, root);
  }

  /** A stripped line that does not start with `File` is not an entry, and the listing does not count it. */
  lemma NonEntryLine(l: string, root: string)
    requires IsStripped(l) && !StartsWith(l, "File")
    ensures PlsEntry(l, root) == NotEntry && !StartsWith(Strip(l), "File")
  {
    StripStripped(l);
  }

  /** The section header line is not an entry. */
  lemma HeaderLine(root: string)
    ensures PlsEntry("[playlist]", root) == NotEntry && !StartsWith(Strip("[playlist]"), "File")
  {
    NonEntryLine("[playlist]", root);
  }

  /** The version line is not an entry. */
  lemma VersionLine(root: string)
    ensures PlsEntry("Version=2", root) == NotEntry && !StartsWith(Strip("Version=2"), "File")
  {
    NonEntryLine("Version=2", root);
  }

  /** The empty line after the final break is not an entry. */
  lemma EmptyLine(root: string)
    ensures PlsEntry("", root) == NotEntry && !StartsWith(Strip(""), "File")
  {
    NonEntryLine("", root);
  }

  /** The entry-count line is a single line and not an entry. */
  lemma EntriesKeyLine(n: nat, root: string)
    ensures PlsEntry("NumberOfEntries=" + NatToString(n), root) == NotEntry
    ensures !StartsWith(Strip("NumberOfEntries=" + NatToString(n)), "File")
    ensures '\n' !in "NumberOfEntries=" + NatToString(n)
  {
    var d := NatToString(n);
    var c := "NumberOfEntries=" + d;
    DigitsLackEquals(d);
    assert c[|c| - 1] == d[|d| - 1];
    assert c[..4] == "Numb";
    assert '\n' !in "NumberOfEntries=";
    NonEntryLine(c, root);
  }

  /** The lines around the entries are not entries. */
  lemma PlsFrameSkipped(n: nat, root: string)
    ensures PlsEntry("[playlist]", root) == NotEntry
    ensures PlsEntry("NumberOfEntries=" + NatToString(n), root) == NotEntry
    ensures PlsEntry("Version=2", root) == NotEntry
    ensures PlsEntry("", root) == NotEntry
    ensures '\n' !in "NumberOfEntries=" + NatToString(n)
  {
    HeaderLine(root);
    EntriesKeyLine(n, root);
    VersionLine(root);
    EmptyLine(root);
  }

  /** Three runs of lines without a break make one. */
  lemma NoneHoldsConcat(a: seq<string>, b: seq<string>, c: seq<string>)
    requires NoneHolds(a, '\n') && NoneHolds(b, '\n') && NoneHolds(c, '\n')
    ensures NoneHolds(a + b + c, '\n')
  {
    var r := a + b + c;
    forall i | 0 <= i < |r| ensures '\n' !in r[i] {
      if i < |a| { assert r[i] == a[i]; }
      else if i < |a| + |b| { assert r[i] == b[i - |a|]; }
      else { assert r[i] == c[i - |a| - |b|]; }
    }
  }

  /** The lines of a written PLS playlist, as the reader splits them. */
  lemma PlsSplit(root: string, entries: seq<Entry>)
    requires IsRootDir(root) && StoredEntries(entries)
    ensures Split(PlsText(root, entries), '\n') == PlsLines(root, entries) + [""]
  {
    var e := PlsEntryLines(root, entries);
    EntriesKeyLine(|entries|, root);
    forall k | 0 <= k < |e| ensures '\n' !in e[k] {
      PlsEntryAt(root, entries, k);
    }
    NoneHoldsConcat(["[playlist]"], e, ["NumberOfEntries=" + NatToString(|entries|), "Version=2"]);
    SplitLines(PlsLines(root, entries));
  }

  /** PLS lines whose entries read as the stored paths of `entries`, and whose other lines are not entries, name exactly those paths. */
  lemma ReadPlsFramed(lines: seq<string>, root: string, entries: seq<Entry>)
    requires |lines| == |entries| + 4
    requires forall i :: 0 <= i < |lines| && !(0 < i <= |entries|) ==> PlsEntry(lines[i], root) == NotEntry
    requires forall k :: 0 <= k < |entries| ==> PlsEntry(lines[k + 1], root) == Named(entries[k].relativePath)
    ensures ReadPlsLines(lines, root) == Some(PathSet(entries))
  {
    forall i | 0 <= i < |lines| ensures !PlsEntry(lines[i], root).Malformed? {
      if 0 < i <= |entries| {
        var k := i - 1;
        assert PlsEntry(lines[k + 1], root) == Named(entries[k].relativePath);
      }
    }
    var named := set i | 0 <= i < |lines| && PlsEntry(lines[i], root).Named? :: PlsEntry(lines[i], root).path;
    forall x ensures x in named <==> x in PathSet(entries) {
      if x in named {
        var i :| 0 <= i < |lines| && PlsEntry(lines[i], root).Named? && PlsEntry(lines[i], root).path == x;
        var k := i - 1;
        assert PlsEntry(lines[k + 1], root) == Named(entries[k].relativePath);
      }
      if x in PathSet(entries) {
        var k :| 0 <= k < |entries| && entries[k].relativePath == x;
        assert PlsEntry(lines[k + 1], root).Named?;
      }
    }
    assert named == PathSet(entries);
    assert ReadPlsLines(lines, root) == Some(named);
  }

  /** The `k`-th written entry line reads back as the `k`-th track's stored path. */
  lemma PlsEntryAt(root: string, entries: seq<Entry>, k: nat)
    requires IsRootDir(root) && StoredEntries(entries) && k < |entries|
    ensures PlsEntry(PlsEntryLines(root, entries)[k], root) == Named(entries[k].relativePath)
    ensures '\n' !in PlsEntryLines(root, entries)[k]
    ensures StartsWith(Strip(PlsEntryLines(root, entries)[k]), "File")
  {
    var l := PlsEntryLine(k + 1, JoinPath(root, entries[k].relativePath));
    assert PlsEntryLines(root, entries)[k] == l;
    PlsEntryOfLine(root, k + 1, entries[k].relativePath);
    PlsEntryLineCounted(root, k + 1, entries[k].relativePath);
  }

  /** Where the head, the middle and the tail of `[h] + e + t` sit. */
  lemma FramedIndex(h: string, e: seq<string>, t: seq<string>)
    ensures |[h] + e + t| == |e| + |t| + 1 && ([h] + e + t)[0] == h
    ensures forall k :: 0 <= k < |e| ==> ([h] + e + t)[k + 1] == e[k]
    ensures forall j :: 0 <= j < |t| ==> ([h] + e + t)[|e| + 1 + j] == t[j]
  {
  }

  /** Entry lines reading as the stored paths of `entries`, between a head line and tail lines that are not entries, name exactly those paths. */
  lemma ReadPlsBetween(h: string, e: seq<string>, t: seq<string>, root: string, entries: seq<Entry>)
    requires |e| == |entries| && |t| == 3
    requires PlsEntry(h, root) == NotEntry && PlsEntry(t[0], root) == NotEntry
    requires PlsEntry(t[1], root) == NotEntry && PlsEntry(t[2], root) == NotEntry
    requires forall k :: 0 <= k < |e| ==> PlsEntry(e[k], root) == Named(entries[k].relativePath)
    ensures ReadPlsLines([h] + e + t, root) == Some(PathSet(entries))
  {
    var lines := [h] + e + t;
    FramedIndex(h, e, t);
    forall k | 0 <= k < |entries| ensures PlsEntry(lines[k + 1], root) == Named(entries[k].relativePath) {
      assert lines[k + 1] == e[k];
    }
    forall i | 0 <= i < |lines| && !(0 < i <= |entries|) ensures PlsEntry(lines[i], root) == NotEntry {
      if i > 0 { var j := i - |e| - 1; assert lines[|e| + 1 + j] == t[j]; }
    }
    ReadPlsFramed(lines, root, entries);
  }

  /**
   * Reading back a written PLS playlist succeeds and gives exactly the stored
   * paths of the tracks it was written from.
   */
  lemma PlsRoundTrip(root: string, entries: seq<Entry>)
    requires IsRootDir(root) && StoredEntries(entries)
    ensures ReadPls(PlsText(root, entries), root) == Some(PathSet(entries))
  {
    PlsSplit(root, entries);
    var e := PlsEntryLines(root, entries);
    var tail := ["NumberOfEntries=" + NatToString(|entries|), "Version=2", ""];
    assert PlsLines(root, entries) + [""] == ["[playlist]"] + e + tail;
    forall k | 0 <= k < |e| ensures PlsEntry(e[k], root) == Named(entries[k].relativePath) {
      PlsEntryAt(root, entries, k);
    }
    PlsFrameSkipped(|entries|, root);
    ReadPlsBetween("[playlist]", e, tail, root, entries);
  }


  // ---- the saved-playlist listing ----

  /** A line the listing counts as an M3U entry: not blank, and not starting with `#` before stripping. */
  predicate M3uCounted(line: string) {
    Strip(line) != [] && !StartsWith(line, "#")
  }

  function CountM3uLines(lines: seq<string>): (n: nat)
    ensures n <= |lines|
  {
    if lines == [] then 0
    else CountM3uLines(lines[..|lines| - 1]) + (if M3uCounted(lines[|lines| - 1]) then 1 else 0)
  }

  /** The PLS lines that are entries: stripped, they start with `File`. */
  function CountPlsEntries(lines: seq<string>): (n: nat)
    ensures n <= |lines|
  {
    if lines == [] then 0
    else CountPlsEntries(lines[..|lines| - 1]) + (if StartsWith(Strip(lines[|lines| - 1]), "File") then 1 else 0)
  }

  datatype PlaylistKind = M3uKind | PlsKind | JsonKind

  /** The PLS count as written: `content.count('File')`, every occurrence of the word anywhere in the file. */
  function PlsCountAsWritten(content: string): nat {
    CountOccurrences(content, "File")
  }

  /**
   * The song count of a saved playlist, or None where reading it raises. The
   * JSON and M3U branches are the counts the listing shows; the PLS branch is
   * the corrected count of entry lines, where the listing as written shows
   * `PlsCountAsWritten` (see PlsCountOverCounts).
   */
  function ListedCount(kind: PlaylistKind, content: string, json: Option<JsonDoc>): Option<nat> {
    match kind
    case JsonKind => if json.None? then None else Some(|JsonSongs(json.value)|)
    case M3uKind => Some(CountM3uLines(Split(content, '\n')))
    case PlsKind => Some(CountPlsEntries(Split(content, '\n')))
  }

  // ---- the create_playlist dialog ----

  datatype PlaylistType = FolderType | M3uType | PlsType

  /** What the dialog gets from the user and the file system. */
  datatype CreateInputs = CreateInputs(
    kind: PlaylistType,
    name: string,              // the name entry
    destination: string,       // the chosen destination, `''` when none
    folderExists: bool,        // `playlist_dir.exists()`
    confirmOverwrite: bool,    // the answer to the overwrite question
    copyFails: set<nat>)       // positions whose `copy2` raises

  datatype Created =
    | NameMissing
    | NoDestination
    | OverwriteDeclined
    | FolderWritten(copied: nat, files: map<string, string>)
    | PlaylistWritten(text: string, count: nat)

  /**
   * `create_playlist` over the table `songs` with `ids` selected: a blank name
   * or no destination is refused; a folder playlist copies into an emptied
   * folder (unless the overwrite is declined); an M3U or PLS playlist is
   * written as text, reporting the number of collected tracks.
   */
  method CreatePlaylist(songs: seq<Song>, ids: seq<nat>, root: string, inp: CreateInputs) returns (r: Created)
    ensures Strip(inp.name) == [] ==> r == NameMissing
    ensures Strip(inp.name) != [] && inp.destination == [] ==> r == NoDestination
    ensures Strip(inp.name) != [] && inp.destination != [] ==>
      var entries := Collected(songs, ids);
      match inp.kind
      case FolderType =>
        if inp.folderExists && !inp.confirmOverwrite then r == OverwriteDeclined
        else r == FolderWritten(CopiedCount(|entries|, inp.copyFails), FolderAfter(root, entries, |entries|, inp.copyFails))
      case M3uType => r == PlaylistWritten(M3uText(root, entries), |entries|)
      case PlsType => r == PlaylistWritten(PlsText(root, entries), |entries|)
  {
    if Strip(inp.name) == [] {
      return NameMissing;
    }
    if inp.destination == [] {
      return NoDestination;
    }
    var entries := Collect(songs, ids);
    match inp.kind {
      case FolderType =>
        if inp.folderExists && !inp.confirmOverwrite {
          return OverwriteDeclined;
        }
        var copied, folder := CopyAll(root, entries, inp.copyFails);
        r := FolderWritten(copied, folder);
      case M3uType =>
        r := PlaylistWritten(M3uText(root, entries), |entries|);
      case PlsType =>
        r := PlaylistWritten(PlsText(root, entries), |entries|);
    }
  }

  // ---- what the readers ignore, and what the listing counts ----

  /** `with` is `without` with one more line inserted at index `k`. */
  predicate InsertedAt(with: seq<string>, without: seq<string>, k: nat) {
    |with| == |without| + 1 && k < |with|
    && (forall i :: 0 <= i < k ==> with[i] == without[i])
    && (forall i :: k <= i < |without| ==> with[i + 1] == without[i])
  }

  /** Inserting a line that is not an entry leaves the same malformed-entry test. */
  lemma PlsIgnoredMalformed(with: seq<string>, without: seq<string>, k: nat, root: string)
    requires InsertedAt(with, without, k) && PlsEntry(with[k], root).NotEntry?
    ensures (exists i :: 0 <= i < |with| && PlsEntry(with[i], root).Malformed?)
        <==> (exists i :: 0 <= i < |without| && PlsEntry(without[i], root).Malformed?)
  {
    if exists i :: 0 <= i < |with| && PlsEntry(with[i], root).Malformed? {
      var i :| 0 <= i < |with| && PlsEntry(with[i], root).Malformed?;
      var j := InsertedAtLine(with, without, k, i);
      assert PlsEntry(without[j], root) == PlsEntry(with[i], root);
    }
    if exists i :: 0 <= i < |without| && PlsEntry(without[i], root).Malformed? {
      var j :| 0 <= j < |without| && PlsEntry(without[j], root).Malformed?;
      var i := if j < k then j else j + 1;
      assert with[i] == without[j];
      assert PlsEntry(with[i], root) == PlsEntry(without[j], root);
    }
  }

  /** A named line of `with` other than the inserted one is a line of `without`. */
  lemma InsertedAtLine(with: seq<string>, without: seq<string>, k: nat, i: nat) returns (j: nat)
    requires InsertedAt(with, without, k) && i < |with| && i != k
    ensures j < |without| && without[j] == with[i]
  {
    if i < k { j := i; } else { j := i - 1; assert with[j + 1] == without[j]; }
  }

  /** Inserting a line that is not an entry leaves the same named paths. */
  lemma PlsIgnoredNamed(with: seq<string>, without: seq<string>, k: nat, root: string)
    requires InsertedAt(with, without, k) && PlsEntry(with[k], root).NotEntry?
    ensures (set i | 0 <= i < |with| && PlsEntry(with[i], root).Named? :: PlsEntry(with[i], root).path)
         == (set i | 0 <= i < |without| && PlsEntry(without[i], root).Named? :: PlsEntry(without[i], root).path)
  {
    var s1 := set i | 0 <= i < |with| && PlsEntry(with[i], root).Named? :: PlsEntry(with[i], root).path;
    var s2 := set i | 0 <= i < |without| && PlsEntry(without[i], root).Named? :: PlsEntry(without[i], root).path;
    forall x | x in s1 ensures x in s2 {
      var i :| 0 <= i < |with| && PlsEntry(with[i], root).Named? && PlsEntry(with[i], root).path == x;
      var j := InsertedAtLine(with, without, k, i);
      assert PlsEntry(without[j], root) == PlsEntry(with[i], root);
    }
    forall x | x in s2 ensures x in s1 {
      var j :| 0 <= j < |without| && PlsEntry(without[j], root).Named? && PlsEntry(without[j], root).path == x;
      var i := if j < k then j else j + 1;
      assert with[i] == without[j];
      assert PlsEntry(with[i], root) == PlsEntry(without[j], root);
    }
    assert s1 == s2;
  }

  /** `a + [c] + b` is `a + b` with `c` inserted at `|a|`. */
  lemma InsertedAtJoin(a: seq<string>, c: string, b: seq<string>)
    ensures InsertedAt(a + [c] + b, a + b, |a|) && (a + [c] + b)[|a|] == c
  {
  }

  /** Inserting a line the M3U reader skips changes nothing read. */
  lemma M3uIgnoredAt(with: seq<string>, without: seq<string>, k: nat, root: string)
    requires InsertedAt(with, without, k) && M3uEntry(with[k], root).None?
    ensures ReadM3uLines(with, root) == ReadM3uLines(without, root)
  {
    forall x | x in ReadM3uLines(with, root) ensures x in ReadM3uLines(without, root) {
      var i :| 0 <= i < |with| && M3uEntry(with[i], root).Some? && M3uEntry(with[i], root).value == x;
      var j := InsertedAtLine(with, without, k, i);
      assert M3uEntry(without[j], root) == M3uEntry(with[i], root);
    }
    forall x | x in ReadM3uLines(without, root) ensures x in ReadM3uLines(with, root) {
      var j :| 0 <= j < |without| && M3uEntry(without[j], root).Some? && M3uEntry(without[j], root).value == x;
      var i := if j < k then j else j + 1;
      assert with[i] == without[j];
      assert M3uEntry(with[i], root) == M3uEntry(without[j], root);
    }
  }

  /** A line the M3U reader skips (blank, a comment, or an absolute path outside the root) changes nothing read. */
  lemma M3uIgnoredLine(a: seq<string>, c: string, b: seq<string>, root: string)
    requires var l := Strip(c); l == [] || l[0] == '#' || (IsAbsolute(l) && RelativeTo(l, root).None?)
    ensures ReadM3uLines(a + [c] + b, root) == ReadM3uLines(a + b, root)
  {
    InsertedAtJoin(a, c, b);
    M3uIgnoredAt(a + [c] + b, a + b, |a|, root);
  }

  /** A line the PLS reader skips (not a `File` line, or an absolute path outside the root) changes nothing read. */
  lemma PlsIgnoredLine(a: seq<string>, c: string, b: seq<string>, root: string)
    requires PlsEntry(c, root).NotEntry?
    ensures ReadPlsLines(a + [c] + b, root) == ReadPlsLines(a + b, root)
  {
    InsertedAtJoin(a, c, b);
    PlsIgnoredMalformed(a + [c] + b, a + b, |a|, root);
    PlsIgnoredNamed(a + [c] + b, a + b, |a|, root);
  }

  /** The listing's M3U count is additive over runs of lines. */
  lemma {:induction false} CountM3uAppend(a: seq<string>, b: seq<string>)
    ensures CountM3uLines(a + b) == CountM3uLines(a) + CountM3uLines(b)
    decreases |b|
  {
    if b != [] {
      var b0 := b[..|b| - 1];
      assert (a + b)[..|a + b| - 1] == a + b0;
      assert (a + b)[|a + b| - 1] == b[|b| - 1];
      CountM3uAppend(a, b0);
    } else {
      assert a + b == a;
    }
  }

  /** The PLS entry count is additive over runs of lines. */
  lemma {:induction false} CountPlsAppend(a: seq<string>, b: seq<string>)
    ensures CountPlsEntries(a + b) == CountPlsEntries(a) + CountPlsEntries(b)
    decreases |b|
  {
    if b != [] {
      var b0 := b[..|b| - 1];
      assert (a + b)[..|a + b| - 1] == a + b0;
      assert (a + b)[|a + b| - 1] == b[|b| - 1];
      CountPlsAppend(a, b0);
    } else {
      assert a + b == a;
    }
  }

  /** Lines that all count are counted one each. */
  lemma {:induction false} CountM3uAll(xs: seq<string>)
    requires forall i :: 0 <= i < |xs| ==> M3uCounted(xs[i])
    ensures CountM3uLines(xs) == |xs|
    decreases |xs|
  {
    if xs != [] {
      var x0 := xs[..|xs| - 1];
      assert forall i :: 0 <= i < |x0| ==> x0[i] == xs[i];
      CountM3uAll(x0);
    }
  }

  /** Entry lines are counted one each. */
  lemma {:induction false} CountPlsAll(xs: seq<string>)
    requires forall i :: 0 <= i < |xs| ==> StartsWith(Strip(xs[i]), "File")
    ensures CountPlsEntries(xs) == |xs|
    decreases |xs|
  {
    if xs != [] {
      var x0 := xs[..|xs| - 1];
      assert forall i :: 0 <= i < |x0| ==> x0[i] == xs[i];
      CountPlsAll(x0);
    }
  }

  /** Counted lines between a head and a tail that count nothing are counted one each. */
  lemma CountM3uFramed(h: seq<string>, mid: seq<string>, t: seq<string>)
    requires CountM3uLines(h) == 0 && CountM3uLines(t) == 0
    requires forall i :: 0 <= i < |mid| ==> M3uCounted(mid[i])
    ensures CountM3uLines(h + mid + t) == |mid|
  {
    CountM3uAll(mid);
    CountM3uAppend(h, mid);
    CountM3uAppend(h + mid, t);
  }

  /** Entry lines between a head and a tail that count nothing are counted one each. */
  lemma CountPlsFramed(h: seq<string>, mid: seq<string>, t: seq<string>)
    requires CountPlsEntries(h) == 0 && CountPlsEntries(t) == 0
    requires forall i :: 0 <= i < |mid| ==> StartsWith(Strip(mid[i]), "File")
    ensures CountPlsEntries(h + mid + t) == |mid|
  {
    CountPlsAll(mid);
    CountPlsAppend(h, mid);
    CountPlsAppend(h + mid, t);
  }

  /** The M3U header and the final empty line are not counted. */
  lemma M3uFrameUncounted()
    ensures CountM3uLines(["#EXTM3U"]) == 0 && CountM3uLines([""]) == 0
  {
    StripStripped("#EXTM3U");
    StripStripped("");
    assert ["#EXTM3U"][..0] == [] && [""][..0] == [];
  }

  /** A joined stored path is counted. */
  lemma M3uLineCounted(root: string, rel: string)
    requires IsRootDir(root) && IsStoredRel(rel)
    ensures M3uCounted(JoinPath(root, rel))
  {
    JoinPathLine(root, rel);
    StripStripped(JoinPath(root, rel));
  }

  /** Three lines none of which is an entry line count nothing. */
  lemma CountPlsNone3(x: string, y: string, z: string)
    requires !StartsWith(Strip(x), "File") && !StartsWith(Strip(y), "File") && !StartsWith(Strip(z), "File")
    ensures CountPlsEntries([x, y, z]) == 0
  {
    var t := [x, y, z];
    CountPlsNone1(x);
    assert [x, y][..1] == [x];
    assert CountPlsEntries([x, y]) == 0;
    assert t[..2] == [x, y];
  }

  /** The PLS header, the two trailing keys and the final empty line are not counted. */
  lemma PlsFrameUncounted(n: nat)
    ensures CountPlsEntries(["[playlist]"]) == 0
    ensures CountPlsEntries(["NumberOfEntries=" + NatToString(n), "Version=2", ""]) == 0
  {
    HeaderLine("");
    EntriesKeyLine(n, "");
    VersionLine("");
    EmptyLine("");
    CountPlsNone1("[playlist]");
    CountPlsNone3("NumberOfEntries=" + NatToString(n), "Version=2", "");
  }

  /** One line that is not an entry line counts nothing. */
  lemma CountPlsNone1(x: string)
    requires !StartsWith(Strip(x), "File")
    ensures CountPlsEntries([x]) == 0
  {
    assert [x][..0] == [];
  }

  /** A written entry line is counted. */
  lemma PlsEntryLineCounted(root: string, n: nat, rel: string)
    requires IsRootDir(root) && IsStoredRel(rel)
    ensures StartsWith(Strip(PlsEntryLine(n, JoinPath(root, rel))), "File")
  {
    var p := JoinPath(root, rel);
    var d := NatToString(n);
    JoinPathLine(root, rel);
    PlsLineText(d, p);
    PlsLineShape(d, p);
  }

  /** The listing shows a written M3U playlist with as many songs as it was written with. */
  lemma M3uListedCount(root: string, entries: seq<Entry>)
    requires IsRootDir(root) && StoredEntries(entries)
    ensures ListedCount(M3uKind, M3uText(root, entries), None) == Some(|entries|)
  {
    M3uSplit(root, entries);
    var full := FullPaths(root, entries);
    forall k | 0 <= k < |full| ensures M3uCounted(full[k]) {
      M3uLineAt(root, entries, k);
    }
    M3uFrameUncounted();
    CountM3uFramed(["#EXTM3U"], full, [""]);
  }

  /** The entry count of a written PLS playlist is the number of tracks it was written with. */
  lemma PlsListedCount(root: string, entries: seq<Entry>)
    requires IsRootDir(root) && StoredEntries(entries)
    ensures ListedCount(PlsKind, PlsText(root, entries), None) == Some(|entries|)
  {
    PlsSplit(root, entries);
    var e := PlsEntryLines(root, entries);
    var tail := ["NumberOfEntries=" + NatToString(|entries|), "Version=2", ""];
    forall k | 0 <= k < |e| ensures StartsWith(Strip(e[k]), "File") {
      PlsEntryAt(root, entries, k);
    }
    PlsFrameUncounted(|entries|);
    CountPlsFramed(["[playlist]"], e, tail);
    assert PlsLines(root, entries) + [""] == ["[playlist]"] + e + tail;
  }

  /** The lines written for a one-track PLS playlist. */
  lemma PlsLinesExample()
    ensures PlsLines("/m", [Entry("File.mp3", "File.mp3")]) == ["[playlist]", "File1=/m/File.mp3", "NumberOfEntries=1", "Version=2"]
  {
    var e := [Entry("File.mp3", "File.mp3")];
    assert NatToString(1) == "1";
    assert JoinPath("/m", "File.mp3") == "/m/File.mp3";
    assert PlsEntryLine(1, "/m/File.mp3") == "File1=/m/File.mp3";
    var pe := PlsEntryLines("/m", e);
    assert |pe| == 1 && pe[0] == PlsEntryLine(1, JoinPath("/m", e[0].relativePath));
    assert pe == ["File1=/m/File.mp3"];
    assert "NumberOfEntries=" + NatToString(|e|) == "NumberOfEntries=1";
    assert PlsLines("/m", e) == ["[playlist]"] + pe + ["NumberOfEntries=1", "Version=2"];
  }

  /**
   * The listing as written counts every `File` in the text: a one-track PLS
   * playlist whose path contains `File` is listed with two songs, while it
   * holds one entry line.
   */
  lemma PlsCountOverCounts()
    ensures PlsCountAsWritten(PlsText("/m", [Entry("File.mp3", "File.mp3")])) == 2
    ensures ListedCount(PlsKind, PlsText("/m", [Entry("File.mp3", "File.mp3")]), None) == Some(1)
  {
    var e := [Entry("File.mp3", "File.mp3")];
    PlsLinesExample();
    var l := PlsLines("/m", e);
    assert l[1..][1..][1..][1..] == [];
    CountAcrossBreak(l[3], Lines(l[1..][1..][1..][1..]), "File");
    CountAcrossBreak(l[2], Lines(l[1..][1..][1..]), "File");
    CountAcrossBreak(l[1], Lines(l[1..][1..]), "File");
    CountAcrossBreak(l[0], Lines(l[1..]), "File");
    ExampleFrameCounts();
    ExampleEntryCount();
    ExampleStored();
    PlsListedCount("/m", e);
  }

  /** The example's other lines hold no `File`. */
  lemma ExampleFrameCounts()
    ensures CountOccurrences("[playlist]", "File") == 0
    ensures CountOccurrences("NumberOfEntries=1", "File") == 0
    ensures CountOccurrences("Version=2", "File") == 0
  {
    HeaderCount();
    EntriesKeyCount();
    VersionCount();
  }

  lemma HeaderCount()
    ensures CountOccurrences("[playlist]", "File") == 0
  {
    NoFileIn("[playlist]");
  }

  lemma EntriesKeyCount()
    ensures CountOccurrences("NumberOfEntries=1", "File") == 0
  {
    NoFileIn("NumberOfEntries=1");
  }

  lemma VersionCount()
    ensures CountOccurrences("Version=2", "File") == 0
  {
    NoFileIn("Version=2");
  }

  /** Text without an `F` holds no `File`. */
  lemma NoFileIn(p: string)
    requires 'F' !in p
    ensures CountOccurrences(p, "File") == 0
  {
    CountSkips(p, "", "File");
    assert p + "" == p;
  }

  /** The example's entry line holds `File` twice. */
  lemma ExampleEntryCount()
    ensures CountOccurrences("File1=/m/File.mp3", "File") == 2
  {
    NoFileIn(".mp3");
    CountMatch(".mp3", "File");
    CountSkips("1=/m/", "File.mp3", "File");
    CountMatch("1=/m/File.mp3", "File");
    ExampleEntrySplit();
  }

  /** The example's entry line, cut around its two occurrences of `File`. */
  lemma ExampleEntrySplit()
    ensures "File" + ".mp3" == "File.mp3" && "1=/m/" + "File.mp3" == "1=/m/File.mp3"
    ensures "File" + "1=/m/File.mp3" == "File1=/m/File.mp3"
  {
  }

  /** The example's root and track meet what the writer assumes of them. */
  lemma ExampleStored()
    ensures IsRootDir("/m") && StoredEntries([Entry("File.mp3", "File.mp3")])
  {
    var rel := "File.mp3";
    StripStripped(rel);
    ComponentsPlain(rel);
    assert IsStoredRel([Entry("File.mp3", "File.mp3")][0].relativePath);
  }

  /** Loading a written M3U file, named with its suffix in any case, selects exactly the paths it was written from. */
  lemma LoadWrittenM3u(path: string, root: string, entries: seq<Entry>, json: Option<JsonDoc>)
    requires IsRootDir(root) && StoredEntries(entries) && Lower(Suffix(Name(path))) == ".m3u"
    ensures LoadPlaylist(path, M3uText(root, entries), json, root) == Some(PathSet(entries))
  {
    M3uRoundTrip(root, entries);
  }

  /** Loading a written PLS file, named with its suffix in any case, selects exactly the paths it was written from. */
  lemma LoadWrittenPls(path: string, root: string, entries: seq<Entry>, json: Option<JsonDoc>)
    requires IsRootDir(root) && StoredEntries(entries) && Lower(Suffix(Name(path))) == ".pls"
    ensures LoadPlaylist(path, PlsText(root, entries), json, root) == Some(PathSet(entries))
  {
    PlsRoundTrip(root, entries);
  }

}
