/**
 * The per-root track table `songs(id, relative_path UNIQUE, filename, tags,
 * artist, album)`: its rows, the statements the application runs on it, and
 * the additive schema migration done when the table is opened.
 */
module Store {
  import opened Wrappers

  /** One row of the table. `artist` and `album` are NULL (None) after a metadata save with an empty field. */
  datatype Song = Song(
    id: nat,
    relativePath: string,
    filename: string,
    tags: string,
    artist: Option<string>,
    album: Option<string>)

  predicate UniquePaths(songs: seq<Song>) {
    forall i, j :: 0 <= i < j < |songs| ==> songs[i].relativePath != songs[j].relativePath
  }

  predicate UniqueIds(songs: seq<Song>) {
    forall i, j :: 0 <= i < j < |songs| ==> songs[i].id != songs[j].id
  }

  predicate IdsBelow(songs: seq<Song>, bound: nat) {
    forall i :: 0 <= i < |songs| ==> songs[i].id < bound
  }

  /** Some row has this relative path. */
  predicate HasPath(songs: seq<Song>, path: string) {
    exists i :: 0 <= i < |songs| && songs[i].relativePath == path
  }

  /** The paths of a table with one more row are the old paths and the new row's. */
  lemma HasPathSnoc(songs: seq<Song>, s: Song)
    ensures forall p :: HasPath(songs + [s], p) <==> HasPath(songs, p) || p == s.relativePath
  {
    var r := songs + [s];
    forall p ensures HasPath(r, p) <==> HasPath(songs, p) || p == s.relativePath {
      if HasPath(r, p) && p != s.relativePath {
        var j :| 0 <= j < |r| && r[j].relativePath == p;
        assert songs[j] == r[j];
      }
      if HasPath(songs, p) {
        var j :| 0 <= j < |songs| && songs[j].relativePath == p;
        assert r[j] == songs[j];
      }
      if p == s.relativePath { assert r[|songs|] == s; }
    }
  }

  /** `SELECT ... FROM songs WHERE id = ?` followed by `fetchone()`. */
  function FindById(songs: seq<Song>, id: nat): (r: Option<Song>)
    ensures r.Some? ==> r.value in songs && r.value.id == id
    ensures r.None? ==> forall i :: 0 <= i < |songs| ==> songs[i].id != id
  {
    if songs == [] then None
    else if songs[0].id == id then Some(songs[0])
    else FindById(songs[1..], id)
  }

  /** With unique ids the row found is the one row with that id. */
  lemma FindByIdUnique(songs: seq<Song>, k: nat)
    requires UniqueIds(songs) && k < |songs|
    ensures FindById(songs, songs[k].id) == Some(songs[k])
  {
    var r := FindById(songs, songs[k].id);
    var j :| 0 <= j < |songs| && songs[j] == r.value;
    assert j == k;
  }

  /** `UPDATE songs SET relative_path = ?, filename = ? WHERE id = ?` */
  function WithPath(songs: seq<Song>, id: nat, path: string, filename: string): (r: seq<Song>)
    ensures |r| == |songs|
    ensures forall i :: 0 <= i < |songs| ==>
      r[i] == if songs[i].id == id then songs[i].(relativePath := path, filename := filename) else songs[i]
  {
    seq(|songs|, i requires 0 <= i < |songs| =>
      if songs[i].id == id then songs[i].(relativePath := path, filename := filename) else songs[i])
  }

  /** `UPDATE songs SET tags = ? WHERE id = ?` */
  function WithTags(songs: seq<Song>, id: nat, tags: string): (r: seq<Song>)
    ensures |r| == |songs|
    ensures forall i :: 0 <= i < |songs| ==>
      r[i] == if songs[i].id == id then songs[i].(tags := tags) else songs[i]
  {
    seq(|songs|, i requires 0 <= i < |songs| =>
      if songs[i].id == id then songs[i].(tags := tags) else songs[i])
  }

  /** `UPDATE songs SET artist = ?, album = ? WHERE id = ?` */
  function WithArtistAlbum(songs: seq<Song>, id: nat, artist: Option<string>, album: Option<string>): (r: seq<Song>)
    ensures |r| == |songs|
    ensures forall i :: 0 <= i < |songs| ==>
      r[i] == if songs[i].id == id then songs[i].(artist := artist, album := album) else songs[i]
  {
    seq(|songs|, i requires 0 <= i < |songs| =>
      if songs[i].id == id then songs[i].(artist := artist, album := album) else songs[i])
  }

  /** `DELETE FROM songs WHERE id = ?` */
  function WithoutId(songs: seq<Song>, id: nat): (r: seq<Song>)
    ensures |r| <= |songs|
  {
    if songs == [] then []
    else (if songs[0].id == id then [] else [songs[0]]) + WithoutId(songs[1..], id)
  }

  /** The rows left after deleting an id are the rows with any other id. */
  lemma {:induction false} WithoutIdMembers(songs: seq<Song>, id: nat)
    ensures forall s :: s in WithoutId(songs, id) <==> s in songs && s.id != id
    decreases |songs|
  {
    if songs != [] {
      WithoutIdMembers(songs[1..], id);
      assert songs == [songs[0]] + songs[1..];
    }
  }

  /** The rename statement fails the UNIQUE constraint: the row exists and another row already has the new path. */
  predicate PathConflict(songs: seq<Song>, id: nat, path: string) {
    (exists i :: 0 <= i < |songs| && songs[i].id == id)
    && (exists j :: 0 <= j < |songs| && songs[j].id != id && songs[j].relativePath == path)
  }

  /** An update of one row's path keeps the paths unique unless the constraint is violated. */
  lemma WithPathKeepsUnique(songs: seq<Song>, id: nat, path: string, filename: string)
    requires UniquePaths(songs) && UniqueIds(songs)
    requires !PathConflict(songs, id, path)
    ensures UniquePaths(WithPath(songs, id, path, filename))
    ensures UniqueIds(WithPath(songs, id, path, filename))
  {
    var r := WithPath(songs, id, path, filename);
    forall i, j | 0 <= i < j < |r| ensures r[i].relativePath != r[j].relativePath {
      if songs[i].id == id {
        assert songs[j].id != id;
      } else if songs[j].id == id {
        assert songs[i].id != id;
      }
    }
  }

  /** Renaming keeps every row's id, tags, artist and album, and touches no other row. */
  lemma WithPathKeepsTheRest(songs: seq<Song>, id: nat, path: string, filename: string, i: nat)
    requires i < |songs|
    ensures var r := WithPath(songs, id, path, filename)[i];
      && r.id == songs[i].id && r.tags == songs[i].tags
      && r.artist == songs[i].artist && r.album == songs[i].album
      && (songs[i].id != id ==> r == songs[i])
      && (songs[i].id == id ==> r.relativePath == path && r.filename == filename)
  {
  }

  /** The rows after the first of a table with unique paths and ids still have them. */
  lemma TailUnique(songs: seq<Song>)
    requires songs != []
    ensures UniqueIds(songs) ==> UniqueIds(songs[1..])
    ensures UniquePaths(songs) ==> UniquePaths(songs[1..])
  {
    forall i, j | 0 <= i < j < |songs[1..]|
      ensures songs[1..][i] == songs[i + 1] && songs[1..][j] == songs[j + 1]
    {
    }
  }

  /** With unique ids and paths, no later row shares the first row's id or path. */
  lemma HeadDistinct(songs: seq<Song>)
    requires songs != []
    ensures UniqueIds(songs) ==> forall s :: s in songs[1..] ==> s.id != songs[0].id
    ensures UniquePaths(songs) ==> forall s :: s in songs[1..] ==> s.relativePath != songs[0].relativePath
  {
    forall s | s in songs[1..] ensures exists j :: 1 <= j < |songs| && songs[j] == s {
      var m :| 0 <= m < |songs[1..]| && songs[1..][m] == s;
      assert songs[m + 1] == s;
    }
  }

  /** A row in front of rows with unique paths and ids, sharing neither with them. */
  lemma ConsUnique(s: Song, rest: seq<Song>)
    ensures UniqueIds(rest) && (forall x :: x in rest ==> x.id != s.id) ==> UniqueIds([s] + rest)
    ensures UniquePaths(rest) && (forall x :: x in rest ==> x.relativePath != s.relativePath)
      ==> UniquePaths([s] + rest)
  {
    var r := [s] + rest;
    forall i, j | 0 <= i < j < |r| ensures r[j] == rest[j - 1] && (i > 0 ==> r[i] == rest[i - 1]) {
    }
    forall j | 1 <= j < |r| ensures r[j] in rest {
      assert r[j] == rest[j - 1];
    }
  }

  /** Deleting keeps paths and ids unique. */
  lemma {:induction false} WithoutIdKeepsUnique(songs: seq<Song>, id: nat)
    ensures UniquePaths(songs) ==> UniquePaths(WithoutId(songs, id))
    ensures UniqueIds(songs) ==> UniqueIds(WithoutId(songs, id))
    decreases |songs|
  {
    if songs != [] {
      var rest := WithoutId(songs[1..], id);
      TailUnique(songs);
      WithoutIdKeepsUnique(songs[1..], id);
      if songs[0].id != id {
        assert WithoutId(songs, id) == [songs[0]] + rest;
        WithoutIdMembers(songs[1..], id);
        HeadDistinct(songs);
        ConsUnique(songs[0], rest);
      } else {
        assert WithoutId(songs, id) == [] + rest;
        assert [] + rest == rest;
      }
    }
  }

  /** Deleting an id no row has changes nothing. */
  lemma {:induction false} WithoutAbsentId(songs: seq<Song>, id: nat)
    requires forall s :: s in songs ==> s.id != id
    ensures WithoutId(songs, id) == songs
    decreases |songs|
  {
    if songs != [] {
      assert songs[0] in songs;
      assert forall s :: s in songs[1..] ==> s in songs;
      WithoutAbsentId(songs[1..], id);
      assert songs == [songs[0]] + songs[1..];
    }
  }

  /** Cutting position `k > 0` out of a sequence is cutting `k - 1` out of its tail, behind its head. */
  lemma CutCons(songs: seq<Song>, k: nat)
    requires 0 < k < |songs|
    ensures songs[..k] + songs[k + 1..] == [songs[0]] + (songs[1..][..k - 1] + songs[1..][k..])
  {
    assert songs[..k] == [songs[0]] + songs[1..][..k - 1];
    assert songs[k + 1..] == songs[1..][k..];
  }

  /** Deleting the id of the row at `k` removes exactly that row, keeping the others in order. */
  lemma {:induction false} WithoutPresentId(songs: seq<Song>, k: nat)
    requires UniqueIds(songs) && k < |songs|
    ensures WithoutId(songs, songs[k].id) == songs[..k] + songs[k + 1..]
    decreases k
  {
    var id := songs[k].id;
    TailUnique(songs);
    if k == 0 {
      HeadDistinct(songs);
      WithoutAbsentId(songs[1..], id);
      assert songs[..k] + songs[k + 1..] == songs[1..];
    } else {
      assert songs[1..][k - 1] == songs[k];
      WithoutPresentId(songs[1..], k - 1);
      assert songs[0].id != id;
      CutCons(songs, k);
    }
  }

  // ---- Schema ----

  /** The columns of a table created by the current version. */
  const CurrentColumns: seq<string> := ["id", "relative_path", "filename", "tags", "artist", "album"]

  /**
   * The columns after opening: a missing table is created with every column; an
   * existing table keeps its columns, in order, and gains `artist` and then `album`
   * when it lacks them.
   */
  function InitSchema(existing: Option<seq<string>>): (cols: seq<string>)
    ensures existing.None? ==> cols == CurrentColumns
    ensures existing.Some? ==> |existing.value| <= |cols| && cols[..|existing.value|] == existing.value
    ensures "artist" in cols && "album" in cols
    ensures existing.Some? ==> forall c :: c in cols ==> c in existing.value || c == "artist" || c == "album"
    ensures existing.Some? ==> |cols| - |existing.value| <= 2
  {
    match existing
    case None => CurrentColumns
    case Some(cs) =>
      var withArtist := if "artist" in cs then cs else cs + ["artist"];
      if "album" in withArtist then withArtist else withArtist + ["album"]
  }

  /** Opening an already migrated table changes nothing. */
  lemma InitSchemaIdempotent(existing: Option<seq<string>>)
    ensures InitSchema(Some(InitSchema(existing))) == InitSchema(existing)
  {
  }

  /**
   * The table of one library root as the open connection sees it (`songs`),
   * what the last commit made durable (`committed`), and the AUTOINCREMENT
   * counter (`nextId`: the id the next inserted row receives).
   */
  class Library {
    var songs: seq<Song>
    var committed: seq<Song>
    var nextId: nat

    ghost predicate Valid()
      reads this
    {
      UniquePaths(songs) && UniqueIds(songs) && IdsBelow(songs, nextId)
    }

    /** A freshly created, empty table. */
    constructor ()
      ensures Valid() && songs == [] && committed == [] && nextId == 1
    {
      songs := [];
      committed := [];
      nextId := 1;
    }

    /** `conn.commit()` */
    method Commit()
      modifies this
      ensures songs == old(songs) && nextId == old(nextId) && committed == songs
    {
      committed := songs;
    }

    /** `DELETE FROM songs` (the AUTOINCREMENT counter is not reset). */
    method Truncate()
      requires Valid()
      modifies this
      ensures Valid() && songs == [] && nextId == old(nextId) && committed == old(committed)
    {
      songs := [];
    }

    /** `INSERT OR IGNORE INTO songs (...) VALUES (...)`: a row whose path is taken is ignored. */
    method InsertOrIgnore(path: string, filename: string, tags: string, artist: string, album: string)
      returns (inserted: bool)
      requires Valid()
      modifies this
      ensures Valid() && committed == old(committed)
      ensures inserted == !HasPath(old(songs), path)
      ensures inserted ==> songs == old(songs) + [Song(old(nextId), path, filename, tags, Some(artist), Some(album))]
      ensures inserted ==> nextId == old(nextId) + 1
      ensures !inserted ==> songs == old(songs) && nextId == old(nextId)
    {
      inserted := true;
      var i := 0;
      while i < |songs|
        invariant 0 <= i <= |songs|
        invariant forall k :: 0 <= k < i ==> songs[k].relativePath != path
      {
        if songs[i].relativePath == path {
          inserted := false;
          break;
        }
        i := i + 1;
      }
      if inserted {
        songs := songs + [Song(nextId, path, filename, tags, Some(artist), Some(album))];
        nextId := nextId + 1;
      }
    }

    /** The rename statement; false when the UNIQUE constraint rejects it (the table is then unchanged). */
    method UpdatePath(id: nat, path: string, filename: string) returns (ok: bool)
      requires Valid()
      modifies this
      ensures Valid() && committed == old(committed) && nextId == old(nextId)
      ensures ok == !PathConflict(old(songs), id, path)
      ensures songs == if ok then WithPath(old(songs), id, path, filename) else old(songs)
    {
      ok := !PathConflict(songs, id, path);
      if ok {
        WithPathKeepsUnique(songs, id, path, filename);
        songs := WithPath(songs, id, path, filename);
      }
    }

    /** `UPDATE songs SET tags = ? WHERE id = ?` */
    method UpdateTags(id: nat, tags: string)
      requires Valid()
      modifies this
      ensures Valid() && committed == old(committed) && nextId == old(nextId)
      ensures songs == WithTags(old(songs), id, tags)
    {
      songs := WithTags(songs, id, tags);
    }

    /** `UPDATE songs SET artist = ?, album = ? WHERE id = ?` */
    method UpdateArtistAlbum(id: nat, artist: Option<string>, album: Option<string>)
      requires Valid()
      modifies this
      ensures Valid() && committed == old(committed) && nextId == old(nextId)
      ensures songs == WithArtistAlbum(old(songs), id, artist, album)
    {
      songs := WithArtistAlbum(songs, id, artist, album);
    }

    /** `DELETE FROM songs WHERE id = ?` */
    method DeleteById(id: nat)
      requires Valid()
      modifies this
      ensures Valid() && committed == old(committed) && nextId == old(nextId)
      ensures songs == WithoutId(old(songs), id)
    {
      WithoutIdKeepsUnique(songs, id);
      WithoutIdMembers(songs, id);
      songs := WithoutId(songs, id);
    }
  }
}
