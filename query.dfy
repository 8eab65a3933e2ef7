/**
 * The library list: which rows the five filter boxes let through, how each row
 * is displayed, how a column-header click orders the displayed rows and flips
 * that header's direction, and which displayed rows a loaded playlist selects.
 */
module LibraryView {
  import opened Wrappers
  import opened Text
  import opened Paths
  import opened Store

  /** The five filter boxes as typed: search (filename), tags, artist, album and path. */
  datatype Filters = Filters(search: string, tag: string, artist: string, album: string, path: string)

  const NoFilters := Filters("", "", "", "", "")

  /** `LOWER(column) LIKE '%term%'` for an already lower-cased term, read as a substring test; NULL never matches. */
  predicate ColumnHas(column: Option<string>, term: string) {
    column.Some? && Contains(Lower(column.value), term)
  }

  /** The WHERE clause of the list query: a path prefix alone, or else every non-empty term. */
  predicate Matches(s: Song, f: Filters) {
    var search, tag, artist, album, path := Lower(f.search), Lower(f.tag), Lower(f.artist), Lower(f.album), Lower(f.path);
    if path != [] then StartsWith(Lower(s.relativePath), path)
    else
      && (search == [] || ColumnHas(Some(s.filename), search))
      && (tag == [] || ColumnHas(Some(s.tags), tag))
      && (artist == [] || ColumnHas(s.artist, artist))
      && (album == [] || ColumnHas(s.album, album))
  }

  /** The rows the query returns, in table order. */
  function Filter(songs: seq<Song>, f: Filters): (r: seq<Song>)
    ensures |r| <= |songs|
    ensures forall s :: s in r <==> s in songs && Matches(s, f)
  {
    if songs == [] then []
    else Filter(songs[..|songs| - 1], f) + (if Matches(songs[|songs| - 1], f) then [songs[|songs| - 1]] else [])
  }

  /** Filtering keeps order: the rows of a concatenation are the rows of each part, in turn. */
  lemma {:induction false} FilterConcat(a: seq<Song>, b: seq<Song>, f: Filters)
    ensures Filter(a + b, f) == Filter(a, f) + Filter(b, f)
    decreases |b|
  {
    if b != [] {
      var b' := b[..|b| - 1];
      assert (a + b)[..|a + b| - 1] == a + b';
      assert (a + b)[|a + b| - 1] == b[|b| - 1];
      FilterConcat(a, b', f);
    } else {
      assert a + b == a;
    }
  }

  /** A single row is kept exactly when it matches. */
  lemma FilterSingle(s: Song, f: Filters)
    ensures Filter([s], f) == if Matches(s, f) then [s] else []
  {
    assert [s][..0] == [];
  }

  /** A non-empty path filter makes the result exactly the rows under that prefix. */
  lemma PathFilterAlone(songs: seq<Song>, f: Filters, s: Song)
    requires Lower(f.path) != []
    ensures s in Filter(songs, f) <==> s in songs && StartsWith(Lower(s.relativePath), Lower(f.path))
  {
  }

  /** With a path filter the other four boxes make no difference. */
  lemma {:induction false} PathFilterOverrides(songs: seq<Song>, f: Filters, g: Filters)
    requires Lower(f.path) != [] && g.path == f.path
    ensures Filter(songs, f) == Filter(songs, g)
    decreases |songs|
  {
    if songs != [] {
      PathFilterOverrides(songs[..|songs| - 1], f, g);
    }
  }

  /** Without a path filter a row is kept exactly when every non-empty box is a case-insensitive substring of its column. */
  lemma ConjunctiveFilters(songs: seq<Song>, f: Filters, s: Song)
    requires Lower(f.path) == []
    ensures s in Filter(songs, f) <==> (s in songs
      && (f.search == [] || Contains(Lower(s.filename), Lower(f.search)))
      && (f.tag == [] || Contains(Lower(s.tags), Lower(f.tag)))
      && (f.artist == [] || (s.artist.Some? && Contains(Lower(s.artist.value), Lower(f.artist))))
      && (f.album == [] || (s.album.Some? && Contains(Lower(s.album.value), Lower(f.album)))))
  {
  }

  /** Empty boxes show the whole table in table order. */
  lemma {:induction false} NoFiltersShowAll(songs: seq<Song>)
    ensures Filter(songs, NoFilters) == songs
    decreases |songs|
  {
    if songs != [] {
      NoFiltersShowAll(songs[..|songs| - 1]);
    }
  }

  /** `str(Path(rel).parent)` for a normalised path: `.` without a `/`, else the text before the last `/`. */
  function Parent(rel: string): (r: string)
    ensures '/' !in rel ==> r == "."
  {
    var i := LastIndexOf(rel, '/');
    if i < 0 then "." else if i == 0 then "/" else rel[..i]
  }

  /** The Path column: the parent directory, with `(root)` for files directly under the root. */
  function ParentDisplay(rel: string): string {
    var p := Parent(rel);
    if p == "." then "(root)" else p
  }

  /** A file directly under the root shows `(root)`; any other stored path is its Path column, `/`, and its name. */
  lemma ParentDisplayJoin(rel: string)
    requires IsStoredRel(rel) && !StartsWith(rel, "./")
    ensures '/' !in rel ==> ParentDisplay(rel) == "(root)"
    ensures '/' in rel ==> ParentDisplay(rel) + "/" + Name(rel) == rel
  {
    var i := LastIndexOf(rel, '/');
    if '/' in rel {
      assert i > 0;
      assert Parent(rel) == rel[..i];
      assert rel[..i] != ".";
      assert rel == rel[..i] + "/" + rel[i + 1..];
    }
  }

  /** One line of the list: the id in the tree column, then filename, Path, artist, album and tags. */
  datatype Row = Row(id: nat, filename: string, parent: string, artist: string, album: string, tags: string)

  /** How a returned row is shown: `artist or ''` turns NULL into an empty cell. */
  function Display(s: Song): (r: Row)
    ensures r.id == s.id && r.filename == s.filename && r.tags == s.tags
    ensures r.artist == s.artist.GetOr("") && r.album == s.album.GetOr("")
    ensures r.parent == ParentDisplay(s.relativePath)
  {
    Row(s.id, s.filename, ParentDisplay(s.relativePath), s.artist.GetOr(""), s.album.GetOr(""), s.tags)
  }

  /** `update_library_list`: the tree's rows after a refresh. */
  function View(songs: seq<Song>, f: Filters): (rows: seq<Row>)
    ensures var kept := Filter(songs, f);
      |rows| == |kept| && forall i :: 0 <= i < |kept| ==> rows[i] == Display(kept[i])
  {
    var kept := Filter(songs, f);
    seq(|kept|, i requires 0 <= i < |kept| => Display(kept[i]))
  }

  /** The columns of the list, `#0` being the id. */
  datatype Column = IdColumn | FilenameColumn | PathColumn | ArtistColumn | AlbumColumn | TagsColumn

  /** What `tree.set(item, col)` reads for a column. */
  function Cell(r: Row, col: Column): string {
    match col
    case IdColumn => IntToString(r.id)
    case FilenameColumn => r.filename
    case PathColumn => r.parent
    case ArtistColumn => r.artist
    case AlbumColumn => r.album
    case TagsColumn => r.tags
  }

  /** A sort key: `int(id)` for `#0`, the lower-cased cell otherwise. */
  datatype Key = Num(n: int) | Text(s: string)

  function KeyOf(r: Row, col: Column): (k: Key)
    ensures col == IdColumn <==> k.Num?
  {
    if col == IdColumn then Num(r.id) else Text(Lower(Cell(r, col)))
  }

  /** Python's `<` on two keys of one column. */
  predicate KeyBelow(a: Key, b: Key) {
    match (a, b)
    case (Num(m), Num(n)) => m < n
    case (Text(s), Text(t)) => Less(s, t)
    case _ => false
  }

  /** `a` belongs strictly ahead of `b` in this direction. */
  predicate Before(a: Row, b: Row, col: Column, reverse: bool) {
    if reverse then KeyBelow(KeyOf(b, col), KeyOf(a, col)) else KeyBelow(KeyOf(a, col), KeyOf(b, col))
  }

  predicate SortedBy(rows: seq<Row>, col: Column, reverse: bool) {
    forall i, j :: 0 <= i < j < |rows| ==> !Before(rows[j], rows[i], col, reverse)
  }

  lemma BeforeAsymmetric(a: Row, b: Row, col: Column, reverse: bool)
    requires Before(a, b, col, reverse)
    ensures !Before(b, a, col, reverse)
  {
    var ka, kb := KeyOf(a, col), KeyOf(b, col);
    if ka.Text? {
      if reverse { LessAsymmetric(kb.s, ka.s); } else { LessAsymmetric(ka.s, kb.s); }
    }
  }

  /** Keys of one column are totally ordered, so not-ahead-of is transitive. */
  lemma NotBeforeTransitive(x: Row, y: Row, z: Row, col: Column, reverse: bool)
    requires !Before(x, y, col, reverse) && !Before(y, z, col, reverse)
    ensures !Before(x, z, col, reverse)
  {
    var kx, ky, kz := KeyOf(x, col), KeyOf(y, col), KeyOf(z, col);
    if kx.Text? {
      var a, b, c := kx.s, ky.s, kz.s;
      if reverse { a, c := c, a; }
      // !Less(a, b) && !Less(b, c) in either direction; show !Less(a, c)
      LessTotal(a, b);
      LessTotal(b, c);
      if a == b && b == c {
        LessIrreflexive(a);
      } else if a == b || b == c {
        LessAsymmetric(c, a);
      } else {
        LessTransitive(c, b, a);
        LessAsymmetric(c, a);
      }
    }
  }

  /** Place `x` after every row it does not belong ahead of, so equal keys keep their order. */
  function Insert(sorted: seq<Row>, x: Row, col: Column, reverse: bool): (r: seq<Row>)
    ensures multiset(r) == multiset(sorted) + multiset{x}
  {
    if sorted == [] then [x]
    else
      var last := sorted[|sorted| - 1];
      var init := sorted[..|sorted| - 1];
      assert sorted == init + [last];
      if Before(x, last, col, reverse) then Insert(init, x, col, reverse) + [last]
      else sorted + [x]
  }

  /** `items.sort(key=..., reverse=reverse)`: a stable sort of the tree's rows. */
  function SortRows(rows: seq<Row>, col: Column, reverse: bool): (r: seq<Row>)
    ensures multiset(r) == multiset(rows)
  {
    if rows == [] then []
    else
      assert rows == rows[..|rows| - 1] + [rows[|rows| - 1]];
      Insert(SortRows(rows[..|rows| - 1], col, reverse), rows[|rows| - 1], col, reverse)
  }

  /** Every row of `s` stays ahead of or level with `y` unless it belongs after it. */
  predicate NoneAfter(s: seq<Row>, y: Row, col: Column, reverse: bool) {
    forall i :: 0 <= i < |s| ==> !Before(y, s[i], col, reverse)
  }

  /** Without its last row a sorted list is sorted, and the last row belongs after none of the others. */
  lemma SortedInit(sorted: seq<Row>, col: Column, reverse: bool)
    requires sorted != [] && SortedBy(sorted, col, reverse)
    ensures SortedBy(sorted[..|sorted| - 1], col, reverse)
    ensures NoneAfter(sorted[..|sorted| - 1], sorted[|sorted| - 1], col, reverse)
  {
    var init := sorted[..|sorted| - 1];
    var last := sorted[|sorted| - 1];
    forall i, j | 0 <= i < j < |init| ensures !Before(init[j], init[i], col, reverse) {
      assert init[i] == sorted[i] && init[j] == sorted[j];
    }
    forall i | 0 <= i < |init| ensures !Before(last, init[i], col, reverse) {
      assert init[i] == sorted[i];
    }
  }

  /** A row no row of a sorted list belongs after can be appended. */
  lemma SortedSnoc(s: seq<Row>, y: Row, col: Column, reverse: bool)
    requires SortedBy(s, col, reverse) && NoneAfter(s, y, col, reverse)
    ensures SortedBy(s + [y], col, reverse)
  {
    var r := s + [y];
    forall i, j | 0 <= i < j < |r| ensures !Before(r[j], r[i], col, reverse) {
      assert r[i] == s[i];
      if j < |s| { assert r[j] == s[j]; }
    }
  }

  /** Inserting a row `y` does not belong after keeps `y` after none of the rows. */
  lemma InsertKeepsNoneAfter(s: seq<Row>, x: Row, y: Row, col: Column, reverse: bool)
    requires NoneAfter(s, y, col, reverse) && !Before(y, x, col, reverse)
    ensures NoneAfter(Insert(s, x, col, reverse), y, col, reverse)
  {
    var r := Insert(s, x, col, reverse);
    forall i | 0 <= i < |r| ensures !Before(y, r[i], col, reverse) {
      assert r[i] in multiset(r);
      if r[i] != x {
        assert r[i] in multiset(s);
        var k :| 0 <= k < |s| && s[k] == r[i];
      }
    }
  }

  lemma {:induction false} InsertSorted(sorted: seq<Row>, x: Row, col: Column, reverse: bool)
    requires SortedBy(sorted, col, reverse)
    ensures SortedBy(Insert(sorted, x, col, reverse), col, reverse)
    decreases |sorted|
  {
    if sorted != [] {
      var last := sorted[|sorted| - 1];
      var init := sorted[..|sorted| - 1];
      SortedInit(sorted, col, reverse);
      if Before(x, last, col, reverse) {
        InsertSorted(init, x, col, reverse);
        BeforeAsymmetric(x, last, col, reverse);
        InsertKeepsNoneAfter(init, x, last, col, reverse);
        SortedSnoc(Insert(init, x, col, reverse), last, col, reverse);
      } else {
        forall i | 0 <= i < |sorted| ensures !Before(x, sorted[i], col, reverse) {
          if i < |sorted| - 1 {
            assert init[i] == sorted[i];
            NotBeforeTransitive(x, last, sorted[i], col, reverse);
          }
        }
        SortedSnoc(sorted, x, col, reverse);
      }
    }
  }

  /** The displayed rows come out ordered by the column's key in the chosen direction. */
  lemma {:induction false} SortRowsSorted(rows: seq<Row>, col: Column, reverse: bool)
    ensures SortedBy(SortRows(rows, col, reverse), col, reverse)
    decreases |rows|
  {
    if rows != [] {
      SortRowsSorted(rows[..|rows| - 1], col, reverse);
      InsertSorted(SortRows(rows[..|rows| - 1], col, reverse), rows[|rows| - 1], col, reverse);
    }
  }

  /** The rows whose key is `k`, in order. */
  function WithKey(rows: seq<Row>, col: Column, k: Key): seq<Row> {
    if rows == [] then []
    else WithKey(rows[..|rows| - 1], col, k) + (if KeyOf(rows[|rows| - 1], col) == k then [rows[|rows| - 1]] else [])
  }

  lemma {:induction false} WithKeyConcat(a: seq<Row>, b: seq<Row>, col: Column, k: Key)
    ensures WithKey(a + b, col, k) == WithKey(a, col, k) + WithKey(b, col, k)
    decreases |b|
  {
    if b != [] {
      var init, last := b[..|b| - 1], b[|b| - 1];
      SnocOfConcat(a, b);
      WithKeyConcat(a, init, col, k);
      RowRegroup(WithKey(a, col, k), WithKey(init, col, k), if KeyOf(last, col) == k then [last] else []);
    } else {
      assert a + b == a;
    }
  }

  /** The last element of `a + b` and what precedes it, for a non-empty `b`. */
  lemma SnocOfConcat(a: seq<Row>, b: seq<Row>)
    requires b != []
    ensures (a + b)[..|a + b| - 1] == a + b[..|b| - 1]
    ensures (a + b)[|a + b| - 1] == b[|b| - 1]
  {
  }

  lemma RowRegroup(x: seq<Row>, y: seq<Row>, z: seq<Row>)
    ensures x + y + z == x + (y + z)
  {
  }

  lemma WithKeySingle(x: Row, col: Column, k: Key)
    ensures WithKey([x], col, k) == if KeyOf(x, col) == k then [x] else []
  {
    assert [x][..0] == [];
  }

  /** A row that belongs strictly ahead of another has a different key. */
  lemma BeforeKeysDiffer(a: Row, b: Row, col: Column, reverse: bool)
    requires Before(a, b, col, reverse)
    ensures KeyOf(a, col) != KeyOf(b, col)
  {
    if KeyOf(a, col) == KeyOf(b, col) && KeyOf(a, col).Text? {
      LessIrreflexive(KeyOf(a, col).s);
    }
  }

  /** The rows of `rows` with key `k` ahead of `x`'s own entry, if its key is `k`. */
  function WithKeyThen(rows: seq<Row>, x: Row, col: Column, k: Key): seq<Row> {
    WithKey(rows, col, k) + (if KeyOf(x, col) == k then [x] else [])
  }

  /** Putting a row of another key after `x`'s entry: the two entries commute. */
  lemma AheadStable(inserted: seq<Row>, sorted: seq<Row>, x: Row, col: Column, k: Key)
    requires sorted != [] && KeyOf(x, col) != KeyOf(sorted[|sorted| - 1], col)
    requires WithKey(inserted, col, k) == WithKeyThen(sorted[..|sorted| - 1], x, col, k)
    ensures WithKey(inserted + [sorted[|sorted| - 1]], col, k) == WithKeyThen(sorted, x, col, k)
  {
    var last := sorted[|sorted| - 1];
    var xs := if KeyOf(x, col) == k then [x] else [];
    var ls := if KeyOf(last, col) == k then [last] else [];
    WithKeyConcat(inserted, [last], col, k);
    WithKeySingle(last, col, k);
    OneOfCommutes(WithKey(sorted[..|sorted| - 1], col, k), xs, ls);
  }

  /** Two parts of which one is empty can be appended in either order. */
  lemma OneOfCommutes(a: seq<Row>, xs: seq<Row>, ls: seq<Row>)
    requires xs == [] || ls == []
    ensures a + xs + ls == a + ls + xs
  {
    if xs == [] {
      assert a + xs == a && a + ls + xs == a + ls;
    } else {
      assert a + ls == a && a + xs + ls == a + xs;
    }
  }

  lemma {:induction false} InsertStable(sorted: seq<Row>, x: Row, col: Column, reverse: bool, k: Key)
    ensures WithKey(Insert(sorted, x, col, reverse), col, k) == WithKeyThen(sorted, x, col, k)
    decreases |sorted|
  {
    if sorted == [] {
      WithKeySingle(x, col, k);
    } else if Before(x, sorted[|sorted| - 1], col, reverse) {
      var inserted := Insert(sorted[..|sorted| - 1], x, col, reverse);
      assert Insert(sorted, x, col, reverse) == inserted + [sorted[|sorted| - 1]];
      InsertStable(sorted[..|sorted| - 1], x, col, reverse, k);
      BeforeKeysDiffer(x, sorted[|sorted| - 1], col, reverse);
      AheadStable(inserted, sorted, x, col, k);
    } else {
      assert Insert(sorted, x, col, reverse) == sorted + [x];
      WithKeyConcat(sorted, [x], col, k);
      WithKeySingle(x, col, k);
    }
  }

  /** The sort is stable: rows with one key keep their relative order. */
  lemma {:induction false} SortRowsStable(rows: seq<Row>, col: Column, reverse: bool, k: Key)
    ensures WithKey(SortRows(rows, col, reverse), col, k) == WithKey(rows, col, k)
    decreases |rows|
  {
    if rows != [] {
      var init := rows[..|rows| - 1];
      SortRowsStable(init, col, reverse, k);
      InsertStable(SortRows(init, col, reverse), rows[|rows| - 1], col, reverse, k);
    }
  }

  /** Each header's caption and the direction its next click sorts in. */
  datatype Headings = Headings(caption: map<Column, string>, nextReverse: map<Column, bool>)

  function Title(col: Column): string {
    match col
    case IdColumn => "ID"
    case FilenameColumn => "Filename"
    case PathColumn => "Path"
    case ArtistColumn => "Artist"
    case AlbumColumn => "Album"
    case TagsColumn => "Tags"
  }

  const AllColumns: set<Column> := {IdColumn, FilenameColumn, PathColumn, ArtistColumn, AlbumColumn, TagsColumn}

  lemma EveryColumn(c: Column)
    ensures c in AllColumns
  {
  }

  /** Plain captions, every header sorting ascending on its first click. */
  function InitialHeadings(): (h: Headings)
    ensures forall c :: c in h.caption && h.caption[c] == Title(c)
    ensures forall c :: c in h.nextReverse && !h.nextReverse[c]
  {
    forall c: Column ensures c in AllColumns { EveryColumn(c); }
    Headings(map c | c in AllColumns :: Title(c), map c | c in AllColumns :: false)
  }

  predicate Complete(h: Headings) {
    forall c :: c in h.caption && c in h.nextReverse
  }

  /** The arrow a sorted column's caption carries. */
  function Arrow(reverse: bool): string {
    if reverse then " ↓" else " ↑"
  }

  /** Every caption plain except the sorted column's, which carries the arrow. */
  function Captions(col: Column, reverse: bool): (m: map<Column, string>)
    ensures forall c :: c in m
    ensures m[col] == Title(col) + Arrow(reverse)
    ensures forall c :: c != col ==> m[c] == Title(c)
  {
    forall c: Column ensures c in AllColumns { EveryColumn(c); }
    map c | c in AllColumns :: if c == col then Title(c) + Arrow(reverse) else Title(c)
  }

  /** The headers after a click on `col`: its caption gets the arrow, its next click sorts the other way. */
  function Toggle(h: Headings, col: Column): (r: Headings)
    requires Complete(h)
    ensures Complete(r)
    ensures r.caption[col] == Title(col) + Arrow(h.nextReverse[col])
    ensures forall c :: c != col ==> r.caption[c] == Title(c)
    ensures r.nextReverse[col] == !h.nextReverse[col]
    ensures forall c :: c != col ==> r.nextReverse[c] == h.nextReverse[c]
  {
    var reverse := h.nextReverse[col];
    Headings(Captions(col, reverse), h.nextReverse[col := !reverse])
  }

  /** Two clicks on one header leave it sorting the way it did before them. */
  lemma ToggleTwice(h: Headings, col: Column)
    requires Complete(h)
    ensures Toggle(Toggle(h, col), col).nextReverse == h.nextReverse
  {
    var m, r := h.nextReverse, h.nextReverse[col];
    assert Toggle(Toggle(h, col), col).nextReverse == m[col := !r][col := r];
    UpdateTwice(m, col, !r, r);
    UpdateSame(m, col);
  }

  lemma UpdateTwice(m: map<Column, bool>, k: Column, a: bool, b: bool)
    ensures m[k := a][k := b] == m[k := b]
  {
  }

  lemma UpdateSame(m: map<Column, bool>, k: Column)
    requires k in m
    ensures m[k := m[k]] == m
  {
  }

  /**
   * `sort_column(col, reverse)` with the direction the header's last click left:
   * the same rows, ordered by the column's key in that direction, equal keys in
   * their previous order; and the toggled headers.
   */
  function ClickHeader(rows: seq<Row>, h: Headings, col: Column): (r: (seq<Row>, Headings))
    requires Complete(h)
    ensures multiset(r.0) == multiset(rows)
    ensures SortedBy(r.0, col, h.nextReverse[col])
    ensures forall k :: WithKey(r.0, col, k) == WithKey(rows, col, k)
    ensures r.1 == Toggle(h, col)
  {
    var reverse := h.nextReverse[col];
    var sorted := SortRows(rows, col, reverse);
    SortRowsSorted(rows, col, reverse);
    assert forall k :: WithKey(sorted, col, k) == WithKey(rows, col, k) by {
      forall k ensures WithKey(sorted, col, k) == WithKey(rows, col, k) {
        SortRowsStable(rows, col, reverse, k);
      }
    }
    (sorted, Toggle(h, col))
  }

  /**
   * `sort_column` as written for the ID column: the first
   * `library_tree.set(item, '#0')` raises, since Tk refuses to read the tree
   * column as a data column, so over a non-empty list the click ends before
   * any row moves or any heading changes. Every other click is `ClickHeader`.
   */
  function ClickHeaderAsWritten(rows: seq<Row>, h: Headings, col: Column): (r: (seq<Row>, Headings))
    requires Complete(h)
    ensures multiset(r.0) == multiset(rows)
  {
    if col == IdColumn && rows != [] then (rows, h) else ClickHeader(rows, h, col)
  }

  /**
   * As written, clicking the ID header over a non-empty list changes nothing,
   * however often it is clicked: two rows out of id order stay out of order,
   * and the next click's direction never flips, where `ClickHeader` sorts
   * them and flips it.
   */
  lemma ClickIdAsWrittenNeverSorts(h: Headings, a: Row, b: Row)
    requires Complete(h) && a.id > b.id && !h.nextReverse[IdColumn]
    ensures var r := ClickHeaderAsWritten([a, b], h, IdColumn);
      r == ([a, b], h) && !SortedBy(r.0, IdColumn, false)
    ensures var r := ClickHeader([a, b], h, IdColumn);
      SortedBy(r.0, IdColumn, false) && r.1.nextReverse[IdColumn]
  {
    var r := ClickHeaderAsWritten([a, b], h, IdColumn);
    assert Before(b, a, IdColumn, false) by { assert KeyOf(b, IdColumn) == Num(b.id); }
    assert r.0[1] == b && r.0[0] == a;
  }

  /** `filter_library_to_playlist`: the ids of the shown rows whose stored path is in the playlist, in tree order. */
  function PlaylistSelection(shown: seq<Row>, songs: seq<Song>, playlist: set<string>): (sel: seq<nat>)
    ensures forall id :: id in sel <==>
      exists i :: 0 <= i < |shown| && shown[i].id == id
        && FindById(songs, id).Some? && FindById(songs, id).value.relativePath in playlist
  {
    if shown == [] then []
    else
      var prev := PlaylistSelection(shown[..|shown| - 1], songs, playlist);
      var x := shown[|shown| - 1];
      var found := FindById(songs, x.id);
      assert forall i :: 0 <= i < |shown| - 1 ==> shown[..|shown| - 1][i] == shown[i];
      prev + (if found.Some? && found.value.relativePath in playlist then [x.id] else [])
  }

  /** Over the unfiltered list, a playlist selects exactly the tracks whose path it names. */
  lemma PlaylistSelectsNamed(songs: seq<Song>, playlist: set<string>, s: Song)
    requires UniqueIds(songs)
    requires s in songs
    ensures s.id in PlaylistSelection(View(songs, NoFilters), songs, playlist) <==> s.relativePath in playlist
  {
    NoFiltersShowAll(songs);
    var shown := View(songs, NoFilters);
    var k :| 0 <= k < |songs| && songs[k] == s;
    FindByIdUnique(songs, k);
    assert shown[k].id == s.id;
  }
}
