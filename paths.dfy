/**
 * POSIX `pathlib` operations on path strings, as the library uses them:
 * a file's name and suffix, joining a root with a relative path, and
 * `relative_to` back again. Stored paths are taken to be already
 * normalised (no empty or `.` components, no trailing `/`); a path typed by
 * the user goes through `Components`, the pieces `pathlib` keeps of it.
 */
module Paths {
  import opened Wrappers
  import opened Text

  /** `Path(p).name`: the text after the last `/`. */
  function Name(p: string): (r: string)
    ensures '/' !in r
    ensures |r| <= |p| && r == p[|p| - |r|..]
  {
    var i := LastIndexOf(p, '/');
    p[i + 1..]
  }

  /** `Path(name).suffix`: from the last `.` on, unless that dot starts or ends the name. */
  function Suffix(name: string): (r: string)
    ensures r == [] || (r[0] == '.' && |r| >= 2 && '.' !in r[1..])
    ensures r != [] ==> |r| < |name| && r == name[|name| - |r|..]
  {
    var i := LastIndexOf(name, '.');
    if 0 < i < |name| - 1 then
      assert name[i..][1..] == name[i + 1..];
      name[i..]
    else []
  }

  /** `Path(p).is_absolute()` on POSIX. */
  predicate IsAbsolute(p: string) {
    p != [] && p[0] == '/'
  }

  /** A normalised absolute directory (`/`, or `/a/b` without a trailing slash) with no line break in it. */
  predicate IsRootDir(root: string) {
    IsAbsolute(root) && (root == "/" || (root[|root| - 1] != '/'))
    && '\n' !in root && '\r' !in root
  }

  /**
   * A path relative to the library root as the scan stores it (the `str` of a
   * `relative_to`): non-empty, not absolute, no trailing slash, no empty or
   * `.` piece, and without a line break or surrounding
   * whitespace (which a one-path-per-line playlist could not carry).
   */
  predicate IsStoredRel(rel: string) {
    rel != [] && rel[0] != '/' && rel[|rel| - 1] != '/' && IsNormalRel(rel) && IsStripped(rel)
    && '\n' !in rel && '\r' !in rel
  }

  /** `str(Path(root) / rel)` for a relative `rel`. */
  function JoinPath(root: string, rel: string): (r: string)
    ensures |r| >= |root|
    ensures r[..|root|] == root
  {
    if root == "/" then root + rel else root + "/" + rel
  }

  /**
   * `str(Path(p).relative_to(Path(root)))`, or None where Python raises
   * `ValueError`: both paths are compared by the components `pathlib` keeps,
   * so `//`, `/./` and a trailing `/` make no difference.
   */
  function RelativeTo(p: string, root: string): (r: Option<string>)
    ensures r.Some? <==> IsAbsolute(p) == IsAbsolute(root) && Components(root) <= Components(p)
  {
    var base, parts := Components(root), Components(p);
    if IsAbsolute(p) == IsAbsolute(root) && base <= parts then Some(RelativeString(parts[|base|..])) else None
  }

  /** Joining a relative path to the root and taking it relative again gives the path back. */
  lemma RelativeToJoin(root: string, rel: string)
    requires IsRootDir(root) && IsStoredRel(rel)
    ensures RelativeTo(JoinPath(root, rel), root) == Some(rel)
    ensures IsAbsolute(JoinPath(root, rel))
  {
    var p := JoinPath(root, rel);
    assert p[0] == root[0];
    ComponentsOfJoin(root, rel);
    var base, pieces := Components(root), Split(rel, '/');
    assert (base + pieces)[|base|..] == pieces;
    JoinSplit(rel, '/');
  }

  const MusicRoot: string := "/music"

  /** The example root `/music` has the one component `music`. */
  lemma MusicRootComponents()
    ensures Components(MusicRoot) == ["music"]
  {
    ComponentsPair("", "music");
    assert "" + "/" + "music" == MusicRoot;
    assert Kept(["music"]) == ["music"] + Kept([]);
  }

  /** A plain file name: one component that `pathlib` keeps as it is. */
  predicate IsPlainName(name: string) {
    name != [] && name != "." && '/' !in name
  }

  /** `relative_to` of an absolute line whose components are `music`, `name` is `name`. */
  lemma RelativeToMusicFile(line: string, name: string)
    requires IsAbsolute(line) && Components(line) == ["music", name]
    ensures RelativeTo(line, MusicRoot) == Some(name)
  {
    MusicRootComponents();
    assert Components(line)[1..] == [name];
  }

  /** A doubled slash does not change what a playlist line is relative to. */
  lemma RelativeToDoubledSlash(name: string)
    requires IsPlainName(name)
    ensures RelativeTo(MusicRoot + "//" + name, MusicRoot) == Some(name)
  {
    var line := MusicRoot + "//" + name;
    assert line == "/" + "music" + "/" + ("/" + name);
    ComponentsUnder("music", "/" + name);
    assert "/" + name == "" + "/" + name;
    ComponentsPair("", name);
    assert Kept([""]) == Kept([]);
    assert Kept([name]) == [name] + Kept([]);
    RelativeToMusicFile(line, name);
  }

  /** Nor does a `.` piece. */
  lemma RelativeToDotPiece(name: string)
    requires IsPlainName(name)
    ensures RelativeTo(MusicRoot + "/./" + name, MusicRoot) == Some(name)
  {
    var line := MusicRoot + "/./" + name;
    assert line == "/" + "music" + "/" + ("." + "/" + name);
    ComponentsUnder("music", "." + "/" + name);
    ComponentsPair(".", name);
    assert Kept(["."]) == Kept([]);
    assert Kept([name]) == [name] + Kept([]);
    RelativeToMusicFile(line, name);
  }

  /** Nor does a trailing slash. */
  lemma RelativeToTrailingSlash(name: string)
    requires IsPlainName(name)
    ensures RelativeTo(MusicRoot + "/" + name + "/", MusicRoot) == Some(name)
  {
    var line := MusicRoot + "/" + name + "/";
    assert line == "/" + "music" + "/" + (name + "/" + "");
    ComponentsUnder("music", name + "/" + "");
    ComponentsPair(name, "");
    assert Kept([""]) == Kept([]);
    assert Kept([name]) == [name] + Kept([]);
    RelativeToMusicFile(line, name);
  }

  /** A path under another directory is not relative to the root. */
  lemma RelativeToOutside(dir: string, rest: string)
    requires IsPlainName(dir) && dir != "music"
    ensures RelativeTo("/" + dir + "/" + rest, MusicRoot) == None
  {
    MusicRootComponents();
    ComponentsUnder(dir, rest);
    assert Components("/" + dir + "/" + rest)[0] == dir;
  }

  /** The components of two slash-free pieces joined by one slash. */
  lemma ComponentsPair(x: string, y: string)
    requires '/' !in x && '/' !in y
    ensures Components(x + "/" + y) == Kept([x]) + Kept([y])
  {
    SplitAppend(x, '/', y);
    KeptAppend([x], [y]);
  }

  /** An absolute path under a plain directory has that directory as its first component. */
  lemma ComponentsUnder(name: string, rest: string)
    requires name != [] && name != "." && '/' !in name
    ensures Components("/" + name + "/" + rest) == [name] + Components(rest)
  {
    assert "/" + name + "/" + rest == "" + "/" + (name + "/" + rest);
    SplitAppend("", '/', name + "/" + rest);
    SplitAppend(name, '/', rest);
    assert Split("", '/') == [""];
    KeptAppend([""], [name] + Split(rest, '/'));
    KeptAppend([name], Split(rest, '/'));
    assert Kept([""]) == Kept([]);
    assert Kept([name]) == [name] + Kept([]);
  }

  /** The components of `root/rel` are the root's followed by the relative path's. */
  lemma ComponentsOfJoin(root: string, rel: string)
    requires IsRootDir(root)
    ensures Components(JoinPath(root, rel)) == Components(root) + Components(rel)
  {
    var r0 := if root == "/" then "" else root;
    assert JoinPath(root, rel) == r0 + "/" + rel;
    SplitAppend(r0, '/', rel);
    KeptAppend(Split(r0, '/'), Split(rel, '/'));
    if root == "/" {
      assert Split("", '/') == [""];
      assert Kept([""]) == Kept([]);
      SplitAppend("", '/', "");
      assert "" + "/" + "" == root;
      KeptAppend([""], [""]);
    }
  }

  /** Dropping pieces distributes over concatenation. */
  lemma {:induction false} KeptAppend(a: seq<string>, b: seq<string>)
    ensures Kept(a + b) == Kept(a) + Kept(b)
    decreases |a|
  {
    if a == [] {
      assert a + b == b;
    } else {
      assert (a + b)[1..] == a[1..] + b;
      KeptAppend(a[1..], b);
    }
  }

  /** A plain name is its own only piece and its own only component. */
  lemma ComponentsPlain(name: string)
    requires name != [] && name != "." && '/' !in name
    ensures Split(name, '/') == [name] && Components(name) == [name]
  {
    assert Kept([name]) == [name] + Kept([]);
  }

  /** A joined stored path keeps the properties that let it stand on its own playlist line. */
  lemma JoinPathLine(root: string, rel: string)
    requires IsRootDir(root) && IsStoredRel(rel)
    ensures IsStripped(JoinPath(root, rel))
    ensures '\n' !in JoinPath(root, rel) && '\r' !in JoinPath(root, rel)
    ensures JoinPath(root, rel)[0] == '/'
  {
    var p := JoinPath(root, rel);
    assert p[|p| - 1] == rel[|rel| - 1];
    forall k | 0 <= k < |p| ensures p[k] != '\n' && p[k] != '\r' {
      if k < |root| { assert p[k] == root[k]; }
      else if root == "/" { assert p[k] == rel[k - 1]; }
      else if k > |root| { assert p[k] == rel[k - |root| - 1]; }
    }
  }

  /** The name of `dir/name` is `name` when it holds no `/`. */
  lemma NameOfJoined(dir: string, name: string)
    requires '/' !in name
    ensures Name(dir + "/" + name) == name
  {
    var rel := dir + "/" + name;
    assert rel[|dir| + 1..] == name;
    LastIndexOfAt(rel, '/', |dir|);
  }

  /** The pieces between slashes that `pathlib` keeps: empty pieces (from `//`, a leading or a trailing `/`) and `.` are dropped. */
  function Kept(pieces: seq<string>): (r: seq<string>)
    ensures |r| <= |pieces|
    ensures forall i :: 0 <= i < |r| ==> r[i] in pieces && r[i] != [] && r[i] != "."
    ensures (forall i :: 0 <= i < |pieces| ==> pieces[i] != [] && pieces[i] != ".") ==> r == pieces
  {
    if pieces == [] then []
    else
      assert forall i :: 0 <= i < |pieces| - 1 ==> pieces[1..][i] == pieces[i + 1];
      if pieces[0] == [] || pieces[0] == "." then Kept(pieces[1..])
      else [pieces[0]] + Kept(pieces[1..])
  }

  /** `Path(p).parts` without the leading `/`: the non-empty pieces other than `.`, none holding a `/`. */
  function Components(p: string): (r: seq<string>)
    ensures forall i :: 0 <= i < |r| ==> r[i] != [] && r[i] != "." && '/' !in r[i]
  {
    SplitLacksSep(p, '/');
    Kept(Split(p, '/'))
  }

  /** A relative path that `pathlib` leaves as it is: every piece between slashes is non-empty and not `.`. */
  predicate IsNormalRel(rel: string) {
    Components(rel) == Split(rel, '/')
  }

  /** `str()` of a relative path given by its components: `.` for none. */
  function RelativeString(parts: seq<string>): string {
    if parts == [] then "." else Join(parts, "/")
  }
}
