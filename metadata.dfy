/**
 * Which files a scan takes, and how it picks a file's artist and album out of
 * whatever the tag reader found. The tag reader itself is abstract: a `Probe`
 * says whether opening the file raised, was not recognised, or produced a
 * key-to-values tag map (plus, for the fallback branch, an EasyID3 view).
 */
module Metadata {
  import opened Wrappers
  import opened Text
  import opened Paths

  /** The suffixes a scan accepts, compared lower-cased. */
  const AudioExtensions: set<string> := {".mp3", ".wav", ".flac", ".m4a", ".ogg", ".aac", ".wma"}

  /** The lower-cased suffix of the last path component. */
  function SuffixLower(relPath: string): (r: string)
    ensures r == [] || r[0] == '.'
  {
    Lower(Suffix(Name(relPath)))
  }

  /** The scan keeps a path exactly when its lower-cased suffix is an audio extension. */
  predicate IsAudioSuffix(suffix: string) {
    Lower(suffix) in AudioExtensions
  }

  /** The extension test applied to a relative path. */
  predicate IsAudioFile(relPath: string) {
    IsAudioSuffix(Suffix(Name(relPath)))
  }

  /** A tag map as the reader exposes it: an empty map is a falsy `tags`. */
  type TagMap = map<string, seq<string>>

  datatype Probe =
    | ReadError                               // opening the file raised
    | NotRecognized                           // the reader returned None
    | Opened(tags: TagMap, easy: Option<TagMap>)  // `easy` is None when EasyID3 raises

  /** The layout a suffix selects. */
  datatype Layout = Id3Frames | VorbisComments | Mp4Atoms | EasyId3

  function LayoutOf(suffixLower: string): Layout {
    if suffixLower == ".mp3" then Id3Frames
    else if suffixLower == ".flac" || suffixLower == ".ogg" || suffixLower == ".oga" then VorbisComments
    else if suffixLower == ".m4a" || suffixLower == ".mp4" then Mp4Atoms
    else EasyId3
  }

  function ArtistKey(layout: Layout): string {
    match layout
    case Id3Frames => "TPE1"
    case VorbisComments => "ARTIST"
    case Mp4Atoms => "©ART"
    case EasyId3 => "artist"
  }

  function AlbumKey(layout: Layout): string {
    match layout
    case Id3Frames => "TALB"
    case VorbisComments => "ALBUM"
    case Mp4Atoms => "©alb"
    case EasyId3 => "album"
  }

  datatype Fields = Fields(artist: string, album: string)

  const NoFields := Fields("", "")

  /** `str(frame)` of an ID3 text frame: its values joined by U+0000. */
  function FrameText(values: seq<string>): string {
    Join(values, "\U{0}")
  }

  /** `m.get(key, [''])[0]`, or None where indexing an empty value list raises. */
  function FirstValue(m: TagMap, key: string): Option<string> {
    if key !in m then Some("")
    else if m[key] == [] then None
    else Some(m[key][0])
  }

  /** Artist then album by `get(...)[0]`; a raise leaves the fields not yet assigned empty. */
  function FirstValues(m: TagMap, artistKey: string, albumKey: string): Fields {
    match FirstValue(m, artistKey)
    case None => NoFields
    case Some(a) => Fields(a, FirstValue(m, albumKey).GetOr(""))
  }

  /** The artist and album a scan stores for a file with this lower-cased suffix. */
  function ReadFields(readerAvailable: bool, suffixLower: string, probe: Probe): (r: Fields)
    ensures !readerAvailable || !probe.Opened? ==> r == NoFields
  {
    if !readerAvailable || !probe.Opened? then NoFields
    else
      var tags := probe.tags;
      match LayoutOf(suffixLower)
      case Id3Frames =>
        if tags == map[] then NoFields
        else Fields(if "TPE1" in tags then FrameText(tags["TPE1"]) else "",
                    if "TALB" in tags then FrameText(tags["TALB"]) else "")
      case VorbisComments =>
        if tags == map[] then NoFields else FirstValues(tags, "ARTIST", "ALBUM")
      case Mp4Atoms =>
        if tags == map[] then NoFields else FirstValues(tags, "©ART", "©alb")
      case EasyId3 =>
        match probe.easy
        case None => NoFields
        case Some(e) => FirstValues(e, "artist", "album")
  }

  /** The map a layout reads: the file's own tags, or the EasyID3 view for the fallback. */
  function Consulted(layout: Layout, probe: Probe): TagMap
    requires probe.Opened?
  {
    if layout == EasyId3 then probe.easy.GetOr(map[]) else probe.tags
  }

  /** How one tag value list becomes a stored field. */
  function FieldText(layout: Layout, values: seq<string>): string
    requires values != []
  {
    if layout == Id3Frames then FrameText(values) else values[0]
  }

  /**
   * With the reader available and both keys of the file's layout holding values,
   * artist and album are taken from those keys.
   */
  lemma ReadFieldsFromKeys(suffixLower: string, probe: Probe)
    requires probe.Opened?
    requires var m := Consulted(LayoutOf(suffixLower), probe);
      ArtistKey(LayoutOf(suffixLower)) in m && m[ArtistKey(LayoutOf(suffixLower))] != []
      && AlbumKey(LayoutOf(suffixLower)) in m && m[AlbumKey(LayoutOf(suffixLower))] != []
    requires LayoutOf(suffixLower) == EasyId3 ==> probe.easy.Some?
    ensures var layout := LayoutOf(suffixLower);
      var m := Consulted(layout, probe);
      ReadFields(true, suffixLower, probe)
        == Fields(FieldText(layout, m[ArtistKey(layout)]), FieldText(layout, m[AlbumKey(layout)]))
  {
  }

  /** A key the file lacks leaves its field empty. */
  lemma ReadFieldsMissingKeys(suffixLower: string, probe: Probe)
    requires probe.Opened?
    ensures var layout := LayoutOf(suffixLower);
      var m := Consulted(layout, probe);
      var r := ReadFields(true, suffixLower, probe);
      && (ArtistKey(layout) !in m ==> r.artist == "")
      && (AlbumKey(layout) !in m ==> r.album == "")
  {
  }

  /** A key holding no values makes the lookup raise: nothing after it is read. */
  lemma ReadFieldsEmptyArtistList(suffixLower: string, probe: Probe)
    requires probe.Opened? && LayoutOf(suffixLower) != Id3Frames
    requires var layout := LayoutOf(suffixLower);
      ArtistKey(layout) in Consulted(layout, probe) && Consulted(layout, probe)[ArtistKey(layout)] == []
    ensures ReadFields(true, suffixLower, probe) == NoFields
  {
  }

  /**
   * Among the suffixes a scan accepts, only `.mp3` reads ID3 frames, `.flac` and
   * `.ogg` read Vorbis comments, `.m4a` reads MP4 atoms, and `.wav`, `.aac` and
   * `.wma` fall through to EasyID3; the `.oga` and `.mp4` cases never occur.
   */
  lemma ScannedLayouts(s: string)
    requires s in AudioExtensions
    ensures LayoutOf(s) == Id3Frames <==> s == ".mp3"
    ensures LayoutOf(s) == VorbisComments <==> s == ".flac" || s == ".ogg"
    ensures LayoutOf(s) == Mp4Atoms <==> s == ".m4a"
    ensures LayoutOf(s) == EasyId3 <==> s == ".wav" || s == ".aac" || s == ".wma"
    ensures s != ".oga" && s != ".mp4"
  {
  }

  /** The suffix of `stem` followed by a dot and a dot-free, non-empty extension is that extension. */
  lemma SuffixOfDotted(stem: string, ext: string)
    requires stem != [] && |ext| >= 2 && ext[0] == '.' && '.' !in ext[1..]
    ensures Suffix(stem + ext) == ext
  {
    var name := stem + ext;
    assert name[|stem| + 1..] == ext[1..];
    LastIndexOfAt(name, '.', |stem|);
    assert name[|stem|..] == ext;
  }

  /** A name whose only dot starts it has no suffix. */
  lemma SuffixOfDotFile(ext: string)
    requires '.' !in ext
    ensures Suffix("." + ext) == ""
  {
    assert ("." + ext)[1..] == ext;
    LastIndexOfAt("." + ext, '.', 0);
  }

  /** An upper-case suffix is accepted: a file named `stem.MP3` is an audio file. */
  lemma UpperCaseSuffixAccepted(stem: string)
    requires stem != []
    ensures IsAudioSuffix(Suffix(stem + ".MP3"))
  {
    SuffixOfDotted(stem, ".MP3");
    assert Lower(".MP3") == ".mp3";
  }

  /** A dot file such as `.mp3` has no suffix and is never an audio file. */
  lemma DotFileRejected(ext: string)
    requires '.' !in ext
    ensures !IsAudioSuffix(Suffix("." + ext))
  {
    SuffixOfDotFile(ext);
    assert !IsAudioSuffix("");
  }
}
