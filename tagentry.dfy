/**
 * The tag entry with autocomplete: which tag the cursor is in, the suggestion
 * panel built from the tags in use, and splicing a chosen suggestion into the
 * entry.
 */
module TagEntry {
  import opened Text
  import opened Tags

  // ---- The tag under the cursor ----

  /** Position of the last comma before the cursor, or -1 (`text[:cursor].rfind(',')`). */
  function LastComma(text: string, cursor: nat): (i: int)
    requires cursor <= |text|
    ensures -1 <= i < cursor
    ensures i >= 0 ==> text[i] == ','
    decreases cursor
  {
    if cursor == 0 then -1
    else if text[cursor - 1] == ',' then cursor - 1
    else LastComma(text, cursor - 1)
  }

  /** No comma lies between the one `LastComma` finds and the cursor. */
  lemma {:induction false} LastCommaIsLast(text: string, cursor: nat)
    requires cursor <= |text|
    ensures ',' !in text[LastComma(text, cursor) + 1..cursor]
    decreases cursor
  {
    if cursor > 0 && text[cursor - 1] != ',' {
      var lc := LastComma(text, cursor);
      LastCommaIsLast(text, cursor - 1);
      assert text[lc + 1..cursor] == text[lc + 1..cursor - 1] + [text[cursor - 1]];
    }
  }

  /** The tag being typed: the stripped text between the last comma before the cursor and the cursor. */
  function CurrentTag(text: string, cursor: nat): (r: string)
    requires cursor <= |text|
    ensures IsStripped(r) && ',' !in r
  {
    var before := text[..cursor];
    var lc := LastComma(text, cursor);
    assert before[lc + 1..] == text[lc + 1..cursor];
    LastCommaIsLast(text, cursor);
    StripChars(if lc >= 0 then before[lc + 1..] else before);
    if lc >= 0 then Strip(before[lc + 1..]) else Strip(before)
  }

  /** The tags before the cursor that are already finished by a comma. */
  function CompletedTags(text: string, cursor: nat): seq<string>
    requires cursor <= |text|
  {
    var lc := LastComma(text, cursor);
    if lc >= 0 then ParseTags(text[..lc]) else []
  }

  /** The text before the cursor: the completed text and its comma, if any, then the piece under the cursor. */
  lemma BeforeCursor(text: string, cursor: nat) returns (piece: string)
    requires cursor <= |text|
    ensures piece == text[LastComma(text, cursor) + 1..cursor] && ',' !in piece
    ensures CurrentTag(text, cursor) == Strip(piece)
    ensures LastComma(text, cursor) >= 0 ==> text[..cursor] == text[..LastComma(text, cursor)] + "," + piece
    ensures LastComma(text, cursor) < 0 ==> text[..cursor] == piece
  {
    var lc := LastComma(text, cursor);
    piece := text[lc + 1..cursor];
    LastCommaIsLast(text, cursor);
    assert text[..cursor][lc + 1..] == piece;
    if lc >= 0 {
      SplitAround(text[..cursor], lc);
    }
  }

  /** The tags of a text ending in a comma and a comma-free piece. */
  lemma ParseCommaPiece(done: string, piece: string)
    requires ',' !in piece
    ensures ParseTags(done + "," + piece) == ParseTags(done) + (if Strip(piece) != [] then [Strip(piece)] else [])
  {
    ParseAppend(done, piece);
    ParsePiece(piece);
  }

  /** The tag under the cursor is the last tag of the text before the cursor, when there is one. */
  lemma CurrentTagIsLast(text: string, cursor: nat)
    requires cursor <= |text|
    ensures var cur := CurrentTag(text, cursor);
      ParseTags(text[..cursor]) == CompletedTags(text, cursor) + (if cur != [] then [cur] else [])
  {
    var piece := BeforeCursor(text, cursor);
    var lc := LastComma(text, cursor);
    if lc >= 0 {
      ParseCommaPiece(text[..lc], piece);
    } else {
      ParsePiece(piece);
    }
  }

  // ---- The suggestion panel ----

  /** The tags in use that contain the typed tag, ignoring case, in their order. */
  function Matching(tags: seq<string>, typed: string): (r: seq<string>)
    ensures |r| <= |tags|
  {
    if tags == [] then []
    else (if Contains(Lower(tags[0]), Lower(typed)) then [tags[0]] else []) + Matching(tags[1..], typed)
  }

  /** The matches are exactly the tags in use that contain the typed tag, ignoring case. */
  lemma {:induction false} MatchingMembers(tags: seq<string>, typed: string)
    ensures forall t :: t in Matching(tags, typed) <==> t in tags && Contains(Lower(t), Lower(typed))
    decreases |tags|
  {
    if tags != [] {
      MatchingMembers(tags[1..], typed);
      assert tags == [tags[0]] + tags[1..];
    }
  }

  /** There is a match exactly when some tag in use contains the typed tag. */
  lemma MatchingNonEmpty(tags: seq<string>, typed: string)
    ensures Matching(tags, typed) != [] <==> exists t :: t in tags && Contains(Lower(t), Lower(typed))
  {
    var m := Matching(tags, typed);
    MatchingMembers(tags, typed);
    if m != [] {
      assert m[0] in m;
    }
  }

  /** Filtering a strictly sorted list keeps it strictly sorted. */
  lemma {:induction false} MatchingSorted(tags: seq<string>, typed: string)
    requires StrictlySorted(tags)
    ensures StrictlySorted(Matching(tags, typed))
    decreases |tags|
  {
    if tags != [] {
      var rest := Matching(tags[1..], typed);
      assert StrictlySorted(tags[1..]) by {
        forall i, j | 0 <= i < j < |tags[1..]| ensures Less(tags[1..][i], tags[1..][j]) {
          assert tags[1..][i] == tags[i + 1] && tags[1..][j] == tags[j + 1];
        }
      }
      MatchingSorted(tags[1..], typed);
      if Contains(Lower(tags[0]), Lower(typed)) && rest != [] {
        MatchingMembers(tags[1..], typed);
        assert rest[0] in rest;
        SortedCons(tags[0], rest);
      }
    }
  }

  datatype Panel = Hidden | Shown(items: seq<string>, height: nat, selected: nat)

  /** The panel for a non-empty list of matches: the first ten, at most six rows high, the first selected. */
  function ShowPanel(tags: seq<string>): (p: Panel)
    requires tags != []
    ensures p.Shown? && p.selected == 0
    ensures |p.items| == (if |tags| < 10 then |tags| else 10) && p.items == tags[..|p.items|]
    ensures p.height == (if |tags| < 6 then |tags| else 6)
  {
    Shown(if |tags| <= 10 then tags else tags[..10], if |tags| < 6 then |tags| else 6, 0)
  }

  /** What a change of the entry shows, given the stored tag strings of every row. */
  function OnEntryChange(text: string, cursor: nat, rows: seq<string>): Panel
    requires cursor <= |text|
  {
    if text == "" then Hidden
    else
      var cur := CurrentTag(text, cursor);
      if cur == [] then Hidden
      else
        var m := Matching(ExistingTags(rows), cur);
        if m == [] then Hidden else ShowPanel(m)
  }

  /** The panel is shown exactly when a tag is being typed and has matches, and then lists them. */
  lemma PanelOfMatches(text: string, cursor: nat, rows: seq<string>)
    requires cursor <= |text|
    ensures var cur := CurrentTag(text, cursor);
      var m := Matching(ExistingTags(rows), cur);
      var p := OnEntryChange(text, cursor, rows);
      && (p.Shown? <==> cur != [] && m != [])
      && (p.Shown? ==> p == ShowPanel(m))
  {
    if text == "" {
      assert text[..cursor] == "";
    }
  }

  /** The panel for a sorted list of matches: sorted, drawn from the matches, all of them when there are at most ten. */
  lemma ShowPanelOfSorted(m: seq<string>)
    requires m != [] && StrictlySorted(m)
    ensures var p := ShowPanel(m);
      && |p.items| <= 10 && 1 <= p.height <= |p.items|
      && StrictlySorted(p.items)
      && (forall t :: t in p.items ==> t in m)
      && (|m| <= 10 ==> p.items == m)
  {
    var p := ShowPanel(m);
    forall t | t in p.items ensures t in m {
      assert p.items == m[..|p.items|];
    }
    forall i, j | 0 <= i < j < |p.items| ensures Less(p.items[i], p.items[j]) {
      assert p.items[i] == m[i] && p.items[j] == m[j];
    }
  }

  /**
   * The panel is shown exactly when a tag is being typed and some tag in use
   * contains it, ignoring case. It then lists at most ten such tags, in order
   * and without repeats, all of them when there are at most ten, is
   * `min(6, n)` rows high for `n` matches, and selects the first.
   */
  lemma AutocompletePanel(text: string, cursor: nat, rows: seq<string>)
    requires cursor <= |text|
    ensures var cur := CurrentTag(text, cursor);
      var p := OnEntryChange(text, cursor, rows);
      var m := Matching(ExistingTags(rows), cur);
      && (p.Shown? <==> cur != [] && exists t :: t in ExistingTags(rows) && Contains(Lower(t), Lower(cur)))
      && (p.Shown? ==>
           && |p.items| <= 10 && p.selected == 0
           && p.height == (if |m| < 6 then |m| else 6) && 1 <= p.height <= |p.items|
           && StrictlySorted(p.items)
           && (forall t :: t in p.items ==> t in ExistingTags(rows) && Contains(Lower(t), Lower(cur)))
           && (|m| <= 10 ==> p.items == m))
  {
    var cur := CurrentTag(text, cursor);
    var tags := ExistingTags(rows);
    var m := Matching(tags, cur);
    PanelOfMatches(text, cursor, rows);
    MatchingNonEmpty(tags, cur);
    if m != [] {
      MatchingMembers(tags, cur);
      MatchingSorted(tags, cur);
      ShowPanelOfSorted(m);
    }
  }

  // ---- Splicing a suggestion into the entry ----

  /** The text kept in front of the chosen tag: up to and including the last comma and a blank. */
  function SplicePrefix(text: string, cursor: nat): string
    requires cursor <= |text|
  {
    var lc := LastComma(text, cursor);
    if lc >= 0 then text[..lc + 1] + " " else ""
  }

  /** With a comma before the cursor, the kept text is the text before it, a comma and a blank. */
  lemma SplicePrefixShape(text: string, cursor: nat)
    requires cursor <= |text|
    ensures var lc := LastComma(text, cursor);
      SplicePrefix(text, cursor) == if lc >= 0 then text[..lc] + ", " else ""
  {
    var lc := LastComma(text, cursor);
    if lc >= 0 {
      PrefixThrough(text, lc);
    }
  }

  /** The stripped text `pre + tag + tail`: the entry after a splice, given its three parts. */
  function StrippedSplice(pre: string, tag: string, tail: string): string {
    Strip(pre + tag + tail)
  }

  /** Where `tag` ends in `StrippedSplice(pre, tag, tail)`: the unstripped length after leading blanks, less the tail. */
  function TagEnd(pre: string, tag: string, tail: string): int {
    |TrimStart(pre + tag + tail)| - |tail|
  }

  /**
   * The entry's new content: with a comma before the cursor, the text up to
   * it, a blank and the chosen tag; without one, the chosen tag alone; then
   * the text after the cursor; all of it stripped.
   */
  function SplicedEntry(text: string, cursor: nat, tag: string): string
    requires cursor <= |text|
  {
    StrippedSplice(SplicePrefix(text, cursor), tag, text[cursor..])
  }

  /** The new cursor position as written: the stripped length minus the length of the text after the old cursor. */
  function SpliceCursorAsWritten(text: string, cursor: nat, tag: string): int
    requires cursor <= |text|
  {
    |SplicedEntry(text, cursor, tag)| - |text[cursor..]|
  }

  /** The new cursor position measured from the end of the chosen tag in the unstripped text. */
  function SpliceCursor(text: string, cursor: nat, tag: string): int
    requires cursor <= |text|
  {
    TagEnd(SplicePrefix(text, cursor), tag, text[cursor..])
  }

  /** In the stripped form of `pre + tag + tail`, the tag ends where the text after it starts. */
  lemma TagEndsBeforeTail(pre: string, tag: string, tail: string) returns (k: nat)
    requires IsCleanTag(tag)
    ensures k == |TrimStart(pre + tag + tail)| - |tail|
    ensures |tag| <= k <= |Strip(pre + tag + tail)|
    ensures Strip(pre + tag + tail)[k - |tag|..k] == tag
  {
    var s := pre + tag + tail;
    var p, n := |pre|, |tag|;
    MiddleOf(pre, tag, tail);
    assert s[p] == tag[0] && s[p + n - 1] == tag[n - 1];
    k := CoreInStripped(s, p, n);
  }

  /** `TagEnd` is a position in the stripped splice right after the tag. */
  lemma TagEndInStripped(pre: string, tag: string, tail: string)
    requires IsCleanTag(tag)
    ensures |tag| <= TagEnd(pre, tag, tail) <= |StrippedSplice(pre, tag, tail)|
    ensures StrippedSplice(pre, tag, tail)[TagEnd(pre, tag, tail) - |tag|..TagEnd(pre, tag, tail)] == tag
  {
    var k := TagEndsBeforeTail(pre, tag, tail);
    assert TagEnd(pre, tag, tail) == k;
    assert StrippedSplice(pre, tag, tail) == Strip(pre + tag + tail);
  }

  /** The corrected position is right after the chosen tag in the new entry. */
  lemma SpliceCursorAfterTag(text: string, cursor: nat, tag: string)
    requires cursor <= |text| && IsCleanTag(tag)
    ensures |tag| <= SpliceCursor(text, cursor, tag) <= |SplicedEntry(text, cursor, tag)|
    ensures SplicedEntry(text, cursor, tag)[SpliceCursor(text, cursor, tag) - |tag|..SpliceCursor(text, cursor, tag)]
         == tag
  {
    TagEndInStripped(SplicePrefix(text, cursor), tag, text[cursor..]);
  }

  /**
   * Stripping `pre + tag + tail` removes, after the tag, only the trailing
   * blanks, and there are some exactly when `tail` ends in a blank.
   */
  lemma StrippedSpliceGap(pre: string, tag: string, tail: string)
    requires IsCleanTag(tag)
    ensures |StrippedSplice(pre, tag, tail)| - |tail| <= TagEnd(pre, tag, tail)
    ensures |StrippedSplice(pre, tag, tail)| - |tail| == TagEnd(pre, tag, tail)
        <==> tail == [] || !IsSpace(tail[|tail| - 1])
  {
    var k := TagEndsBeforeTail(pre, tag, tail);
    LastOfJoin3(pre, tag, tail);
    StripGapAtEnd(pre + tag + tail, tail);
  }

  /**
   * The position as written is the corrected one exactly when the text after
   * the old cursor does not end in a blank; when it does, the cursor lands
   * before the end of the chosen tag.
   */
  lemma SpliceCursorAsWrittenShort(text: string, cursor: nat, tag: string)
    requires cursor <= |text| && IsCleanTag(tag)
    ensures SpliceCursorAsWritten(text, cursor, tag) == SpliceCursor(text, cursor, tag)
        <==> text[cursor..] == [] || !IsSpace(text[|text| - 1])
    ensures SpliceCursorAsWritten(text, cursor, tag) <= SpliceCursor(text, cursor, tag)
  {
    StrippedSpliceGap(SplicePrefix(text, cursor), tag, text[cursor..]);
    LastOfSuffix(text, cursor);
  }

  /** A stripped text followed by one blank: stripping removes just that blank. */
  lemma StripOneTrailingBlank(t: string)
    requires t != [] && IsStripped(t)
    ensures TrimStart(t + " ") == t + " "
    ensures Strip(t + " ") == t
  {
    var s := t + " ";
    assert s[0] == t[0];
    TrimStartKeeps(s);
    assert s[..|s| - 1] == t;
    TrimEndKeeps(t);
  }

  /** The example of the discrepancy: typing `ro ` with the cursor after `ro` and choosing `rock`. */
  lemma SpliceCursorExample(tag: string)
    requires tag == "rock"
    ensures SpliceCursorAsWritten("ro ", 2, tag) == 3
    ensures SpliceCursor("ro ", 2, tag) == 4
  {
    var text := "ro ";
    assert LastComma(text, 2) == -1;
    assert text[2..] == " ";
    assert SplicePrefix(text, 2) + tag + text[2..] == tag + " ";
    StripOneTrailingBlank(tag);
  }

  /** A chosen tag behind blanks parses to that tag alone. */
  lemma ParseTagAlone(lead: string, tag: string)
    requires forall i :: 0 <= i < |lead| ==> IsSpace(lead[i])
    requires IsCleanTag(tag)
    ensures ParseTags(lead + tag) == [tag]
  {
    var x := lead + tag;
    assert ',' !in x by {
      forall k | 0 <= k < |x| ensures x[k] != ',' {
        if k >= |lead| { assert x[k] == tag[k - |lead|]; }
      }
    }
    assert Strip(x) == tag by {
      StripUnderBlanks(lead, tag);
    }
    ParsePiece(x);
  }

  /** A chosen tag behind blanks, then a comma and the rest of the entry. */
  lemma ParseTagThenRest(lead: string, tag: string, rest: string)
    requires forall i :: 0 <= i < |lead| ==> IsSpace(lead[i])
    requires IsCleanTag(tag)
    ensures ParseTags(lead + tag + "," + rest) == [tag] + ParseTags(rest)
  {
    ParseTagAlone(lead, tag);
    ParseAppend(lead + tag, rest);
  }

  /** The tags after the chosen one: none, or those after the comma that starts the tail. */
  function TailTags(tail: string): seq<string> {
    if tail == [] then [] else ParseTags(tail[1..])
  }

  /** A chosen tag behind blanks, followed by nothing or by a comma and more tags. */
  lemma ParseTagThenTail(lead: string, tag: string, tail: string)
    requires forall i :: 0 <= i < |lead| ==> IsSpace(lead[i])
    requires IsCleanTag(tag)
    requires tail == [] || tail[0] == ','
    ensures ParseTags(lead + tag + tail) == [tag] + TailTags(tail)
  {
    if tail == [] {
      assert lead + tag + tail == lead + tag;
      ParseTagAlone(lead, tag);
    } else {
      SplitAround(tail, 0);
      assert lead + tag + tail == lead + tag + "," + tail[1..];
      ParseTagThenRest(lead, tag, tail[1..]);
    }
  }

  /** Splicing a tag after the text before a comma keeps that text's tags, then the tag, then the tail's. */
  lemma ParseSpliceAfterComma(a: string, tag: string, tail: string)
    requires IsCleanTag(tag)
    requires tail == [] || tail[0] == ','
    ensures ParseTags(StrippedSplice(a + ", ", tag, tail)) == ParseTags(a) + [tag] + TailTags(tail)
  {
    var s := a + ", " + tag + tail;
    ParseStrip(s);
    CommaThenBlank(a, tag, tail);
    ParseAppend(a, " " + tag + tail);
    ParseTagThenTail(" ", tag, tail);
    ListRegroup(ParseTags(a), [tag], TailTags(tail));
  }

  lemma CommaThenBlank(a: string, tag: string, tail: string)
    ensures a + ", " + tag + tail == a + "," + (" " + tag + tail)
  {
  }

  /** Splicing a tag with no comma before it gives the tag, then the tail's tags. */
  lemma ParseSpliceAlone(tag: string, tail: string)
    requires IsCleanTag(tag)
    requires tail == [] || tail[0] == ','
    ensures ParseTags(StrippedSplice("", tag, tail)) == [tag] + TailTags(tail)
  {
    ParseStrip("" + tag + tail);
    ParseTagThenTail("", tag, tail);
  }

  /**
   * With the cursor at the end of the entry or just before a comma, choosing a
   * suggestion replaces the tag under the cursor and keeps every other tag.
   */
  lemma SpliceReplacesCurrentTag(text: string, cursor: nat, tag: string)
    requires cursor <= |text| && IsCleanTag(tag)
    requires var tail := text[cursor..]; tail == [] || tail[0] == ','
    ensures ParseTags(SplicedEntry(text, cursor, tag))
        == CompletedTags(text, cursor) + [tag] + TailTags(text[cursor..])
  {
    SplicePrefixShape(text, cursor);
    var lc := LastComma(text, cursor);
    if lc >= 0 {
      ParseSpliceAfterComma(text[..lc], tag, text[cursor..]);
    } else {
      ParseSpliceAlone(tag, text[cursor..]);
    }
  }
}
