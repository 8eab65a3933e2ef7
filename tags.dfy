/**
 * The comma-separated tag strings stored on each track: parsing, joining, the
 * four bulk operations, the preview line, and the sorted list of every tag in
 * use (the autocomplete source).
 */
module Tags {
  import opened Text

  /** A tag as the parser yields it: non-empty, comma-free, no surrounding whitespace. */
  predicate IsCleanTag(t: string) {
    t != [] && ',' !in t && IsStripped(t)
  }

  predicate AllClean(ts: seq<string>) {
    forall i :: 0 <= i < |ts| ==> IsCleanTag(ts[i])
  }

  /** `[p.strip() for p in pieces]` */
  function StripAll(pieces: seq<string>): (r: seq<string>)
    ensures |r| == |pieces|
  {
    seq(|pieces|, i requires 0 <= i < |pieces| => Strip(pieces[i]))
  }

  /** `[t for t in ts if t]` */
  function NonEmpty(ts: seq<string>): (r: seq<string>)
    ensures |r| <= |ts|
  {
    if ts == [] then [] else (if ts[0] != [] then [ts[0]] else []) + NonEmpty(ts[1..])
  }

  /** `[p.strip() for p in pieces if p.strip()]` */
  function CleanPieces(pieces: seq<string>): (r: seq<string>)
    ensures |r| <= |pieces|
  {
    NonEmpty(StripAll(pieces))
  }

  /** The tag list of a stored tag string: split on `,`, strip, drop empties. */
  function ParseTags(s: string): seq<string> {
    CleanPieces(Split(s, ','))
  }

  /** What `NonEmpty` keeps is exactly the non-empty elements. */
  lemma {:induction false} NonEmptyMembers(ts: seq<string>)
    ensures forall t :: t in NonEmpty(ts) <==> t in ts && t != []
    decreases |ts|
  {
    if ts != [] {
      NonEmptyMembers(ts[1..]);
      assert ts == [ts[0]] + ts[1..];
    }
  }

  /** Every piece the parser keeps is a clean tag. */
  lemma CleanPiecesClean(pieces: seq<string>)
    requires NoneHolds(pieces, ',')
    ensures AllClean(CleanPieces(pieces))
  {
    var s := StripAll(pieces);
    var r := NonEmpty(s);
    NonEmptyMembers(s);
    forall i | 0 <= i < |r| ensures IsCleanTag(r[i]) {
      assert r[i] in s;
      var k :| 0 <= k < |s| && s[k] == r[i];
      StripChars(pieces[k]);
    }
  }

  /** A parsed tag list holds clean tags only. */
  lemma ParseTagsClean(s: string)
    ensures AllClean(ParseTags(s))
  {
    SplitLacksSep(s, ',');
    CleanPiecesClean(Split(s, ','));
  }

  /** The stored form of a tag list: joined with ", " (the empty list gives ""). */
  function JoinTags(ts: seq<string>): string {
    Join(ts, ", ")
  }

  /** Leading blanks vanish when stripping. */
  lemma {:induction false} StripUnderBlanks(w: string, t: string)
    requires AllBlank(w)
    requires t != [] && IsStripped(t)
    ensures Strip(w + t) == t
    decreases |w|
  {
    if w == [] {
      assert w + t == t;
    } else {
      assert (w + t)[1..] == w[1..] + t;
      StripUnderBlanks(w[1..], t);
    }
  }

  lemma NonEmptyCons(t: string, ts: seq<string>)
    ensures NonEmpty([t] + ts) == (if t != [] then [t] else []) + NonEmpty(ts)
  {
    assert ([t] + ts)[0] == t;
    assert ([t] + ts)[1..] == ts;
  }

  lemma StripAllAppend(p: seq<string>, q: seq<string>)
    ensures StripAll(p + q) == StripAll(p) + StripAll(q)
  {
    var l, r := StripAll(p + q), StripAll(p) + StripAll(q);
    forall i | 0 <= i < |l| ensures l[i] == r[i] {
      if i < |p| { assert (p + q)[i] == p[i]; } else { assert (p + q)[i] == q[i - |p|]; }
    }
  }

  lemma StripAllOne(p: string)
    ensures StripAll([p]) == [Strip(p)]
  {
  }

  lemma CleanPiecesCons(p: string, more: seq<string>)
    ensures CleanPieces([p] + more) == (if Strip(p) != [] then [Strip(p)] else []) + CleanPieces(more)
  {
    StripAllAppend([p], more);
    StripAllOne(p);
    NonEmptyCons(Strip(p), StripAll(more));
  }

  /** The empty string holds no tags. */
  lemma ParseEmpty()
    ensures ParseTags("") == []
  {
    assert Split("", ',') == [""];
  }

  lemma JoinShape(w: string, ts: seq<string>)
    requires |ts| >= 2
    ensures w + JoinTags(ts) == (w + ts[0]) + [','] + (" " + JoinTags(ts[1..]))
  {
    assert JoinTags(ts) == ts[0] + ", " + JoinTags(ts[1..]);
  }

  /** One step of the round trip: the first piece of a joined list is its first tag. */
  lemma ParseJoinStep(w: string, ts: seq<string>)
    requires forall i :: 0 <= i < |w| ==> w[i] == ' '
    requires |ts| >= 2 && IsCleanTag(ts[0])
    ensures CleanPieces(Split(w + JoinTags(ts), ','))
         == [ts[0]] + CleanPieces(Split(" " + JoinTags(ts[1..]), ','))
  {
    var rest := JoinTags(ts[1..]);
    var head := w + ts[0];
    JoinShape(w, ts);
    assert ',' !in head;
    SplitCons(head, ',', " " + rest);
    CleanPiecesCons(head, Split(" " + rest, ','));
    StripUnderBlanks(w, ts[0]);
  }

  /** A one-tag list behind blanks parses to that tag. */
  lemma ParseJoinSingle(w: string, t: string)
    requires forall i :: 0 <= i < |w| ==> w[i] == ' '
    requires IsCleanTag(t)
    ensures CleanPieces(Split(w + JoinTags([t]), ',')) == [t]
  {
    var x := w + t;
    assert w + JoinTags([t]) == x;
    assert ',' !in x by {
      forall k | 0 <= k < |x| ensures x[k] != ',' {
        if k >= |w| { assert x[k] == t[k - |w|]; }
      }
    }
    assert Strip(x) == t by {
      StripUnderBlanks(w, t);
    }
    ParsePiece(x);
  }

  /** Blanks alone hold no tags. */
  lemma ParseBlanks(w: string)
    requires forall i :: 0 <= i < |w| ==> w[i] == ' '
    ensures CleanPieces(Split(w, ',')) == []
  {
    assert ',' !in w;
    assert Split(w, ',') == [w];
    StripEmptyIffBlank(w);
  }

  /** Parsing a joined list behind any run of blanks gives the list back. */
  lemma {:induction false} ParseJoinPadded(w: string, ts: seq<string>)
    requires forall i :: 0 <= i < |w| ==> w[i] == ' '
    requires AllClean(ts)
    ensures CleanPieces(Split(w + JoinTags(ts), ',')) == ts
    decreases |ts|
  {
    if ts == [] {
      assert w + JoinTags(ts) == w;
      ParseBlanks(w);
    } else if |ts| == 1 {
      assert ts == [ts[0]];
      ParseJoinSingle(w, ts[0]);
    } else {
      assert AllClean(ts[1..]) by {
        forall i | 0 <= i < |ts[1..]| ensures IsCleanTag(ts[1..][i]) { assert ts[1..][i] == ts[i + 1]; }
      }
      ParseJoinPadded(" ", ts[1..]);
      ParseJoinPaddedStep(w, ts);
    }
  }

  /** The inductive step of `ParseJoinPadded`, given the round trip of the rest. */
  lemma ParseJoinPaddedStep(w: string, ts: seq<string>)
    requires forall i :: 0 <= i < |w| ==> w[i] == ' '
    requires |ts| >= 2 && IsCleanTag(ts[0])
    requires CleanPieces(Split(" " + JoinTags(ts[1..]), ',')) == ts[1..]
    ensures CleanPieces(Split(w + JoinTags(ts), ',')) == ts
  {
    assert [ts[0]] + ts[1..] == ts by {}
    assert CleanPieces(Split(w + JoinTags(ts), ','))
        == [ts[0]] + CleanPieces(Split(" " + JoinTags(ts[1..]), ',')) by {
      ParseJoinStep(w, ts);
    }
  }

  /** Round trip: the stored form of a clean tag list parses back to that list. */
  lemma ParseJoin(ts: seq<string>)
    requires AllClean(ts)
    ensures ParseTags(JoinTags(ts)) == ts
  {
    ParseJoinPadded("", ts);
    assert "" + JoinTags(ts) == JoinTags(ts);
  }

  /** Re-joining a parsed string is the identity exactly on strings already in stored form. */
  lemma RejoinIdentity(s: string)
    ensures JoinTags(ParseTags(s)) == s <==> exists ts :: AllClean(ts) && JoinTags(ts) == s
  {
    if exists ts :: AllClean(ts) && JoinTags(ts) == s {
      var ts :| AllClean(ts) && JoinTags(ts) == s;
      ParseJoin(ts);
    } else {
      ParseTagsClean(s);
    }
  }

  /** Parsing is idempotent through the stored form. */
  lemma ParseRejoinParse(s: string)
    ensures ParseTags(JoinTags(ParseTags(s))) == ParseTags(s)
  {
    ParseTagsClean(s);
    ParseJoin(ParseTags(s));
  }

  /** Dropping empties is done element by element. */
  lemma {:induction false} NonEmptyAppend(x: seq<string>, y: seq<string>)
    ensures NonEmpty(x + y) == NonEmpty(x) + NonEmpty(y)
    decreases |x|
  {
    if x == [] {
      assert x + y == y;
    } else {
      NonEmptyAppend(x[1..], y);
      NonEmptyAppendStep(x[0], x[1..], y);
      assert x == [x[0]] + x[1..];
      assert x + y == [x[0]] + (x[1..] + y);
    }
  }

  /** The inductive step of `NonEmptyAppend`: one more element in front. */
  lemma NonEmptyAppendStep(t: string, x: seq<string>, y: seq<string>)
    requires NonEmpty(x + y) == NonEmpty(x) + NonEmpty(y)
    ensures NonEmpty([t] + (x + y)) == NonEmpty([t] + x) + NonEmpty(y)
  {
    NonEmptyCons(t, x + y);
    NonEmptyCons(t, x);
    ListRegroup(if t != [] then [t] else [], NonEmpty(x), NonEmpty(y));
  }

  lemma ListRegroup(h: seq<string>, a: seq<string>, b: seq<string>)
    ensures h + (a + b) == h + a + b
  {
  }

  /** Cleaning is done piece by piece. */
  lemma CleanPiecesAppend(p: seq<string>, q: seq<string>)
    ensures CleanPieces(p + q) == CleanPieces(p) + CleanPieces(q)
  {
    StripAllAppend(p, q);
    NonEmptyAppend(StripAll(p), StripAll(q));
  }

  /** The tags on either side of a comma are parsed independently. */
  lemma ParseAppend(a: string, b: string)
    ensures ParseTags(a + "," + b) == ParseTags(a) + ParseTags(b)
  {
    SplitAppend(a, ',', b);
    CleanPiecesAppend(Split(a, ','), Split(b, ','));
  }

  /** A comma-free text holds at most one tag: its stripped form, unless that is empty. */
  lemma ParsePiece(p: string)
    requires ',' !in p
    ensures ParseTags(p) == if Strip(p) != [] then [Strip(p)] else []
  {
    assert Split(p, ',') == [p];
  }

  /** Blanks in front of a tag string hold no tag and change no tag. */
  lemma ParseLeadingBlanks(w: string, x: string)
    requires AllBlank(w)
    ensures ParseTags(w + x) == ParseTags(x)
  {
    assert ',' !in w by { assert forall i :: 0 <= i < |w| ==> w[i] != ','; }
    if ',' !in x {
      ParsePiece(w + x);
      ParsePiece(x);
      TrimStartUnderBlanks(w, x);
    } else {
      var i := IndexOf(x, ',');
      IndexOfFirst(x, ',');
      var x1, x2 := x[..i], x[i + 1..];
      assert x == x1 + "," + x2;
      assert w + x == (w + x1) + "," + x2;
      ParseAppend(w + x1, x2);
      ParseAppend(x1, x2);
      ParsePiece(w + x1);
      ParsePiece(x1);
      TrimStartUnderBlanks(w, x1);
    }
  }

  /** Blanks after a comma-free text leave the tag it holds unchanged. */
  lemma PieceTrailingBlanks(b: string, w: string)
    requires ',' !in b
    requires AllBlank(w)
    ensures ParseTags(b + w) == ParseTags(b)
  {
    assert ',' !in w by { assert forall i :: 0 <= i < |w| ==> w[i] != ','; }
    assert ',' !in b + w;
    ParsePiece(b);
    ParsePiece(b + w);
    TrimEndOverBlanks(b, w);
    StripTrimEnd(b);
    StripTrimEnd(b + w);
  }

  /** What follows the last comma decides how trailing text affects the parse. */
  lemma ParseLastPiece(a: string, b: string, w: string)
    requires ParseTags(b + w) == ParseTags(b)
    ensures ParseTags(a + "," + b + w) == ParseTags(a + "," + b)
  {
    AppendRegroup(a, ",", b, w);
    ParseAppend(a, b);
    ParseAppend(a, b + w);
  }

  /** Blanks after a tag string hold no tag and change no tag. */
  lemma ParseTrailingBlanks(x: string, w: string)
    requires AllBlank(w)
    ensures ParseTags(x + w) == ParseTags(x)
  {
    var j := LastIndexOf(x, ',');
    var b := x[j + 1..];
    PieceTrailingBlanks(b, w);
    if j >= 0 {
      var a := x[..j];
      SplitAround(x, j);
      ParseLastPiece(a, b, w);
    } else {
      assert x == b;
    }
  }

  /** Stripping the whole tag string changes none of its tags. */
  lemma ParseStrip(s: string)
    ensures ParseTags(Strip(s)) == ParseTags(s)
  {
    var a, u, b := StripShape(s);
    ParseMargins(a, u, b);
  }

  /** Blank margins around a tag string hold no tag and change no tag. */
  lemma ParseMargins(a: string, u: string, b: string)
    requires AllBlank(a) && AllBlank(b)
    ensures ParseTags(a + u + b) == ParseTags(u)
  {
    assert a + u + b == a + (u + b);
    ParseLeadingBlanks(a, u + b);
    ParseTrailingBlanks(u, b);
  }

  /** `[x for x in xs if x not in drop]`, order kept. */
  function Without(xs: seq<string>, drop: seq<string>): (r: seq<string>)
    ensures |r| <= |xs|
  {
    if xs == [] then []
    else (if xs[0] in drop then [] else [xs[0]]) + Without(xs[1..], drop)
  }

  /** `Without` keeps exactly the elements not dropped. */
  lemma {:induction false} WithoutMembers(xs: seq<string>, drop: seq<string>)
    ensures forall x :: x in Without(xs, drop) <==> x in xs && x !in drop
  {
    if xs != [] {
      WithoutMembers(xs[1..], drop);
      assert xs == [xs[0]] + xs[1..];
    }
  }

  /** Removing nothing that occurs keeps the list exactly. */
  lemma {:induction false} WithoutDisjoint(xs: seq<string>, drop: seq<string>)
    requires forall x :: x in xs ==> x !in drop
    ensures Without(xs, drop) == xs
  {
    if xs != [] {
      assert forall x :: x in xs[1..] ==> x in xs;
      WithoutDisjoint(xs[1..], drop);
    }
  }

  /** `Without` keeps the order of what it keeps. */
  lemma {:induction false} WithoutIsSubsequence(xs: seq<string>, drop: seq<string>)
    ensures IsSubsequence(Without(xs, drop), xs)
  {
    if xs != [] {
      WithoutIsSubsequence(xs[1..], drop);
      var w := Without(xs, drop);
      if xs[0] !in drop {
        assert w[0] == xs[0];
        assert w[1..] == Without(xs[1..], drop);
      } else {
        WithoutMembers(xs[1..], drop);
        assert w == Without(xs[1..], drop);
        assert w != [] ==> w[0] in w;
      }
    }
  }

  /** `r` is `xs` with some elements left out, the rest in their order. */
  predicate IsSubsequence(r: seq<string>, xs: seq<string>)
    decreases |xs|
  {
    if r == [] then true
    else if xs == [] then false
    else if r[0] == xs[0] then IsSubsequence(r[1..], xs[1..])
    else IsSubsequence(r, xs[1..])
  }

  /** The four bulk operations of the bulk tag editor. */
  datatype TagOp = Add | Replace | Remove | Clear

  /** The final tag list of one track, from its current tags and the entered tags. */
  function ApplyOp(op: TagOp, current: seq<string>, entered: seq<string>): seq<string> {
    match op
    case Add => current + Without(entered, current)
    case Replace => entered
    case Remove => Without(current, entered)
    case Clear => []
  }

  /**
   * Add keeps the current tags first and in order, then appends exactly the
   * entered tags not yet present, in the order typed (repeats included).
   */
  lemma AddSpec(current: seq<string>, entered: seq<string>)
    ensures var r := ApplyOp(Add, current, entered);
      && r[..|current|] == current
      && (forall x :: x in r <==> x in current || x in entered)
      && (forall x :: x in r[|current|..] ==> x !in current)
      && IsSubsequence(r[|current|..], entered)
  {
    var r := ApplyOp(Add, current, entered);
    WithoutMembers(entered, current);
    WithoutIsSubsequence(entered, current);
    assert r[..|current|] == current;
    assert r[|current|..] == Without(entered, current);
  }

  /** Remove keeps exactly the current tags not entered, in their order. */
  lemma RemoveSpec(current: seq<string>, entered: seq<string>)
    ensures var r := ApplyOp(Remove, current, entered);
      && (forall x :: x in r <==> x in current && x !in entered)
      && IsSubsequence(r, current)
  {
    WithoutIsSubsequence(current, entered);
    WithoutMembers(current, entered);
  }

  /** Every operation maps clean lists to clean lists. */
  lemma ApplyOpClean(op: TagOp, current: seq<string>, entered: seq<string>)
    requires AllClean(current) && AllClean(entered)
    ensures AllClean(ApplyOp(op, current, entered))
  {
    var r := ApplyOp(op, current, entered);
    WithoutMembers(entered, current);
    WithoutMembers(current, entered);
    forall i | 0 <= i < |r| ensures IsCleanTag(r[i]) {
      assert r[i] in r;
      if op == Add && i >= |current| {
        assert r[i] in Without(entered, current) by {
          assert r[i] == Without(entered, current)[i - |current|];
        }
      }
    }
  }

  /** The final tag list of one selected track, from the tags its row shows and the typed tags. */
  function FinalTags(op: TagOp, displayedTags: string, typed: string): seq<string> {
    var current := if displayedTags != "" then ParseTags(displayedTags) else [];
    ApplyOp(op, current, ParseTags(typed))
  }

  /** The new stored tag string of one selected track, as the bulk editor writes it. */
  function BulkTagString(op: TagOp, displayedTags: string, typed: string): string {
    JoinTags(FinalTags(op, displayedTags, typed))
  }

  /** The empty-string guard of the bulk editor makes no difference. */
  lemma FinalTagsUnfold(op: TagOp, displayedTags: string, typed: string)
    ensures FinalTags(op, displayedTags, typed) == ApplyOp(op, ParseTags(displayedTags), ParseTags(typed))
  {
    var current := if displayedTags != "" then ParseTags(displayedTags) else [];
    assert current == ParseTags(displayedTags) by {
      if displayedTags == "" { ParseEmpty(); }
    }
  }

  /** The stored string is the operation's list in stored form. */
  lemma BulkTagStringUnfold(op: TagOp, displayedTags: string, typed: string)
    ensures BulkTagString(op, displayedTags, typed)
         == JoinTags(ApplyOp(op, ParseTags(displayedTags), ParseTags(typed)))
  {
    FinalTagsUnfold(op, displayedTags, typed);
  }

  /** Reading back what the bulk editor wrote gives exactly the operation's tag list. */
  lemma BulkTagStringParses(op: TagOp, displayedTags: string, typed: string)
    ensures ParseTags(BulkTagString(op, displayedTags, typed))
         == ApplyOp(op, ParseTags(displayedTags), ParseTags(typed))
  {
    BulkTagStringUnfold(op, displayedTags, typed);
    ParseTagsClean(displayedTags);
    ParseTagsClean(typed);
    ApplyOpClean(op, ParseTags(displayedTags), ParseTags(typed));
    ParseJoin(ApplyOp(op, ParseTags(displayedTags), ParseTags(typed)));
  }

  lemma RockLiveCleanAndJoined()
    ensures IsCleanTag("rock") && IsCleanTag("live")
    ensures JoinTags(["rock", "live"]) == "rock, live"
    ensures JoinTags(["rock"]) == "rock"
  {
  }

  lemma RockLiveRemoved()
    ensures Without(["rock", "live"], ["rock"]) == ["live"]
    ensures JoinTags(["live"]) == "live"
  {
  }

  /** Removing "rock" from "rock, live" stores "live". */
  lemma RemoveRockFromRockLive()
    ensures BulkTagString(Remove, "rock, live", "rock") == "live"
  {
    RockLiveCleanAndJoined();
    RockLiveRemoved();
    var both: seq<string> := ["rock", "live"];
    var rock: seq<string> := ["rock"];
    assert AllClean(both) && AllClean(rock);
    ParseJoin(both);
    ParseJoin(rock);
    BulkTagStringUnfold(Remove, "rock, live", "rock");
  }

  /** A track with none of the removed tags keeps its tag list; its stored string is rewritten in stored form. */
  lemma RemoveAbsentKeepsTags(displayedTags: string, typed: string)
    requires forall x :: x in ParseTags(displayedTags) ==> x !in ParseTags(typed)
    ensures BulkTagString(Remove, displayedTags, typed) == JoinTags(ParseTags(displayedTags))
  {
    BulkTagStringUnfold(Remove, displayedTags, typed);
    WithoutDisjoint(ParseTags(displayedTags), ParseTags(typed));
  }

  /** One line of the bulk editor's preview. */
  function PreviewLine(filename: string, finalTags: seq<string>): (line: string)
    ensures finalTags == [] ==> line == filename + ": (no tags)"
    ensures finalTags != [] ==> line == filename + ": " + JoinTags(finalTags)
  {
    filename + ": " + (if finalTags != [] then JoinTags(finalTags) else "(no tags)")
  }

  // ---- Every tag in use, sorted (get_existing_tags) ----

  predicate StrictlySorted(s: seq<string>) {
    forall i, j :: 0 <= i < j < |s| ==> Less(s[i], s[j])
  }

  lemma SortedCons(t: string, s: seq<string>)
    requires StrictlySorted(s)
    requires s != [] ==> Less(t, s[0])
    ensures StrictlySorted([t] + s)
  {
    forall j | 1 <= j < |s| {
      LessTransitive(t, s[0], s[j]);
    }
  }

  /** Insert `t` into a strictly sorted list unless present. */
  function InsertSorted(s: seq<string>, t: string): (r: seq<string>)
    requires StrictlySorted(s)
    ensures StrictlySorted(r)
    ensures forall x :: x in r <==> x in s || x == t
  {
    if s == [] then [t]
    else if t == s[0] then s
    else if Less(t, s[0]) then
      SortedCons(t, s);
      [t] + s
    else
      LessTotal(t, s[0]);
      var rest := InsertSorted(s[1..], t);
      assert forall j :: 0 < j < |s| ==> Less(s[0], s[j]);
      SortedCons(s[0], rest);
      [s[0]] + rest
  }

  function InsertAll(s: seq<string>, ts: seq<string>): (r: seq<string>)
    requires StrictlySorted(s)
    ensures StrictlySorted(r)
    ensures forall x :: x in r <==> x in s || x in ts
    decreases |ts|
  {
    if ts == [] then s else InsertAll(InsertSorted(s, ts[0]), ts[1..])
  }

  /**
   * `sorted(set(...))` over the parsed tags of every non-empty stored tag string:
   * strictly sorted, and holding exactly the tags some row carries.
   */
  function ExistingTags(rows: seq<string>): (r: seq<string>)
    ensures StrictlySorted(r)
    ensures forall t :: t in r <==> exists i :: 0 <= i < |rows| && rows[i] != "" && t in ParseTags(rows[i])
  {
    if rows == [] then []
    else
      var last := rows[|rows| - 1];
      var prev := ExistingTags(rows[..|rows| - 1]);
      var r := InsertAll(prev, if last != "" then ParseTags(last) else []);
      assert forall i :: 0 <= i < |rows| - 1 ==> rows[..|rows| - 1][i] == rows[i];
      r
  }

  /** The existing tags are all clean tags. */
  lemma ExistingTagsClean(rows: seq<string>)
    ensures AllClean(ExistingTags(rows))
  {
    var r := ExistingTags(rows);
    forall k | 0 <= k < |r| ensures IsCleanTag(r[k]) {
      assert r[k] in r;
      var i :| 0 <= i < |rows| && rows[i] != "" && r[k] in ParseTags(rows[i]);
      var ts := ParseTags(rows[i]);
      ParseTagsClean(rows[i]);
      var j :| 0 <= j < |ts| && ts[j] == r[k];
    }
  }
}
