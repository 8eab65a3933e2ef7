/**
 * String helpers with the meaning the application's Python code relies on:
 * `str.lower`, `str.strip`, `str.startswith`, `in` on strings, `str.split`
 * on one character, `str.join`, `str.count`, code-point order and the
 * decimal rendering of integers. Only ASCII letters are case-folded and only
 * ASCII whitespace is stripped.
 */
module Text {

  /** Python's `str.isspace` restricted to ASCII. */
  predicate IsSpace(c: char) {
    c == ' ' || c == '\t' || c == '\n' || c == '\r' || c == '\U{0B}' || c == '\U{0C}'
    || c == '\U{1C}' || c == '\U{1D}' || c == '\U{1E}' || c == '\U{1F}'
  }

  /** Every character is whitespace (Python's `s.isspace() or s == ''`). */
  predicate AllBlank(w: string) {
    forall k :: 0 <= k < |w| ==> IsSpace(w[k])
  }

  /** Leading whitespace removed. */
  function TrimStart(s: string): (r: string)
    ensures |r| <= |s|
    ensures r == [] || !IsSpace(r[0])
  {
    if s != [] && IsSpace(s[0]) then TrimStart(s[1..]) else s
  }

  /** Trailing whitespace removed. */
  function TrimEnd(s: string): (r: string)
    ensures |r| <= |s|
    ensures r == [] || !IsSpace(r[|r| - 1])
  {
    if s != [] && IsSpace(s[|s| - 1]) then TrimEnd(s[..|s| - 1]) else s
  }

  /** `TrimStart` keeps a suffix. */
  lemma {:induction false} TrimStartSuffix(s: string)
    ensures TrimStart(s) == s[|s| - |TrimStart(s)|..]
    decreases |s|
  {
    if s != [] && IsSpace(s[0]) {
      TrimStartSuffix(s[1..]);
      assert s[1..][|s| - 1 - |TrimStart(s)|..] == s[|s| - |TrimStart(s)|..];
    }
  }

  /** `TrimEnd` keeps a prefix. */
  lemma {:induction false} TrimEndPrefix(s: string)
    ensures TrimEnd(s) == s[..|TrimEnd(s)|]
    decreases |s|
  {
    if s != [] && IsSpace(s[|s| - 1]) {
      TrimEndPrefix(s[..|s| - 1]);
      assert s[..|s| - 1][..|TrimEnd(s)|] == s[..|TrimEnd(s)|];
    }
  }

  /** No whitespace at either end. */
  predicate IsStripped(s: string) {
    s == [] || (!IsSpace(s[0]) && !IsSpace(s[|s| - 1]))
  }

  /** Python's `s.strip()`: the longest infix of `s` with no whitespace at either end. */
  function Strip(s: string): (r: string)
    ensures IsStripped(r)
    ensures |r| <= |s|
  {
    TrimEndPrefix(TrimStart(s));
    TrimEnd(TrimStart(s))
  }

  /** What `TrimStart` removes is blank. */
  lemma {:induction false} TrimStartRemovesBlanks(s: string)
    ensures forall i :: 0 <= i < |s| - |TrimStart(s)| ==> IsSpace(s[i])
    decreases |s|
  {
    if s != [] && IsSpace(s[0]) {
      var t := s[1..];
      TrimStartRemovesBlanks(t);
      forall i | 1 <= i < |s| - |TrimStart(s)| ensures IsSpace(s[i]) { assert s[i] == t[i - 1]; }
    }
  }

  /** What `TrimEnd` removes is blank. */
  lemma {:induction false} TrimEndRemovesBlanks(s: string)
    ensures forall i :: |TrimEnd(s)| <= i < |s| ==> IsSpace(s[i])
    decreases |s|
  {
    if s != [] && IsSpace(s[|s| - 1]) {
      var t := s[..|s| - 1];
      TrimEndRemovesBlanks(t);
      forall i | |TrimEnd(s)| <= i < |s| - 1 ensures IsSpace(s[i]) { assert s[i] == t[i]; }
    }
  }

  /** A prefix that is blank position by position. */
  lemma BlankPrefix(s: string, i: nat) returns (a: string)
    requires i <= |s| && forall k :: 0 <= k < i ==> IsSpace(s[k])
    ensures a == s[..i] && AllBlank(a)
  {
    a := s[..i];
  }

  /** A suffix that is blank position by position. */
  lemma BlankSuffix(t: string, n: nat) returns (b: string)
    requires n <= |t| && forall k :: n <= k < |t| ==> IsSpace(t[k])
    ensures b == t[n..] && AllBlank(b)
  {
    b := t[n..];
    forall k | 0 <= k < |b| ensures IsSpace(b[k]) {
      assert b[k] == t[n + k];
    }
  }

  /** A text cut at `i`, its suffix cut again after `u`. */
  lemma CutTwice(s: string, t: string, u: string, i: nat)
    requires i <= |s| && t == s[i..]
    requires |u| <= |t| && u == t[..|u|]
    ensures s == s[..i] + u + t[|u|..]
  {
    assert s == s[..i] + t;
    assert t == u + t[|u|..];
  }

  /** A text is its blank margins around its stripped core. */
  lemma StripShape(s: string) returns (a: string, u: string, b: string)
    ensures u == Strip(s) && s == a + u + b
    ensures |a| == |s| - |TrimStart(s)|
    ensures AllBlank(a) && AllBlank(b)
  {
    var t := TrimStart(s);
    u := TrimEnd(t);
    TrimStartSuffix(s);
    TrimEndPrefix(t);
    TrimStartRemovesBlanks(s);
    TrimEndRemovesBlanks(t);
    a := BlankPrefix(s, |s| - |t|);
    b := BlankSuffix(t, |u|);
    CutTwice(s, t, u, |s| - |t|);
  }

  /** The blanks of two blank texts. */
  lemma AllBlankAppend(x: string, y: string)
    requires AllBlank(x) && AllBlank(y)
    ensures AllBlank(x + y)
  {
    forall k | |x| <= k < |x + y| ensures IsSpace((x + y)[k]) {
      assert (x + y)[k] == y[k - |x|];
    }
  }

  /** A prefix of a blank text is blank. */
  lemma AllBlankPrefix(s: string, n: nat)
    requires AllBlank(s) && n <= |s|
    ensures AllBlank(s[..n])
  {
  }

  /** A suffix of a blank text is blank. */
  lemma AllBlankSuffix(s: string, n: nat)
    requires AllBlank(s) && n <= |s|
    ensures AllBlank(s[n..])
  {
    forall k | 0 <= k < |s| - n ensures IsSpace(s[n..][k]) {
      assert s[n..][k] == s[n + k];
    }
  }

  /** Every character of the stripped text is one of the original's. */
  lemma StripChars(s: string)
    ensures forall c :: c in Strip(s) ==> c in s
  {
    var a, u, b := StripShape(s);
  }

  /** Stripping text that has no whitespace at either end changes nothing. */
  lemma StripStripped(s: string)
    requires IsStripped(s)
    ensures Strip(s) == s
  {
    TrimStartKeeps(s);
    TrimEndKeeps(s);
  }

  /** Stripping a leading blank off a stripped text gives that text. */
  lemma StripAfterBlank(s: string)
    requires IsStripped(s)
    ensures Strip(" " + s) == s
  {
    TrimStartAfterBlank(' ', s);
    TrimStartKeeps(s);
    TrimEndKeeps(s);
  }

  /** `TrimStart` drops a leading blank. */
  lemma TrimStartAfterBlank(c: char, s: string)
    requires IsSpace(c)
    ensures TrimStart([c] + s) == TrimStart(s)
  {
    assert ([c] + s)[1..] == s;
  }

  /** `TrimStart` keeps a text that does not start with a blank. */
  lemma TrimStartKeeps(s: string)
    requires s == [] || !IsSpace(s[0])
    ensures TrimStart(s) == s
  {
  }

  /** `TrimEnd` keeps a text that does not end with a blank. */
  lemma TrimEndKeeps(s: string)
    requires s == [] || !IsSpace(s[|s| - 1])
    ensures TrimEnd(s) == s
  {
  }

  /** Stripped text is entirely whitespace exactly when the result is empty. */
  lemma StripEmptyIffBlank(s: string)
    ensures Strip(s) == [] <==> AllBlank(s)
  {
    var a, u, b := StripShape(s);
    if u == [] {
      assert s == a + b;
      AllBlankAppend(a, b);
    } else {
      assert s[|a|] == u[0];
    }
  }

  /** Trailing blanks after a text that does not end in a blank are exactly what `TrimEnd` removes. */
  lemma {:induction false} TrimEndBlanks(x: string, w: string)
    requires x == [] || !IsSpace(x[|x| - 1])
    requires AllBlank(w)
    ensures TrimEnd(x + w) == x
    decreases |w|
  {
    if w == [] {
      assert x + w == x;
    } else {
      assert (x + w)[..|x + w| - 1] == x + w[..|w| - 1];
      AllBlankPrefix(w, |w| - 1);
      TrimEndBlanks(x, w[..|w| - 1]);
    }
  }

  /** Leading blanks before a text that does not start with a blank are exactly what `TrimStart` removes. */
  lemma {:induction false} TrimStartBlanks(w: string, x: string)
    requires x == [] || !IsSpace(x[0])
    requires AllBlank(w)
    ensures TrimStart(w + x) == x
    decreases |w|
  {
    if w == [] {
      assert w + x == x;
    } else {
      assert (w + x)[1..] == w[1..] + x;
      AllBlankSuffix(w, 1);
      TrimStartBlanks(w[1..], x);
    }
  }

  /** Regrouping a text cut into three parts with a fourth after it. */
  lemma AppendRegroup(a: string, m: string, b: string, w: string)
    ensures a + m + b + w == a + m + (b + w)
  {
  }

  /** The middle part of a concatenation, by position. */
  lemma MiddleOf(a: string, b: string, c: string)
    ensures (a + b + c)[|a|..|a| + |b|] == b
  {
  }

  /** A string split around one of its characters. */
  lemma SplitAround(s: string, k: nat)
    requires k < |s|
    ensures s == s[..k] + [s[k]] + s[k + 1..]
  {
  }

  /** The last character of a concatenation of three, the middle one not empty. */
  lemma LastOfJoin3(a: string, b: string, c: string)
    requires b != []
    ensures (a + b + c)[|a + b + c| - 1] == if c == [] then b[|b| - 1] else c[|c| - 1]
  {
  }

  /** A non-empty suffix ends where the whole text does. */
  lemma LastOfSuffix(s: string, k: nat)
    requires k <= |s|
    ensures s[k..] != [] ==> s[k..][|s[k..]| - 1] == s[|s| - 1]
  {
  }

  /** A prefix one character longer. */
  lemma PrefixThrough(s: string, k: nat)
    requires k < |s|
    ensures s[..k + 1] == s[..k] + [s[k]]
  {
  }

  lemma AppendRegroup5(a: string, b: string, c: string, d: string, e: string)
    ensures a + b + c + d + e == a + b + (c + d + e)
  {
  }

  /** Blanks in front of a text are all that `TrimStart` looks at first. */
  lemma {:induction false} TrimStartUnderBlanks(w: string, x: string)
    requires AllBlank(w)
    ensures TrimStart(w + x) == TrimStart(x)
    decreases |w|
  {
    if w == [] {
      assert w + x == x;
    } else {
      assert (w + x)[1..] == w[1..] + x;
      AllBlankSuffix(w, 1);
      TrimStartUnderBlanks(w[1..], x);
    }
  }

  /** Blanks after a text are all that `TrimEnd` looks at first. */
  lemma {:induction false} TrimEndOverBlanks(x: string, w: string)
    requires AllBlank(w)
    ensures TrimEnd(x + w) == TrimEnd(x)
    decreases |w|
  {
    if w == [] {
      assert x + w == x;
    } else {
      assert (x + w)[..|x + w| - 1] == x + w[..|w| - 1];
      AllBlankPrefix(w, |w| - 1);
      TrimEndOverBlanks(x, w[..|w| - 1]);
    }
  }

  /**
   * A stretch of `s` with non-blank ends lies inside `Strip(s)`: it ends at `j`,
   * its end in `s` shifted back by the blanks `TrimStart` removes.
   */
  lemma CoreInStripped(s: string, p: nat, n: nat) returns (j: nat)
    requires 0 < n && p + n <= |s|
    requires !IsSpace(s[p]) && !IsSpace(s[p + n - 1])
    ensures j == p + n - (|s| - |TrimStart(s)|)
    ensures n <= j <= |Strip(s)|
    ensures Strip(s)[j - n..j] == s[p..p + n]
  {
    var a, u, b := StripShape(s);
    j := CoreInMiddle(s, a, u, b, p, n);
  }

  /** A stretch with non-blank ends of a text made of `u` between blank margins lies inside `u`. */
  lemma CoreInMiddle(s: string, a: string, u: string, b: string, p: nat, n: nat) returns (j: nat)
    requires s == a + u + b && AllBlank(a) && AllBlank(b)
    requires 0 < n && p + n <= |s|
    requires !IsSpace(s[p]) && !IsSpace(s[p + n - 1])
    ensures j == p + n - |a| && n <= j <= |u|
    ensures u[j - n..j] == s[p..p + n]
  {
    assert |a| <= p;
    assert p + n <= |a| + |u|;
    j := p + n - |a|;
    MiddleOf(a, u, b);
    SliceOfInfix(s, u, |a|, p, n, j);
  }

  /** A stretch inside an infix is the same stretch of the infix, shifted by its start. */
  lemma SliceOfInfix(s: string, u: string, i: nat, p: nat, n: nat, j: nat)
    requires i + |u| <= |s| && s[i..i + |u|] == u
    requires i <= p && p + n <= i + |u| && j == p + n - i
    ensures u[j - n..j] == s[p..p + n]
  {
    var x, y := u[j - n..j], s[p..p + n];
    forall k | 0 <= k < n ensures x[k] == y[k] {
      assert u[p - i + k] == s[i..i + |u|][p - i + k];
    }
  }

  /** A string that is not all blank, shortened by its trailing blanks and those before its first non-blank. */
  lemma StripGapAtEnd(s: string, tail: string)
    requires Strip(s) != [] && |tail| <= |s|
    requires tail == [] ==> !IsSpace(s[|s| - 1])
    requires tail != [] ==> s[|s| - 1] == tail[|tail| - 1]
    ensures |Strip(s)| <= |TrimStart(s)|
    ensures |Strip(s)| == |TrimStart(s)| <==> tail == [] || !IsSpace(tail[|tail| - 1])
  {
    var a, u, b := StripShape(s);
    LastOfJoin3(a, u, b);
    if b != [] {
      assert IsSpace(b[|b| - 1]);
    }
  }

  lemma StripTrimEndBlank(s: string)
    requires Strip(s) == []
    ensures Strip(TrimEnd(s)) == []
  {
    StripEmptyIffBlank(s);
    var e := TrimEnd(s);
    TrimEndPrefix(s);
    AllBlankPrefix(s, |e|);
    StripEmptyIffBlank(e);
  }

  lemma StripTrimEndCore(s: string)
    requires Strip(s) != []
    ensures Strip(TrimEnd(s)) == Strip(s)
  {
    var a, u, b := StripShape(s);
    StripDropsMargins(a, u, b);
  }

  /** Cutting the trailing blanks off a core between blank margins and stripping gives the core. */
  lemma StripDropsMargins(a: string, u: string, b: string)
    requires AllBlank(a) && AllBlank(b) && IsStripped(u) && u != []
    ensures Strip(TrimEnd(a + u + b)) == u
  {
    assert (a + u)[|a + u| - 1] == u[|u| - 1];
    TrimEndBlanks(a + u, b);
    TrimStartBlanks(a, u);
    TrimEndKeeps(u);
  }

  /** Stripping after cutting trailing blanks is stripping. */
  lemma StripTrimEnd(s: string)
    ensures Strip(TrimEnd(s)) == Strip(s)
  {
    if Strip(s) == [] { StripTrimEndBlank(s); } else { StripTrimEndCore(s); }
  }

  /** Stripping after cutting leading blanks is stripping. */
  lemma StripTrimStart(s: string)
    ensures Strip(TrimStart(s)) == Strip(s)
  {
  }

  /** Python's `c.lower()` for ASCII letters. */
  function LowerChar(c: char): (r: char)
    ensures 'A' <= c <= 'Z' ==> r as int == c as int + 32
    ensures !('A' <= c <= 'Z') ==> r == c
  {
    if 'A' <= c <= 'Z' then (c as int + 32) as char else c
  }

  /** Python's `s.lower()` (and SQLite's `LOWER`) on ASCII. */
  function Lower(s: string): (r: string)
    ensures |r| == |s|
    ensures forall i :: 0 <= i < |s| ==> r[i] == LowerChar(s[i])
  {
    seq(|s|, i requires 0 <= i < |s| => LowerChar(s[i]))
  }

  /** Lower-casing twice is lower-casing once. */
  lemma LowerIdempotent(s: string)
    ensures Lower(Lower(s)) == Lower(s)
  {
  }

  /** Python's `s.startswith(p)`. */
  predicate StartsWith(s: string, p: string) {
    |p| <= |s| && s[..|p|] == p
  }

  /** Python's `sub in s` for strings. */
  predicate Contains(s: string, sub: string)
    decreases |s|
  {
    StartsWith(s, sub) || (s != [] && Contains(s[1..], sub))
  }

  /** `sub` occurs in `s` starting at index `k`. */
  predicate OccursAt(s: string, sub: string, k: int) {
    0 <= k <= |s| - |sub| && s[k..k + |sub|] == sub
  }

  /** `Contains` means `sub` occurs at some position. */
  lemma {:induction false} ContainsIffOccurs(s: string, sub: string)
    ensures Contains(s, sub) <==> exists k :: OccursAt(s, sub, k)
    decreases |s|
  {
    if StartsWith(s, sub) {
      assert OccursAt(s, sub, 0);
    } else if s == [] {
    } else {
      ContainsIffOccurs(s[1..], sub);
      if exists k :: OccursAt(s, sub, k) {
        var k :| OccursAt(s, sub, k);
        assert k != 0;
        assert OccursAt(s[1..], sub, k - 1);
      }
      if Contains(s[1..], sub) {
        var k :| OccursAt(s[1..], sub, k);
        assert s[1..][k..k + |sub|] == s[k + 1..k + 1 + |sub|];
        assert OccursAt(s, sub, k + 1);
      }
    }
  }

  /** Index of the first `c` in `s`. */
  function IndexOf(s: string, c: char): (i: nat)
    requires c in s
    ensures i < |s| && s[i] == c
  {
    if s[0] == c then 0 else 1 + IndexOf(s[1..], c)
  }

  /** No `c` comes before the first one. */
  lemma {:induction false} IndexOfFirst(s: string, c: char)
    requires c in s
    ensures c !in s[..IndexOf(s, c)]
    decreases |s|
  {
    if s[0] != c {
      IndexOfFirst(s[1..], c);
      assert s[..IndexOf(s, c)] == [s[0]] + s[1..][..IndexOf(s[1..], c)];
    }
  }

  /** The first `c` is the one with no `c` before it. */
  lemma IndexOfAt(s: string, c: char, i: nat)
    requires i < |s| && s[i] == c && c !in s[..i]
    ensures IndexOf(s, c) == i
  {
    IndexOfFirst(s, c);
    var j := IndexOf(s, c);
    assert j <= i;
    assert s[..j + 1][j] == c;
  }

  /** Index of the last `c` in `s`, or -1 (Python's `s.rfind(c)`). */
  function LastIndexOf(s: string, c: char): (i: int)
    ensures -1 <= i < |s|
    ensures i >= 0 ==> s[i] == c
    ensures c !in s[i + 1..]
    ensures i == -1 <==> c !in s
  {
    if s == [] then -1
    else if s[|s| - 1] == c then |s| - 1
    else
      var j := LastIndexOf(s[..|s| - 1], c);
      assert s[j + 1..] == s[..|s| - 1][j + 1..] + [s[|s| - 1]];
      j
  }

  /** The last `c` is the one with no `c` after it. */
  lemma {:induction false} LastIndexOfAt(s: string, c: char, i: nat)
    requires i < |s| && s[i] == c && c !in s[i + 1..]
    ensures LastIndexOf(s, c) == i
  {
    if i < |s| - 1 {
      assert s[|s| - 1] in s[i + 1..];
      assert s[..|s| - 1][i + 1..] == s[i + 1..|s| - 1];
      LastIndexOfAt(s[..|s| - 1], c, i);
    }
  }

  /** `c` absent means `rfind` gives -1. */
  lemma LastIndexOfAbsent(s: string, c: char)
    requires c !in s
    ensures LastIndexOf(s, c) == -1
  {
  }

  /** Python's `s.split(sep)` for a one-character separator. */
  function Split(s: string, sep: char): (r: seq<string>)
    ensures |r| >= 1
    decreases |s|
  {
    if sep !in s then [s]
    else
      var i := IndexOf(s, sep);
      [s[..i]] + Split(s[i + 1..], sep)
  }

  /** No piece of a split holds the separator. */
  lemma {:induction false} SplitLacksSep(s: string, sep: char)
    ensures NoneHolds(Split(s, sep), sep)
    decreases |s|
  {
    if sep in s {
      var i := IndexOf(s, sep);
      var more := Split(s[i + 1..], sep);
      SplitLacksSep(s[i + 1..], sep);
      var r := Split(s, sep);
      IndexOfFirst(s, sep);
      assert r == [s[..i]] + more;
      forall k | 0 < k < |r| ensures sep !in r[k] {
        assert r[k] == more[k - 1];
      }
    }
  }

  /** Splitting at the first separator. */
  lemma SplitCons(a: string, sep: char, b: string)
    requires sep !in a
    ensures Split(a + [sep] + b, sep) == [a] + Split(b, sep)
  {
    var s := a + [sep] + b;
    assert s[..|a|] == a;
    IndexOfAt(s, sep, |a|);
    assert s[|a| + 1..] == b;
  }

  /** The inductive step of `SplitAppend`: a first piece `a1` in front of both sides. */
  lemma SplitAppendStep(a1: string, sep: char, a2: string, b: string)
    requires sep !in a1
    requires Split(a2 + [sep] + b, sep) == Split(a2, sep) + Split(b, sep)
    ensures Split(a1 + [sep] + a2 + [sep] + b, sep) == Split(a1 + [sep] + a2, sep) + Split(b, sep)
  {
    var t := a2 + [sep] + b;
    var x, y := Split(a2, sep), Split(b, sep);
    calc {
      Split(a1 + [sep] + a2 + [sep] + b, sep);
      { assert a1 + [sep] + a2 + [sep] + b == a1 + [sep] + t; }
      Split(a1 + [sep] + t, sep);
      { SplitCons(a1, sep, t); }
      [a1] + (x + y);
      { assert [a1] + (x + y) == [a1] + x + y; }
      [a1] + x + y;
      { SplitCons(a1, sep, a2); }
      Split(a1 + [sep] + a2, sep) + y;
    }
  }

  /** Splitting at a separator splits the two sides independently. */
  lemma {:induction false} SplitAppend(a: string, sep: char, b: string)
    ensures Split(a + [sep] + b, sep) == Split(a, sep) + Split(b, sep)
    decreases |a|
  {
    if sep !in a {
      SplitCons(a, sep, b);
    } else {
      var i := IndexOf(a, sep);
      IndexOfFirst(a, sep);
      var a1, a2 := a[..i], a[i + 1..];
      assert a == a1 + [sep] + a2;
      SplitAppend(a2, sep, b);
      SplitAppendStep(a1, sep, a2, b);
    }
  }

  /** Python's `sep.join(parts)`. */
  function Join(parts: seq<string>, sep: string): (r: string)
    ensures parts == [] ==> r == []
    ensures |parts| == 1 ==> r == parts[0]
  {
    if parts == [] then []
    else if |parts| == 1 then parts[0]
    else parts[0] + sep + Join(parts[1..], sep)
  }

  /** No part holds the character `c`. */
  predicate NoneHolds(parts: seq<string>, c: char) {
    forall i :: 0 <= i < |parts| ==> c !in parts[i]
  }

  /** The parts after the first still hold no `c`. */
  lemma NoneHoldsTail(parts: seq<string>, c: char)
    requires parts != [] && NoneHolds(parts, c)
    ensures NoneHolds(parts[1..], c)
  {
    forall i | 0 <= i < |parts| - 1 ensures c !in parts[1..][i] {
      assert parts[1..][i] == parts[i + 1];
    }
  }

  /** Splitting a join at a separator that no part holds gives the parts back. */
  lemma {:induction false} SplitJoin(parts: seq<string>, sep: char)
    requires parts != []
    requires NoneHolds(parts, sep)
    ensures Split(Join(parts, [sep]), sep) == parts
    decreases |parts|
  {
    if |parts| > 1 {
      NoneHoldsTail(parts, sep);
      SplitJoin(parts[1..], sep);
      SplitJoinStep(parts, sep);
    }
  }

  /** The inductive step of `SplitJoin`. */
  lemma SplitJoinStep(parts: seq<string>, sep: char)
    requires |parts| > 1 && sep !in parts[0]
    requires Split(Join(parts[1..], [sep]), sep) == parts[1..]
    ensures Split(Join(parts, [sep]), sep) == parts
  {
    SplitCons(parts[0], sep, Join(parts[1..], [sep]));
    assert parts == [parts[0]] + parts[1..];
  }

  /** Joining the pieces of a split with the separator gives the text back. */
  lemma {:induction false} JoinSplit(s: string, sep: char)
    ensures Join(Split(s, sep), [sep]) == s
    decreases |s|
  {
    if sep in s {
      var i := IndexOf(s, sep);
      var head, tail := s[..i], s[i + 1..];
      var rest := Split(tail, sep);
      SplitFirst(s, sep);
      JoinSplit(tail, sep);
      JoinCons(head, rest, [sep]);
      Rejoin(s, i);
    }
  }

  /** A split with the separator present is the text before the first one, then the split of the rest. */
  lemma SplitFirst(s: string, sep: char)
    requires sep in s
    ensures Split(s, sep) == [s[..IndexOf(s, sep)]] + Split(s[IndexOf(s, sep) + 1..], sep)
  {
  }

  /** A text is its prefix, the character at the cut, and its suffix. */
  lemma Rejoin(s: string, i: nat)
    requires i < |s|
    ensures s == s[..i] + [s[i]] + s[i + 1..]
  {
  }

  /** Joining a first part in front of more parts puts the separator between them. */
  lemma JoinCons(head: string, rest: seq<string>, sep: string)
    requires rest != []
    ensures Join([head] + rest, sep) == head + sep + Join(rest, sep)
  {
    assert ([head] + rest)[1..] == rest;
  }

  /** Joining one more part at the end appends the separator and that part. */
  lemma {:induction false} JoinSnoc(parts: seq<string>, sep: string, last: string)
    requires parts != []
    ensures Join(parts + [last], sep) == Join(parts, sep) + sep + last
    decreases |parts|
  {
    if |parts| > 1 {
      JoinSnoc(parts[1..], sep, last);
      assert (parts + [last])[1..] == parts[1..] + [last];
    } else {
      assert (parts + [last])[1..] == [last];
    }
  }

  /** Text written one line at a time, each line followed by a line break. */
  function Lines(lines: seq<string>): (r: string)
    ensures lines == [] ==> r == []
  {
    if lines == [] then [] else lines[0] + "\n" + Lines(lines[1..])
  }

  /** Reading back text written line by line gives the lines, then the empty rest after the last break. */
  lemma {:induction false} SplitLines(lines: seq<string>)
    requires NoneHolds(lines, '\n')
    ensures Split(Lines(lines), '\n') == lines + [""]
    decreases |lines|
  {
    if lines == [] {
      assert Split("", '\n') == [""];
    } else {
      NoneHoldsTail(lines, '\n');
      SplitLines(lines[1..]);
      SplitLinesStep(lines[0], Lines(lines[1..]), lines[1..]);
      assert lines == [lines[0]] + lines[1..];
    }
  }

  /** The inductive step of `SplitLines`: one more line in front. */
  lemma SplitLinesStep(x: string, r: string, rest: seq<string>)
    requires '\n' !in x && Split(r, '\n') == rest + [""]
    ensures Split(x + "\n" + r, '\n') == [x] + rest + [""]
  {
    SplitCons(x, '\n', r);
  }

  /** Python's `s.count(sub)` for a non-empty `sub`: non-overlapping occurrences, scanning left to right. */
  function CountOccurrences(s: string, sub: string): (n: nat)
    requires sub != []
    ensures n <= |s|
    decreases |s|
  {
    if |s| < |sub| then 0
    else if s[..|sub|] == sub then 1 + CountOccurrences(s[|sub|..], sub)
    else CountOccurrences(s[1..], sub)
  }

  /** Text holding no occurrence of the first character of `sub` adds no occurrences in front. */
  lemma {:induction false} CountSkips(p: string, s: string, sub: string)
    requires sub != [] && sub[0] !in p
    ensures CountOccurrences(p + s, sub) == CountOccurrences(s, sub)
    decreases |p|
  {
    if p == [] {
      assert p + s == s;
    } else {
      var t := p + s;
      assert t[1..] == p[1..] + s;
      if |t| >= |sub| { assert t[..|sub|][0] == p[0]; }
      CountSkips(p[1..], s, sub);
    }
  }

  /** An occurrence at the front is counted, and counting resumes after it. */
  lemma CountMatch(s: string, sub: string)
    requires sub != []
    ensures CountOccurrences(sub + s, sub) == 1 + CountOccurrences(s, sub)
  {
    assert (sub + s)[..|sub|] == sub;
    assert (sub + s)[|sub|..] == s;
  }

  /** Occurrences of text without a line break never span one: counts on both sides of a break add up. */
  lemma {:induction false} CountAcrossBreak(x: string, r: string, sub: string)
    requires sub != [] && '\n' !in sub
    ensures CountOccurrences(x + "\n" + r, sub) == CountOccurrences(x, sub) + CountOccurrences(r, sub)
    decreases |x|
  {
    var t := x + "\n" + r;
    if |x| >= |sub| && x[..|sub|] == sub {
      assert t[..|sub|] == sub;
      assert t[|sub|..] == x[|sub|..] + "\n" + r;
      CountAcrossBreak(x[|sub|..], r, sub);
    } else if x == [] {
      assert t == "\n" + r;
      if |t| >= |sub| {
        assert t[..|sub|][0] == '\n' != sub[0];
        assert t[1..] == r;
      }
    } else {
      assert t[1..] == x[1..] + "\n" + r;
      if |t| >= |sub| {
        if |x| < |sub| {
          assert t[..|sub|][|x|] == '\n' != sub[|x|];
        } else {
          assert t[..|sub|] == x[..|sub|];
        }
      }
      CountAcrossBreak(x[1..], r, sub);
    }
  }

  /** Python's `<` on strings: code-point lexicographic order. */
  predicate Less(a: string, b: string)
    decreases |a|
  {
    if a == [] then b != []
    else if b == [] then false
    else if a[0] == b[0] then Less(a[1..], b[1..])
    else a[0] < b[0]
  }

  lemma {:induction false} LessIrreflexive(a: string)
    ensures !Less(a, a)
    decreases |a|
  {
    if a != [] { LessIrreflexive(a[1..]); }
  }

  lemma {:induction false} LessTransitive(a: string, b: string, c: string)
    requires Less(a, b) && Less(b, c)
    ensures Less(a, c)
    decreases |a|
  {
    if a != [] && b != [] && c != [] && a[0] == b[0] && b[0] == c[0] {
      LessTransitive(a[1..], b[1..], c[1..]);
    }
  }

  lemma {:induction false} LessTotal(a: string, b: string)
    ensures a == b || Less(a, b) || Less(b, a)
    decreases |a|
  {
    if a != [] && b != [] && a[0] == b[0] {
      LessTotal(a[1..], b[1..]);
      if a[1..] == b[1..] { assert a == [a[0]] + a[1..] && b == [b[0]] + b[1..]; }
    }
  }

  lemma {:induction false} LessAsymmetric(a: string, b: string)
    requires Less(a, b)
    ensures !Less(b, a)
    decreases |a|
  {
    if a != [] && b != [] && a[0] == b[0] { LessAsymmetric(a[1..], b[1..]); }
  }

  /** The decimal digit character of `d`. */
  function Digit(d: nat): (c: char)
    requires d < 10
    ensures '0' <= c <= '9' && c as int - '0' as int == d
  {
    ('0' as int + d) as char
  }

  predicate IsDigits(s: string) {
    s != [] && forall i :: 0 <= i < |s| ==> '0' <= s[i] <= '9'
  }

  /** Python's `str(n)` for a natural number. */
  function NatToString(n: nat): (s: string)
    ensures IsDigits(s)
  {
    if n < 10 then [Digit(n)] else NatToString(n / 10) + [Digit(n % 10)]
  }

  /** Python's `str(i)` (and `f"{i}"`) for an integer. */
  function IntToString(i: int): (s: string)
    ensures i >= 0 ==> IsDigits(s)
    ensures i < 0 ==> s != [] && s[0] == '-' && IsDigits(s[1..])
  {
    if i < 0 then "-" + NatToString(-i) else NatToString(i)
  }

  /** Python's `int(s)` on a string of decimal digits. */
  function ParseNat(s: string): nat
    requires IsDigits(s)
  {
    if |s| == 1 then s[0] as int - '0' as int
    else 10 * ParseNat(s[..|s| - 1]) + (s[|s| - 1] as int - '0' as int)
  }

  lemma {:induction false} ParseNatToString(n: nat)
    ensures ParseNat(NatToString(n)) == n
  {
    if n >= 10 {
      var s := NatToString(n);
      assert s[..|s| - 1] == NatToString(n / 10);
      ParseNatToString(n / 10);
    }
  }
}
