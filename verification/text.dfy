/** The Python string operations the input reader relies on: `strip()`, `strip('\n')`,
    `lower()`, `split()`, `split(':')` and the substring test `sub in s`.

    Strings are sequences of code points, as in Python 3.
 */
module Text {

  /** Python's `str.isspace()`: the characters `strip()` and `split()` treat as whitespace. */
  predicate IsSpace(c: char) {
    || c == ' '
    || ('\t' <= c <= '\r')              // tab, line feed, vertical tab, form feed, carriage return
    || ('\U{1c}' <= c <= '\U{1f}')      // file, group, record and unit separators
    || c == '\U{85}' || c == '\U{a0}' || c == '\U{1680}'
    || ('\U{2000}' <= c <= '\U{200a}')
    || c == '\U{2028}' || c == '\U{2029}' || c == '\U{202f}' || c == '\U{205f}' || c == '\U{3000}'
  }

  predicate IsNewline(c: char) {
    c == '\n'
  }

  /** Every character of `s` satisfies `p`. */
  predicate All(s: string, p: char -> bool) {
    forall i :: 0 <= i < |s| ==> p(s[i])
  }

  predicate AllSpace(s: string) {
    All(s, IsSpace)
  }

  // ---------------------------------------------------------------------------
  // strip
  // ---------------------------------------------------------------------------

  /** Every character of `s` at an index in `[lo, hi)` satisfies `p`. */
  predicate AllBetween(s: string, lo: int, hi: int, p: char -> bool)
    requires 0 <= lo && hi <= |s|
  {
    forall i :: lo <= i < hi ==> p(s[i])
  }

  /** Drops the characters satisfying `p` from the front of `s`. */
  function TrimStart(s: string, p: char -> bool): (r: string)
    ensures |r| <= |s| && r == s[|s| - |r|..]
    ensures AllBetween(s, 0, |s| - |r|, p)
    ensures |r| > 0 ==> !p(r[0])
  {
    if |s| > 0 && p(s[0]) then
      var r := TrimStart(s[1..], p);
      assert forall i :: 1 <= i < |s| - |r| ==> s[i] == s[1..][i - 1];
      r
    else
      s
  }

  /** Drops the characters satisfying `p` from the back of `s`. */
  function TrimEnd(s: string, p: char -> bool): (r: string)
    ensures |r| <= |s| && r == s[..|r|]
    ensures AllBetween(s, |r|, |s|, p)
    ensures |r| > 0 ==> !p(r[|r| - 1])
  {
    if |s| > 0 && p(s[|s| - 1]) then
      TrimEnd(s[..|s| - 1], p)
    else
      s
  }

  /** `r` is what is left of `s` at offset `i` once the `p`-characters at both ends are gone. */
  predicate StrippedAt(r: string, s: string, p: char -> bool, i: int) {
    && 0 <= i <= |s| - |r|
    && r == s[i..i + |r|]
    && AllBetween(s, 0, i, p)
    && AllBetween(s, i + |r|, |s|, p)
    && (|r| > 0 ==> !p(r[0]) && !p(r[|r| - 1]))
  }

  /** The number of `p`-characters that start `s`. */
  function Leading(s: string, p: char -> bool): (i: nat)
    ensures i <= |s|
  {
    |s| - |TrimStart(s, p)|
  }

  /** `s.strip(chars)`: the infix of `s` between the leading and trailing `p`-characters. */
  function StripBy(s: string, p: char -> bool): (r: string)
    ensures StrippedAt(r, s, p, Leading(s, p))
  {
    TrimmedAt(s, p);
    TrimEnd(TrimStart(s, p), p)
  }

  lemma TrimmedAt(s: string, p: char -> bool)
    ensures StrippedAt(TrimEnd(TrimStart(s, p), p), s, p, Leading(s, p))
  {
    StrippedOf(s, TrimStart(s, p), TrimEnd(TrimStart(s, p), p), p);
  }

  /** Trimming the front to `t` and then the back of `t` to `r` strips `s` to `r`. */
  lemma StrippedOf(s: string, t: string, r: string, p: char -> bool)
    requires |t| <= |s| && t == s[|s| - |t|..] && AllBetween(s, 0, |s| - |t|, p) && (|t| > 0 ==> !p(t[0]))
    requires |r| <= |t| && r == t[..|r|] && AllBetween(t, |r|, |t|, p) && (|r| > 0 ==> !p(r[|r| - 1]))
    ensures StrippedAt(r, s, p, |s| - |t|)
  {
    var i := |s| - |t|;
    PrefixOfSuffix(s, t, r, i);
    AllBetweenOfSuffix(s, t, i, |r|, p);
    assert |r| > 0 ==> r[0] == t[0];
  }

  lemma PrefixOfSuffix(s: string, t: string, r: string, i: int)
    requires 0 <= i <= |s| && t == s[i..] && |r| <= |t| && r == t[..|r|]
    ensures r == s[i..i + |r|]
  {
  }

  lemma AllBetweenOfSuffix(s: string, t: string, i: int, lo: int, p: char -> bool)
    requires 0 <= i <= |s| && t == s[i..] && 0 <= lo <= |t| && AllBetween(t, lo, |t|, p)
    ensures AllBetween(s, i + lo, |s|, p)
  {
    assert forall j :: i + lo <= j < |s| ==> s[j] == t[j - i];
  }


  /** `s.strip()` */
  function Strip(s: string): (r: string)
    ensures StrippedAt(r, s, IsSpace, Leading(s, IsSpace))
  {
    StripBy(s, IsSpace)
  }

  /** `s.strip('\n')` */
  function StripNewlines(s: string): string {
    StripBy(s, IsNewline)
  }

  /** The `strip('\n')` the reader applies after `strip()` never changes anything,
      because a line feed is whitespace. */
  lemma StripNewlinesAfterStrip(s: string)
    ensures StripNewlines(Strip(s)) == Strip(s)
  {
    var r := Strip(s);
    var i := Leading(s, IsSpace);
    StripByKeepsTrimmed(r, IsNewline);
  }

  /** A string whose ends do not satisfy `p` is its own strip. */
  lemma StripByKeepsTrimmed(s: string, p: char -> bool)
    requires |s| > 0 ==> !p(s[0]) && !p(s[|s| - 1])
    ensures StripBy(s, p) == s
  {
    assert TrimStart(s, p) == s;
  }

  /** A line strips to nothing exactly when it is all whitespace. */
  lemma StripEmptyIffBlank(s: string)
    ensures Strip(s) == [] <==> AllSpace(s)
  {
    var r := Strip(s);
    var i := Leading(s, IsSpace);
    if r == [] {
      assert AllBetween(s, 0, i, IsSpace) && AllBetween(s, i, |s|, IsSpace);
    } else {
      assert s[i] == r[0];
    }
  }

  /** A line is all whitespace exactly when what `strip()` leaves of it is. */
  lemma StripAllSpace(s: string)
    ensures AllSpace(Strip(s)) <==> AllSpace(s)
  {
    var r := Strip(s);
    var i := Leading(s, IsSpace);
    StripEmptyIffBlank(s);
    if |r| > 0 {
      assert !IsSpace(r[0]);
    }
  }

  /** `strip()` removes only whitespace: any other character of the line survives it. */
  lemma StripKeeps(s: string, c: char)
    requires c in s && !IsSpace(c)
    ensures c in Strip(s)
  {
    var r := Strip(s);
    var i := Leading(s, IsSpace);
    var j :| 0 <= j < |s| && s[j] == c;
    InsideStrip(r, s, i, j);
    assert r[j - i] == c;
  }

  /** A character that is not whitespace lies inside what `strip()` leaves. */
  lemma InsideStrip(r: string, s: string, i: int, j: int)
    requires StrippedAt(r, s, IsSpace, i) && 0 <= j < |s| && !IsSpace(s[j])
    ensures i <= j < i + |r| && r[j - i] == s[j]
  {
  }

  // ---------------------------------------------------------------------------
  // lower
  // ---------------------------------------------------------------------------

  predicate IsUpper(c: char) {
    'A' <= c <= 'Z'
  }

  function LowerChar(c: char): (d: char)
    ensures !IsUpper(d)
    ensures IsUpper(c) ==> d as int == c as int + 32
    ensures !IsUpper(c) ==> d == c
  {
    if IsUpper(c) then (c as int + 32) as char else c
  }

  /** `s.lower()`, on the ASCII letters. */
  function Lower(s: string): (r: string)
    ensures |r| == |s|
    ensures forall i :: 0 <= i < |s| ==> r[i] == LowerChar(s[i])
  {
    seq(|s|, i requires 0 <= i < |s| => LowerChar(s[i]))
  }

  /** Lower-casing twice is lower-casing once. */
  lemma LowerIdempotent(s: string)
    ensures Lower(Lower(s)) == Lower(s)
  {
  }

  /** Lower-casing leaves whitespace where it was. */
  lemma LowerKeepsSpaces(s: string)
    ensures forall i :: 0 <= i < |s| ==> (IsSpace(Lower(s)[i]) <==> IsSpace(s[i]))
  {
  }

  /** Lower-casing neither creates nor removes a line of blanks. */
  lemma AllSpaceOfLower(s: string)
    ensures AllSpace(Lower(s)) <==> AllSpace(s)
  {
    LowerKeepsSpaces(s);
  }

  /** Nothing is upper case after lower-casing. */
  lemma LowerHasNoUpper(s: string, c: char)
    requires c in Lower(s)
    ensures !IsUpper(c)
  {
  }

  // ---------------------------------------------------------------------------
  // split()
  // ---------------------------------------------------------------------------

  /** Length of the run of non-whitespace characters that starts `s`. */
  function WordLength(s: string): (k: nat)
    ensures k <= |s|
    ensures forall i :: 0 <= i < k ==> !IsSpace(s[i])
    ensures k < |s| ==> IsSpace(s[k])
  {
    if |s| == 0 || IsSpace(s[0]) then 0 else 1 + WordLength(s[1..])
  }

  /** A token of `split()`: non-empty and free of whitespace. */
  predicate IsWord(w: string) {
    |w| > 0 && forall i :: 0 <= i < |w| ==> !IsSpace(w[i])
  }

  /** Every character of `w` occurs in `s`. */
  predicate CharsFrom(w: string, s: string) {
    forall i :: 0 <= i < |w| ==> w[i] in s
  }

  /** `s.split()`: the maximal runs of non-whitespace characters of `s`, in order. */
  function SplitWs(s: string): (r: seq<string>)
    ensures forall k :: 0 <= k < |r| ==> IsWord(r[k]) && CharsFrom(r[k], s)
    ensures |r| == 0 <==> AllSpace(s)
    decreases |s|
  {
    if |s| == 0 then
      []
    else if IsSpace(s[0]) then
      var r := SplitWs(s[1..]);
      assert forall k :: 0 <= k < |r| ==> CharsFrom(r[k], s) by {
        forall k, i | 0 <= k < |r| && 0 <= i < |r[k]|
          ensures r[k][i] in s
        {
          assert r[k][i] in s[1..];
        }
      }
      assert AllSpace(s[1..]) ==> AllSpace(s) by {
        if AllSpace(s[1..]) {
          forall i | 0 <= i < |s|
            ensures IsSpace(s[i])
          {
            if i > 0 {
              assert s[1..][i - 1] == s[i];
            }
          }
        }
      }
      r
    else
      var k := WordLength(s);
      var rest := SplitWs(s[k..]);
      assert forall j :: 0 <= j < |rest| ==> CharsFrom(rest[j], s) by {
        forall j, i | 0 <= j < |rest| && 0 <= i < |rest[j]|
          ensures rest[j][i] in s
        {
          assert rest[j][i] in s[k..];
        }
      }
      [s[..k]] + rest
  }

  /** Leading whitespace gives no token: `split()` skips it. */
  lemma {:induction false} SplitWsSkipsSpaces(sp: string, s: string)
    requires AllSpace(sp)
    ensures SplitWs(sp + s) == SplitWs(s)
    decreases |sp|
  {
    if |sp| == 0 {
      assert sp + s == s;
    } else {
      assert (sp + s)[0] == sp[0];
      assert (sp + s)[1..] == sp[1..] + s;
      SplitWsSkipsSpaces(sp[1..], s);
    }
  }

  /** A run of non-whitespace characters ends where the word ends. */
  lemma WordLengthOfWord(w: string, t: string)
    requires IsWord(w) && (|t| > 0 ==> IsSpace(t[0]))
    ensures WordLength(w + t) == |w|
  {
    assert forall i :: 0 <= i < |w| ==> (w + t)[i] == w[i];
    assert |t| > 0 ==> (w + t)[|w|] == t[0];
  }

  /** A word followed by whitespace is the first token, and the rest of the line gives
      the others: together with `SplitWsSkipsSpaces` and `SplitWsOfWord` this fixes the
      tokens as the maximal runs of non-whitespace characters. */
  lemma SplitWsWordThen(w: string, sp: string, s: string)
    requires IsWord(w) && |sp| > 0 && AllSpace(sp)
    ensures SplitWs(w + sp + s) == [w] + SplitWs(s)
  {
    var line := w + (sp + s);
    assert w + sp + s == line;
    WordLengthOfWord(w, sp + s);
    assert line[0] == w[0];
    assert line[..|w|] == w;
    assert line[|w|..] == sp + s;
    SplitWsSkipsSpaces(sp, s);
  }

  /** A single word is its own only token. */
  lemma SplitWsOfWord(w: string)
    requires IsWord(w)
    ensures SplitWs(w) == [w]
  {
    WordLengthOfWord(w, []);
    assert w + [] == w;
    assert w[..|w|] == w;
    assert w[|w|..] == [];
  }

  /** The non-whitespace characters of `s`, in order. */
  function NonSpace(s: string): string {
    if |s| == 0 then [] else (if IsSpace(s[0]) then [] else [s[0]]) + NonSpace(s[1..])
  }

  function Concat(ws: seq<string>): string {
    if |ws| == 0 then [] else ws[0] + Concat(ws[1..])
  }

  lemma NonSpaceCons(s: string)
    requires |s| > 0 && !IsSpace(s[0])
    ensures NonSpace(s) == [s[0]] + NonSpace(s[1..])
  {
  }

  lemma SlicesAfterFirst(s: string, k: nat)
    requires 0 < k <= |s|
    ensures s[..k] == [s[0]] + s[1..][..k - 1]
    ensures s[1..][k - 1..] == s[k..]
  {
  }

  lemma {:induction false} NonSpaceOfWord(s: string, k: nat)
    requires k <= |s|
    requires forall i :: 0 <= i < k ==> !IsSpace(s[i])
    ensures NonSpace(s) == s[..k] + NonSpace(s[k..])
    decreases k
  {
    if k > 0 {
      var t := s[1..];
      NonSpaceOfWord(t, k - 1);
      NonSpaceCons(s);
      SlicesAfterFirst(s, k);
      var word, rest := t[..k - 1], NonSpace(t[k - 1..]);
      assert [s[0]] + (word + rest) == ([s[0]] + word) + rest;
    } else {
      assert s[k..] == s;
      assert s[..k] == [];
    }
  }

  /** Round trip of `split()`: gluing the tokens back together gives the line with
      its whitespace removed, so no character is lost, added or reordered. */
  lemma {:induction false} SplitWsConcat(s: string)
    ensures Concat(SplitWs(s)) == NonSpace(s)
    decreases |s|
  {
    if |s| == 0 {
    } else if IsSpace(s[0]) {
      SplitWsConcat(s[1..]);
    } else {
      var k := WordLength(s);
      SplitWsConcat(s[k..]);
      NonSpaceOfWord(s, k);
      assert SplitWs(s) == [s[..k]] + SplitWs(s[k..]);
      assert ([s[..k]] + SplitWs(s[k..]))[1..] == SplitWs(s[k..]);
    }
  }

  // ---------------------------------------------------------------------------
  // split(sep) and its inverse, sep.join(...)
  // ---------------------------------------------------------------------------

  /** Index of the first `sep` in `s`, or `|s|` when there is none. */
  function Find(s: string, sep: char): (k: nat)
    ensures k <= |s|
    ensures sep !in s[..k]
    ensures k < |s| ==> s[k] == sep
  {
    if |s| == 0 || s[0] == sep then 0
    else
      var k := 1 + Find(s[1..], sep);
      assert s[..k] == [s[0]] + s[1..][..k - 1];
      k
  }

  lemma {:induction false} FindStopsAt(s: string, sep: char, j: nat)
    requires j < |s| && s[j] == sep
    ensures Find(s, sep) <= j
  {
    if s[0] != sep {
      FindStopsAt(s[1..], sep, j - 1);
    }
  }

  lemma {:induction false} FindSkips(s: string, sep: char, j: nat)
    requires j <= |s| && sep !in s[..j]
    ensures Find(s, sep) >= j
  {
    if j > 0 {
      assert s[0] in s[..j];
      assert s[1..][..j - 1] == s[1..j];
      assert forall c :: c in s[1..j] ==> c in s[..j];
      FindSkips(s[1..], sep, j - 1);
    }
  }

  /** `s.split(sep)`: the pieces between the occurrences of `sep`, empty ones included. */
  function SplitOn(s: string, sep: char): (r: seq<string>)
    ensures |r| >= 1
    ensures forall k :: 0 <= k < |r| ==> sep !in r[k]
    decreases |s|
  {
    var k := Find(s, sep);
    if k == |s| then
      assert s[..k] == s;
      [s]
    else
      [s[..k]] + SplitOn(s[k + 1..], sep)
  }

  /** A string holding the separator splits into at least two pieces. */
  lemma SplitOnCuts(s: string, sep: char)
    requires sep in s
    ensures |SplitOn(s, sep)| >= 2
  {
    var j :| 0 <= j < |s| && s[j] == sep;
    FindStopsAt(s, sep, j);
  }

  /** `sep.join(parts)` */
  function Join(parts: seq<string>, sep: char): string
    requires |parts| >= 1
  {
    if |parts| == 1 then parts[0] else parts[0] + [sep] + Join(parts[1..], sep)
  }

  /** Round trip one way: joining the pieces of a split gives back the string. */
  lemma {:induction false} JoinSplitOn(s: string, sep: char)
    ensures Join(SplitOn(s, sep), sep) == s
    decreases |s|
  {
    var k := Find(s, sep);
    if k == |s| {
      assert s[..k] == s;
    } else {
      JoinSplitOn(s[k + 1..], sep);
      var r := SplitOn(s, sep);
      assert r == [s[..k]] + SplitOn(s[k + 1..], sep);
      assert r[1..] == SplitOn(s[k + 1..], sep);
      assert s == s[..k] + [sep] + s[k + 1..];
    }
  }

  /** Round trip the other way: splitting a join of `sep`-free pieces gives back the pieces. */
  lemma {:induction false} SplitOnJoin(parts: seq<string>, sep: char)
    requires |parts| >= 1
    requires forall k :: 0 <= k < |parts| ==> sep !in parts[k]
    ensures SplitOn(Join(parts, sep), sep) == parts
    decreases |parts|
  {
    if |parts| > 1 {
      var p, rest := parts[0], parts[1..];
      assert forall k :: 0 <= k < |rest| ==> rest[k] == parts[k + 1];
      assert Join(parts, sep) == p + [sep] + Join(rest, sep);
      SplitOnCons(p, Join(rest, sep), sep);
      SplitOnJoin(rest, sep);
      assert parts == [p] + rest;
    }
  }

  /** A `sep`-free piece followed by `sep` is the first piece of the split. */
  lemma SplitOnCons(p: string, t: string, sep: char)
    requires sep !in p
    ensures SplitOn(p + [sep] + t, sep) == [p] + SplitOn(t, sep)
  {
    var s := p + [sep] + t;
    assert s[..|p|] == p;
    FindStopsAt(s, sep, |p|);
    FindSkips(s, sep, |p|);
    assert s[|p| + 1..] == t;
  }

  // ---------------------------------------------------------------------------
  // sub in s
  // ---------------------------------------------------------------------------

  predicate OccursAt(s: string, sub: string, i: int) {
    0 <= i <= |s| - |sub| && s[i..i + |sub|] == sub
  }

  lemma SliceOfTail(s: string, i: int, n: int)
    requires 0 <= i && 0 <= n && i + n < |s|
    ensures s[1..][i..i + n] == s[i + 1..i + 1 + n]
  {
    var t := s[1..][i..i + n];
    assert forall k :: 0 <= k < n ==> t[k] == s[i + 1 + k];
  }

  /** Occurring in the tail is occurring in the string one position later. */
  lemma OccursShift(s: string, sub: string, i: int)
    requires |s| > 0 && i >= 0
    ensures OccursAt(s[1..], sub, i) <==> OccursAt(s, sub, i + 1)
  {
    if 0 <= i <= |s| - 1 - |sub| {
      SliceOfTail(s, i, |sub|);
    }
  }

  /** When `sub` does not start `s`, it occurs in `s` exactly when it occurs in the tail. */
  lemma OccursInTail(s: string, sub: string)
    requires |s| > 0 && !OccursAt(s, sub, 0)
    ensures (exists i :: OccursAt(s, sub, i)) <==> exists i :: OccursAt(s[1..], sub, i)
  {
    if exists i :: OccursAt(s, sub, i) {
      var i :| OccursAt(s, sub, i);
      OccursShift(s, sub, i - 1);
    }
    if exists i :: OccursAt(s[1..], sub, i) {
      var i :| OccursAt(s[1..], sub, i);
      OccursShift(s, sub, i);
    }
  }

  /** Python's `sub in s` on strings. */
  function Contains(s: string, sub: string): (b: bool)
    ensures b <==> exists i :: OccursAt(s, sub, i)
    decreases |s|
  {
    if |sub| > |s| then
      false
    else if s[..|sub|] == sub then
      assert OccursAt(s, sub, 0);
      true
    else
      var b := Contains(s[1..], sub);
      assert !OccursAt(s, sub, 0);
      OccursInTail(s, sub);
      b
  }
}
