/** Characters and strings as the front end's JavaScript sees them: the
    regular-expression classes `\s`, `\w`, `\d` and line terminators, and the
    `String.prototype` operations the core uses (`indexOf`, `includes`,
    `replace` with a string pattern, `trim`, `toLowerCase`). */
module Text {

  /** `\s`: ECMAScript WhiteSpace and LineTerminator code points. */
  predicate IsSpace(c: char) {
    c == ' ' || c == '\t' || c == '\n' || c == '\r' || c == '\U{000B}' || c == '\U{000C}'
    || c == '\U{00A0}' || c == '\U{1680}' || ('\U{2000}' <= c <= '\U{200A}')
    || c == '\U{2028}' || c == '\U{2029}' || c == '\U{202F}' || c == '\U{205F}'
    || c == '\U{3000}' || c == '\U{FEFF}'
  }

  /** The characters that end a line for `^`, `$` and `.` in a regular expression. */
  predicate IsLineTerminator(c: char) {
    c == '\n' || c == '\r' || c == '\U{2028}' || c == '\U{2029}'
  }

  /** `\w` without the `u` flag: ASCII letters, digits and underscore. */
  predicate IsWordChar(c: char) {
    ('a' <= c <= 'z') || ('A' <= c <= 'Z') || ('0' <= c <= '9') || c == '_'
  }

  /** `\d` */
  predicate IsDigit(c: char) {
    '0' <= c <= '9'
  }

  /** Case mapping of one character; only ASCII upper-case letters change. */
  function LowerChar(c: char): (d: char)
    ensures 'A' <= c <= 'Z' ==> d as int == c as int + 32
    ensures !('A' <= c <= 'Z') ==> d == c
  {
    if 'A' <= c <= 'Z' then (c as int + 32) as char else c
  }

  /** `toLowerCase`, character by character. */
  function Lower(s: string): (r: string)
    ensures |r| == |s|
    ensures forall k :: 0 <= k < |s| ==> r[k] == LowerChar(s[k])
  {
    seq(|s|, k requires 0 <= k < |s| => LowerChar(s[k]))
  }

  /** ASCII case-insensitive equality, as a regular expression with the `i` flag compares. */
  predicate EqualsIgnoreCase(s: string, t: string) {
    Lower(s) == Lower(t)
  }

  /** `pat` occurs in `s` at offset `i`. */
  predicate IsPrefixAt(s: string, i: nat, pat: string) {
    i + |pat| <= |s| && s[i..i + |pat|] == pat
  }

  /** `s` contains `pat` as a contiguous substring. */
  ghost predicate Contains(s: string, pat: string) {
    exists i :: 0 <= i <= |s| && IsPrefixAt(s, i, pat)
  }

  /** `s.indexOf(pat, from)`: the first offset at or after `from` where `pat` occurs, or -1. */
  function IndexOfFrom(s: string, pat: string, from: nat): (r: int)
    ensures r == -1 || (from <= r <= |s| && IsPrefixAt(s, r, pat))
    ensures r == -1 ==> forall j :: from <= j <= |s| ==> !IsPrefixAt(s, j, pat)
    ensures r != -1 ==> forall j :: from <= j < r ==> !IsPrefixAt(s, j, pat)
    decreases |s| + 1 - from
  {
    if from > |s| then -1
    else if IsPrefixAt(s, from, pat) then from
    else IndexOfFrom(s, pat, from + 1)
  }

  /** `s.indexOf(pat)` */
  function IndexOf(s: string, pat: string): int {
    IndexOfFrom(s, pat, 0)
  }

  /** `s.includes(pat)` */
  function Includes(s: string, pat: string): (b: bool)
    ensures b <==> Contains(s, pat)
  {
    IndexOf(s, pat) != -1
  }

  /** `s.replace(pat, repl)` with a string pattern: only the first occurrence is
      replaced, and a string without `pat` comes back unchanged. */
  function ReplaceFirst(s: string, pat: string, repl: string): (r: string)
    ensures !Contains(s, pat) ==> r == s
    ensures Contains(s, pat) ==>
      var k := IndexOf(s, pat);
      0 <= k && k + |pat| <= |s| && r == s[..k] + repl + s[k + |pat|..]
      && forall j :: 0 <= j < k ==> !IsPrefixAt(s, j, pat)
  {
    var k := IndexOf(s, pat);
    if k == -1 then s else s[..k] + repl + s[k + |pat|..]
  }

  /** The end of the run of `\s` characters starting at `i`. */
  function SpaceEnd(s: string, i: nat): (j: nat)
    requires i <= |s|
    ensures i <= j <= |s|
    ensures forall k :: i <= k < j ==> IsSpace(s[k])
    ensures j < |s| ==> !IsSpace(s[j])
    decreases |s| - i
  {
    if i == |s| || !IsSpace(s[i]) then i else SpaceEnd(s, i + 1)
  }

  /** The end of the run of `\w` characters starting at `i`. */
  function WordEnd(s: string, i: nat): (j: nat)
    requires i <= |s|
    ensures i <= j <= |s|
    ensures forall k :: i <= k < j ==> IsWordChar(s[k])
    ensures j < |s| ==> !IsWordChar(s[j])
    decreases |s| - i
  {
    if i == |s| || !IsWordChar(s[i]) then i else WordEnd(s, i + 1)
  }

  /** The end of the run of `\d` characters starting at `i`. */
  function DigitEnd(s: string, i: nat): (j: nat)
    requires i <= |s|
    ensures i <= j <= |s|
    ensures forall k :: i <= k < j ==> IsDigit(s[k])
    ensures j < |s| ==> !IsDigit(s[j])
    decreases |s| - i
  {
    if i == |s| || !IsDigit(s[i]) then i else DigitEnd(s, i + 1)
  }

  /** Where the line holding offset `i` ends: the next line terminator, or the end of `s`. */
  function LineEnd(s: string, i: nat): (j: nat)
    requires i <= |s|
    ensures i <= j <= |s|
    ensures forall k :: i <= k < j ==> !IsLineTerminator(s[k])
    ensures j < |s| ==> IsLineTerminator(s[j])
    decreases |s| - i
  {
    if i == |s| || IsLineTerminator(s[i]) then i else LineEnd(s, i + 1)
  }

  /** `^` in multi-line mode holds at offset `i`. */
  predicate AtLineStart(s: string, i: nat)
    requires i <= |s|
  {
    i == 0 || IsLineTerminator(s[i - 1])
  }

  /** `$` in multi-line mode holds at offset `i`. */
  predicate AtLineEnd(s: string, i: nat)
    requires i <= |s|
  {
    i == |s| || IsLineTerminator(s[i])
  }

  function TrimStart(s: string): (r: string)
    ensures |r| <= |s| && r == s[|s| - |r|..]
    ensures r != [] ==> !IsSpace(r[0])
    ensures forall k :: 0 <= k < |s| - |r| ==> IsSpace(s[k])
  {
    s[SpaceEnd(s, 0)..]
  }

  function TrimEnd(s: string): (r: string)
    ensures |r| <= |s| && r == s[..|r|]
    ensures r != [] ==> !IsSpace(r[|r| - 1])
    ensures forall k :: |r| <= k < |s| ==> IsSpace(s[k])
  {
    if s != [] && IsSpace(s[|s| - 1]) then TrimEnd(s[..|s| - 1]) else s
  }

  /** `s.trim()`: leading and trailing `\s` removed. */
  function Trim(s: string): string {
    TrimEnd(TrimStart(s))
  }

  /** `s` holds nothing but `\s` characters (possibly nothing at all). */
  predicate IsBlank(s: string) {
    forall k :: 0 <= k < |s| ==> IsSpace(s[k])
  }

  /** `!s.trim()` in JavaScript: the trimmed string is empty exactly when `s` is blank. */
  lemma TrimEmptyIffBlank(s: string)
    ensures Trim(s) == [] <==> IsBlank(s)
  {
    var t := TrimStart(s);
    if !IsBlank(s) {
      var k :| 0 <= k < |s| && !IsSpace(s[k]);
      var d := |s| - |t|;
      assert d <= k;
      assert t[k - d] == s[k];
      var u := TrimEnd(t);
      assert k - d < |u|;
    }
  }

  /** The character `c` does not occur in `s`, so no pattern containing `c` does either. */
  lemma AbsentCharExcludes(s: string, pat: string, c: char)
    requires c in pat && c !in s
    ensures forall i :: 0 <= i <= |s| ==> !IsPrefixAt(s, i, pat)
  {
  }

  /** `SpaceEnd` is pinned down by its run: blanks up to `j`, then a non-blank or the end. */
  lemma {:induction false} SpaceEndIs(s: string, i: nat, j: nat)
    requires i <= j <= |s|
    requires forall k :: i <= k < j ==> IsSpace(s[k])
    requires j < |s| ==> !IsSpace(s[j])
    ensures SpaceEnd(s, i) == j
    decreases j - i
  {
    if i < j {
      SpaceEndIs(s, i + 1, j);
    }
  }

  /** `IndexOfFrom` is pinned down by the first occurrence at or after `from`. */
  lemma {:induction false} IndexOfFromIs(s: string, pat: string, from: nat, r: nat)
    requires from <= r && IsPrefixAt(s, r, pat)
    requires forall j :: from <= j < r ==> !IsPrefixAt(s, j, pat)
    ensures IndexOfFrom(s, pat, from) == r
    decreases r - from
  {
    if from < r {
      IndexOfFromIs(s, pat, from + 1, r);
    }
  }

  /** The first `c` at or after `lo` is at `hi` when `s[lo..hi]` has none. */
  lemma CharIndexIs(s: string, lo: nat, hi: nat, c: char)
    requires lo <= hi < |s| && c !in s[lo..hi] && s[hi] == c
    ensures IndexOfFrom(s, [c], lo) == hi
  {
    AbsentCharInRange(s, lo, hi, c);
    assert s[hi..hi + 1] == [c];
    IndexOfFromIs(s, [c], lo, hi);
  }

  /** A character missing from `s[lo..hi]` starts no occurrence of itself there. */
  lemma AbsentCharInRange(s: string, lo: nat, hi: nat, c: char)
    requires lo <= hi <= |s| && c !in s[lo..hi]
    ensures forall j :: lo <= j < hi ==> !IsPrefixAt(s, j, [c])
  {
    forall j | lo <= j < hi
      ensures !IsPrefixAt(s, j, [c])
    {
      assert s[j] == s[lo..hi][j - lo];
      assert s[j..j + 1][0] == s[j];
    }
  }

  /** A character missing at every index of `lo..hi` is missing from `s[lo..hi]`. */
  lemma AbsentFromSlice(s: string, lo: nat, hi: nat, c: char)
    requires lo <= hi <= |s| && forall d :: lo <= d < hi ==> s[d] != c
    ensures c !in s[lo..hi]
  {
    forall k | 0 <= k < hi - lo
      ensures s[lo..hi][k] != c
    {
      assert s[lo..hi][k] == s[lo + k];
    }
  }

  /** A slice of a slice is a slice of the whole. */
  lemma SliceOfSlice<T>(s: seq<T>, lo: nat, hi: nat, i: nat, j: nat)
    requires lo <= hi <= |s| && i <= j <= hi - lo
    ensures s[lo..hi][i..j] == s[lo + i..lo + j]
  {
    forall m | 0 <= m < j - i
      ensures s[lo..hi][i..j][m] == s[lo + i..lo + j][m]
    {
      assert s[lo..hi][i..j][m] == s[lo..hi][i + m];
    }
  }

  /** An occurrence inside `s[lo..hi]` is an occurrence in `s`, shifted by `lo`. */
  lemma PrefixInSlice(s: string, lo: nat, hi: nat, k: nat, pat: string)
    requires lo <= k && k + |pat| <= hi <= |s|
    ensures IsPrefixAt(s[lo..hi], k - lo, pat) <==> IsPrefixAt(s, k, pat)
  {
    SliceOfSlice(s, lo, hi, k - lo, k - lo + |pat|);
  }

  /** `b` occurs in `a + b + c` right after `a`, and so does every prefix of `b`. */
  lemma OccursAfter(a: string, b: string, c: string, pat: string)
    requires IsPrefixAt(b, 0, pat)
    ensures IsPrefixAt(a + b + c, |a|, pat)
  {
    var s := a + b + c;
    assert s[|a|..|a| + |pat|] == b[..|pat|];
  }
}
