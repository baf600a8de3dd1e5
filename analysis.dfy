/** The live analysis of the editor component (`analyzeText` in
    src/components/MarkdownEditor.tsx): word, sentence and paragraph counts, a
    reading time, and four lists of flagged positions. The `split`, `test` and
    `exec` calls of the source are modelled by the functions here, worked out
    from the regular expressions they are given; `AnalyzeText` runs the
    source's loops over them. */
module Analysis {
  import opened Text
  import opened Options

  // ---------------------------------------------------------------------
  // Splitting into words and sentences

  /** The separators of `split(/\s+/)` (words) and `split(/[.!?]+/)` (sentences). */
  datatype Separator = Blank | Stop

  predicate IsSeparator(sep: Separator, c: char) {
    match sep
    case Blank => IsSpace(c)
    case Stop => c == '.' || c == '!' || c == '?'
  }

  predicate NoSeparator(sep: Separator, f: string) {
    forall k :: 0 <= k < |f| ==> !IsSeparator(sep, f[k])
  }

  /** The end of the run of non-separators that starts at `i`. */
  function FieldEnd(sep: Separator, s: string, i: nat): (j: nat)
    requires i <= |s|
    ensures i <= j <= |s|
    ensures forall k :: i <= k < j ==> !IsSeparator(sep, s[k])
    ensures j < |s| ==> IsSeparator(sep, s[j])
    decreases |s| - i
  {
    if i == |s| || IsSeparator(sep, s[i]) then i else FieldEnd(sep, s, i + 1)
  }

  lemma {:induction false} FieldEndIs(sep: Separator, s: string, i: nat, j: nat)
    requires i <= j <= |s|
    requires forall k :: i <= k < j ==> !IsSeparator(sep, s[k])
    requires j < |s| ==> IsSeparator(sep, s[j])
    ensures FieldEnd(sep, s, i) == j
    decreases j - i
  {
    if i < j {
      FieldEndIs(sep, s, i + 1, j);
    }
  }

  /** `s.split(re).filter(Boolean)` for a separator class `re` with `+`: the
      pieces between runs of separators, without the empty ones, which are the
      maximal runs of non-separators in order. */
  function Fields(sep: Separator, s: string): (r: seq<string>)
    ensures forall i :: 0 <= i < |r| ==> r[i] != [] && NoSeparator(sep, r[i])
    decreases |s|
  {
    if s == [] then []
    else if IsSeparator(sep, s[0]) then Fields(sep, s[1..])
    else
      var e := FieldEnd(sep, s, 0);
      [s[..e]] + Fields(sep, s[e..])
  }

  /** A separator cuts the text in two: the fields of the whole are the fields
      of the part before it followed by the fields of the part after it. */
  lemma {:induction false} FieldsJoin(sep: Separator, a: string, c: char, b: string)
    requires IsSeparator(sep, c)
    ensures Fields(sep, a + [c] + b) == Fields(sep, a) + Fields(sep, b)
    decreases |a|
  {
    var s := a + [c] + b;
    if a == [] {
      assert s[1..] == b;
    } else if IsSeparator(sep, a[0]) {
      assert s[1..] == a[1..] + [c] + b;
      FieldsJoin(sep, a[1..], c, b);
    } else {
      var ea := FieldEnd(sep, a, 0);
      FieldEndBeforeSeparator(sep, a, c, b);
      assert s[..ea] == a[..ea];
      assert s[ea..] == a[ea..] + [c] + b;
      FieldsJoin(sep, a[ea..], c, b);
      FieldsOfWord(sep, s);
      FieldsOfWord(sep, a);
    }
  }

  /** The first field of `a` ends where it ends in `a + [c] + b`. */
  lemma FieldEndBeforeSeparator(sep: Separator, a: string, c: char, b: string)
    requires IsSeparator(sep, c)
    ensures FieldEnd(sep, a + [c] + b, 0) == FieldEnd(sep, a, 0)
  {
    var s := a + [c] + b;
    var ea := FieldEnd(sep, a, 0);
    forall k | 0 <= k < ea
      ensures !IsSeparator(sep, s[k])
    {
      assert s[k] == a[k];
    }
    assert IsSeparator(sep, s[ea]) by {
      if ea < |a| {
        assert s[ea] == a[ea];
      } else {
        assert s[ea] == c;
      }
    }
    FieldEndIs(sep, s, 0, ea);
  }

  /** A text that starts with a non-separator starts with its first field. */
  lemma FieldsOfWord(sep: Separator, s: string)
    requires s != [] && !IsSeparator(sep, s[0])
    ensures FieldEnd(sep, s, 0) > 0
    ensures Fields(sep, s) == [s[..FieldEnd(sep, s, 0)]] + Fields(sep, s[FieldEnd(sep, s, 0)..])
  {
  }

  /** A non-empty text without separators is one field. */
  lemma FieldsOfRun(sep: Separator, s: string)
    requires s != [] && NoSeparator(sep, s)
    ensures Fields(sep, s) == [s]
  {
    FieldEndIs(sep, s, 0, |s|);
    assert s[..|s|] == s && s[|s|..] == [];
  }

  /** A text of separators only has no fields. */
  lemma {:induction false} FieldsOfSeparators(sep: Separator, s: string)
    requires forall k :: 0 <= k < |s| ==> IsSeparator(sep, s[k])
    ensures Fields(sep, s) == []
    decreases |s|
  {
    if s != [] {
      FieldsOfSeparators(sep, s[1..]);
    }
  }

  /** `text.split(/\s+/).filter(Boolean)`: non-empty words without blanks. */
  function Words(text: string): (r: seq<string>)
    ensures forall i :: 0 <= i < |r| ==> r[i] != [] && forall k :: 0 <= k < |r[i]| ==> !IsSpace(r[i][k])
  {
    var r := Fields(Blank, text);
    assert forall i :: 0 <= i < |r| ==> NoSeparator(Blank, r[i]);
    r
  }

  /** `text.split(/[.!?]+/).filter(Boolean)`: non-empty sentences holding no
      `.`, `!` or `?`. */
  function Sentences(text: string): (r: seq<string>)
    ensures forall i :: 0 <= i < |r| ==>
      r[i] != [] && forall k :: 0 <= k < |r[i]| ==> r[i][k] != '.' && r[i][k] != '!' && r[i][k] != '?'
  {
    var r := Fields(Stop, text);
    assert forall i :: 0 <= i < |r| ==> NoSeparator(Stop, r[i]);
    r
  }

  /** What `split(/[.!?]+/)` leaves after the last full stop is a sentence even
      when it holds nothing but blanks: `"Hi. "` has two sentences and one word. */
  lemma BlankTailIsSentence(x: string, w: string)
    requires x != [] && NoSeparator(Stop, x) && NoSeparator(Stop, w) && w != [] && IsBlank(w)
    ensures Sentences(x + "." + w) == [x, w]
    ensures Words(w) == []
  {
    assert x + "." + w == x + ['.'] + w;
    FieldsJoin(Stop, x, '.', w);
    FieldsOfRun(Stop, x);
    FieldsOfRun(Stop, w);
    FieldsOfSeparators(Blank, w);
  }

  // ---------------------------------------------------------------------
  // Splitting into paragraphs

  /** The largest `k` in `[lo, hi)` with `s[k] == '\n'`. */
  function LastNewline(s: string, lo: nat, hi: nat): (k: Option<nat>)
    requires lo <= hi <= |s|
    ensures k.Some? ==> lo <= k.value < hi && s[k.value] == '\n'
    ensures k.Some? ==> forall j :: k.value < j < hi ==> s[j] != '\n'
    ensures k.None? ==> forall j :: lo <= j < hi ==> s[j] != '\n'
    decreases hi - lo
  {
    if hi == lo then None
    else if s[hi - 1] == '\n' then Some(hi - 1)
    else LastNewline(s, lo, hi - 1)
  }

  /** Where a match of `\n\s*\n` that starts at `i` ends: `\s*` takes every
      blank it can and gives back characters until a `\n` follows. */
  function BreakAt(s: string, i: nat): (e: Option<nat>)
    requires i <= |s|
    ensures e.Some? ==> i + 2 <= e.value <= |s| && s[i] == '\n' && s[e.value - 1] == '\n'
  {
    if i < |s| && s[i] == '\n' then
      match LastNewline(s, i + 1, SpaceEnd(s, i + 1))
      case Some(k) => Some(k + 1)
      case None => None
    else None
  }

  /** `s.split(/\n\s*\n/)` from the piece that starts at `p`, the next break
      being looked for at `q` and after. */
  function SplitBreaks(s: string, p: nat, q: nat): (r: seq<string>)
    requires p <= q <= |s|
    ensures |r| >= 1
    decreases |s| - q
  {
    if q == |s| then [s[p..]]
    else match BreakAt(s, q)
      case Some(e) => [s[p..q]] + SplitBreaks(s, e, e)
      case None => SplitBreaks(s, p, q + 1)
  }

  /** `filter(Boolean)` on the pieces of a split. */
  function NonEmpty(pieces: seq<string>): (r: seq<string>)
    ensures forall i :: 0 <= i < |r| ==> r[i] != []
    ensures forall x :: x in r <==> x in pieces && x != []
  {
    if pieces == [] then []
    else (if pieces[0] != [] then [pieces[0]] else []) + NonEmpty(pieces[1..])
  }

  /** `text.split(/\n\s*\n/).filter(Boolean)`: the pieces of the split, empty ones dropped. */
  function Paragraphs(text: string): (r: seq<string>)
    ensures forall i :: 0 <= i < |r| ==> r[i] != []
    ensures forall x :: x in r <==> x in SplitBreaks(text, 0, 0) && x != []
  {
    NonEmpty(SplitBreaks(text, 0, 0))
  }

  /** A break inside a piece of the text is a break of the text itself. */
  lemma BreakInSlice(s: string, p: nat, q: nat, j: nat)
    requires p <= q <= |s| && j <= q - p && BreakAt(s[p..q], j).Some?
    ensures BreakAt(s, p + j).Some?
  {
    var t := s[p..q];
    var k := LastNewline(t, j + 1, SpaceEnd(t, j + 1)).value;
    assert s[p + j] == t[j];
    assert s[p + k] == t[k];
    forall m | p + j + 1 <= m <= p + k
      ensures IsSpace(s[m])
    {
      assert s[m] == t[m - p];
    }
  }

  /** Every piece of the split is free of breaks, so no paragraph holds a blank line. */
  lemma {:induction false} SplitPiecesHaveNoBreak(s: string, p: nat, q: nat)
    requires p <= q <= |s|
    requires forall k :: p <= k < q ==> BreakAt(s, k).None?
    ensures forall i, j :: 0 <= i < |SplitBreaks(s, p, q)| && 0 <= j <= |SplitBreaks(s, p, q)[i]| ==>
      BreakAt(SplitBreaks(s, p, q)[i], j).None?
    decreases |s| - q
  {
    var r := SplitBreaks(s, p, q);
    if q == |s| {
      assert s[p..] == s[p..|s|];
      forall j | 0 <= j <= |s[p..]| && BreakAt(s[p..], j).Some?
        ensures false
      {
        BreakInSlice(s, p, |s|, j);
      }
    } else {
      match BreakAt(s, q)
      case Some(e) =>
        SplitPiecesHaveNoBreak(s, e, e);
        forall j | 0 <= j <= |s[p..q]| && BreakAt(s[p..q], j).Some?
          ensures false
        {
          BreakInSlice(s, p, q, j);
        }
        assert r == [s[p..q]] + SplitBreaks(s, e, e);
      case None =>
        SplitPiecesHaveNoBreak(s, p, q + 1);
    }
  }

  /** No paragraph contains `\n`, blanks and `\n`. */
  lemma ParagraphsHaveNoBreak(text: string)
    ensures forall i, j :: 0 <= i < |Paragraphs(text)| && 0 <= j <= |Paragraphs(text)[i]| ==>
      BreakAt(Paragraphs(text)[i], j).None?
  {
    SplitPiecesHaveNoBreak(text, 0, 0);
    var pieces := SplitBreaks(text, 0, 0);
    forall i, j | 0 <= i < |Paragraphs(text)| && 0 <= j <= |Paragraphs(text)[i]|
      ensures BreakAt(Paragraphs(text)[i], j).None?
    {
      var x := Paragraphs(text)[i];
      assert x in pieces;
      var m :| 0 <= m < |pieces| && pieces[m] == x;
    }
  }

  /** Past `q` there is no line feed, so no further break: the piece that
      started at `p` runs to the end. */
  lemma {:induction false} SplitWithoutNewlineFrom(s: string, p: nat, q: nat)
    requires p <= q <= |s|
    requires forall k :: q <= k < |s| ==> s[k] != '\n'
    ensures SplitBreaks(s, p, q) == [s[p..]]
    decreases |s| - q
  {
    if q < |s| {
      SplitWithoutNewlineFrom(s, p, q + 1);
    }
  }

  /** A text without a line feed is one paragraph, or none when it is empty. */
  lemma SingleParagraph(text: string)
    requires '\n' !in text
    ensures text != [] ==> Paragraphs(text) == [text]
    ensures text == [] ==> Paragraphs(text) == []
  {
    SplitWithoutNewlineFrom(text, 0, 0);
    assert text[0..] == text;
    assert SplitBreaks(text, 0, 0) == [text];
    assert [text][1..] == [];
    assert NonEmpty([text]) == (if text != [] then [text] else []) + NonEmpty([]);
  }

  /** No break starts between `q` and `r`, where there is no line feed: the
      split goes on at `r`. */
  lemma {:induction false} SplitSkips(s: string, p: nat, q: nat, r: nat)
    requires p <= q <= r <= |s|
    requires forall k :: q <= k < r ==> s[k] != '\n'
    ensures SplitBreaks(s, p, q) == SplitBreaks(s, p, r)
    decreases r - q
  {
    if q < r {
      SplitSkips(s, p, q + 1, r);
    }
  }

  /** A line feed at `a`, blanks, and a last line feed at `b`: the break
      starting at `a` ends right after `b`. */
  lemma BreakOverBlankLine(s: string, a: nat, b: nat)
    requires a < b < |s| && s[a] == '\n' && s[b] == '\n'
    requires forall k :: a < k < b ==> IsSpace(s[k])
    requires forall j :: b < j < |s| ==> s[j] != '\n'
    ensures BreakAt(s, a) == Some(b + 1)
  {
    var h := SpaceEnd(s, a + 1);
    assert h > b;
  }

  /** The text's only break runs from `a` to just after `b`: two pieces. */
  lemma SplitOnce(s: string, a: nat, b: nat)
    requires a < b < |s| && BreakAt(s, a) == Some(b + 1)
    requires forall k :: 0 <= k < a ==> s[k] != '\n'
    requires forall j :: b < j < |s| ==> s[j] != '\n'
    ensures SplitBreaks(s, 0, 0) == [s[..a], s[b + 1..]]
  {
    calc {
      SplitBreaks(s, 0, 0);
      { SplitSkips(s, 0, 0, a); }
      SplitBreaks(s, 0, a);
      { SplitAtBreak(s, 0, a, b + 1); }
      [s[0..a]] + SplitBreaks(s, b + 1, b + 1);
      { SplitWithoutNewlineFrom(s, b + 1, b + 1); }
      [s[0..a]] + [s[b + 1..]];
      { assert s[0..a] == s[..a]; }
      [s[..a], s[b + 1..]];
    }
  }

  /** A break found at `q` closes the piece that started at `p`. */
  lemma SplitAtBreak(s: string, p: nat, q: nat, e: nat)
    requires p <= q < |s| && BreakAt(s, q) == Some(e)
    ensures SplitBreaks(s, p, q) == [s[p..q]] + SplitBreaks(s, e, e)
  {
  }

  lemma SplitAtBlankLine(x: string, w: string, y: string)
    requires '\n' !in x && '\n' !in y
    requires IsBlank(w) && '\n' !in w
    ensures SplitBreaks(x + "\n" + w + "\n" + y, 0, 0) == [x, y]
  {
    var s := x + "\n" + w + "\n" + y;
    var a := |x|;
    var b := a + 1 + |w|;
    forall k | 0 <= k < a
      ensures s[k] != '\n'
    {
      assert s[k] == x[k];
    }
    forall k | a < k < b
      ensures IsSpace(s[k])
    {
      assert s[k] == w[k - a - 1];
    }
    forall j | b < j < |s|
      ensures s[j] != '\n'
    {
      assert s[j] == y[j - b - 1];
    }
    assert s[a] == '\n' && s[b] == '\n';
    BreakOverBlankLine(s, a, b);
    SplitOnce(s, a, b);
    assert s[..a] == x && s[b + 1..] == y;
  }

  /** A line break, blanks and a line break separate two paragraphs; the
      second counts even when it holds nothing but blanks. */
  lemma TwoParagraphs(x: string, w: string, y: string)
    requires x != [] && '\n' !in x && y != [] && '\n' !in y
    requires IsBlank(w) && '\n' !in w
    ensures Paragraphs(x + "\n" + w + "\n" + y) == [x, y]
  {
    SplitAtBlankLine(x, w, y);
    assert [x, y][1..] == [y] && [y][1..] == [];
    assert NonEmpty([y]) == [y];
    assert NonEmpty([x, y]) == [x] + NonEmpty([y]);
  }

  // ---------------------------------------------------------------------
  // Reading time

  /** `Math.max(1, Math.ceil(words / 200))`: the fewest whole minutes, at least
      one, in which the words are read at 200 a minute. */
  function ReadingTime(words: nat): (minutes: nat)
    ensures minutes >= 1 && words <= 200 * minutes
    ensures minutes == 1 || 200 * (minutes - 1) < words
  {
    var ceiling := (words + 199) / 200;
    assert 200 * ceiling + (words + 199) % 200 == words + 199;
    if ceiling < 1 then 1 else ceiling
  }

  // ---------------------------------------------------------------------
  // Long sentences

  predicate IsLong(sentence: string) {
    |Words(sentence)| > 15
  }

  /** The indices among the first `n` sentences that `forEach` pushes. */
  function LongUpTo(sentences: seq<string>, n: nat): (r: seq<nat>)
    requires n <= |sentences|
    ensures |r| <= n && forall i :: 0 <= i < |r| ==> r[i] < n
  {
    if n == 0 then []
    else LongUpTo(sentences, n - 1) + (if IsLong(sentences[n - 1]) then [n - 1] else [])
  }

  predicate StrictlyIncreasing(xs: seq<nat>) {
    forall i, j :: 0 <= i < j < |xs| ==> xs[i] < xs[j]
  }

  /** Exactly the long sentences' indices, in increasing order. */
  lemma {:induction false} LongUpToExact(sentences: seq<string>, n: nat)
    requires n <= |sentences|
    ensures forall i: nat :: i in LongUpTo(sentences, n) <==> i < n && IsLong(sentences[i])
    ensures StrictlyIncreasing(LongUpTo(sentences, n))
    ensures forall i :: 0 <= i < |LongUpTo(sentences, n)| ==> LongUpTo(sentences, n)[i] < n
  {
    if n > 0 {
      LongUpToExact(sentences, n - 1);
      var prev := LongUpTo(sentences, n - 1);
      var r := LongUpTo(sentences, n);
      assert forall i :: 0 <= i < |prev| ==> r[i] == prev[i];
    }
  }

  // ---------------------------------------------------------------------
  // Complex words: `/\b\w{7,}\b/g.test(word)` over the words, one regular
  // expression whose `lastIndex` carries over from one word to the next.

  /** `\b\w{7,}\b` matches at `p`: a run of seven or more word characters starts there. */
  predicate ComplexAt(w: string, p: nat) {
    p < |w| && IsWordChar(w[p]) && (p == 0 || !IsWordChar(w[p - 1])) && WordEnd(w, p) - p >= 7
  }

  /** The first offset at or after `from` where the pattern matches. */
  function FirstComplex(w: string, from: nat): (p: Option<nat>)
    requires from <= |w|
    ensures p.Some? ==> from <= p.value && ComplexAt(w, p.value)
    ensures p.Some? ==> forall q :: from <= q < p.value ==> !ComplexAt(w, q)
    ensures p.None? ==> forall q :: from <= q ==> !ComplexAt(w, q)
    decreases |w| - from
  {
    if from == |w| then None
    else if ComplexAt(w, from) then Some(from)
    else FirstComplex(w, from + 1)
  }

  /** The pattern matches somewhere in `w`. */
  predicate HasComplexRun(w: string) {
    FirstComplex(w, 0).Some?
  }

  /** A word has a match exactly when some offset starts a run of seven or
      more word characters. */
  lemma HasComplexRunIff(w: string)
    ensures HasComplexRun(w) <==> exists p :: ComplexAt(w, p)
  {
    if HasComplexRun(w) {
      assert ComplexAt(w, FirstComplex(w, 0).value);
    }
  }

  /** What `test` answers and the `lastIndex` it leaves. */
  datatype TestResult = TestResult(found: bool, lastIndex: nat)

  /** `regex.test(w)` for the global pattern: the search starts at `lastIndex`,
      which is reset to 0 when the search fails or starts beyond the end, and
      otherwise moves to the end of the match. */
  function Test(w: string, lastIndex: nat): (t: TestResult)
    ensures t.found ==> lastIndex <= |w| && t.lastIndex <= |w|
    ensures !t.found ==> t.lastIndex == 0
  {
    if lastIndex > |w| then TestResult(false, 0)
    else match FirstComplex(w, lastIndex)
      case Some(p) => TestResult(true, WordEnd(w, p))
      case None => TestResult(false, 0)
  }

  datatype Scan = Scan(flagged: seq<nat>, lastIndex: nat)

  /** The indices pushed while testing the first `n` words, and the
      `lastIndex` left for the next word. */
  function ComplexUpTo(words: seq<string>, n: nat): (r: Scan)
    requires n <= |words|
    ensures |r.flagged| <= n && forall i :: 0 <= i < |r.flagged| ==> r.flagged[i] < n
  {
    if n == 0 then Scan([], 0)
    else
      var prev := ComplexUpTo(words, n - 1);
      var t := Test(words[n - 1], prev.lastIndex);
      Scan(if t.found then prev.flagged + [n - 1] else prev.flagged, t.lastIndex)
  }

  /** Word `i` is tested from offset 0: it is the first word, or the word
      before it was not flagged and so reset `lastIndex`. */
  predicate TestedFromStart(flagged: seq<nat>, i: nat) {
    i == 0 || i - 1 !in flagged
  }

  /** `test` succeeds on word `n - 1`, searched from the `lastIndex` that
      the words before it left. */
  predicate Hit(words: seq<string>, n: nat)
    requires 0 < n <= |words|
  {
    Test(words[n - 1], ComplexUpTo(words, n - 1).lastIndex).found
  }

  /** One word: it is flagged only when it has a long run, and exactly when
      it has one if it is tested from offset 0; `lastIndex` is reset when it
      is not flagged. */
  lemma ComplexStep(words: seq<string>, n: nat)
    requires 0 < n <= |words|
    ensures Hit(words, n) ==> HasComplexRun(words[n - 1])
    ensures ComplexUpTo(words, n - 1).lastIndex == 0 ==> (Hit(words, n) <==> HasComplexRun(words[n - 1]))
    ensures !Hit(words, n) ==> ComplexUpTo(words, n).lastIndex == 0
  {
    var w := words[n - 1];
    var from := ComplexUpTo(words, n - 1).lastIndex;
    if Hit(words, n) {
      assert ComplexAt(w, FirstComplex(w, from).value);
    }
  }

  /** The flagged indices are increasing and below the number of words
      tested, and index `i` is flagged exactly when `test` succeeded on it. */
  lemma {:induction false} ComplexUpToFlags(words: seq<string>, n: nat)
    requires n <= |words|
    ensures StrictlyIncreasing(ComplexUpTo(words, n).flagged)
    ensures forall i :: 0 <= i < |ComplexUpTo(words, n).flagged| ==> ComplexUpTo(words, n).flagged[i] < n
    ensures forall i :: 0 <= i < n ==> (i in ComplexUpTo(words, n).flagged <==> Hit(words, i + 1))
  {
    if n > 0 {
      ComplexUpToFlags(words, n - 1);
      var prev := ComplexUpTo(words, n - 1).flagged;
      var f := ComplexUpTo(words, n).flagged;
      if Hit(words, n) {
        assert f == prev + [n - 1];
        assert forall i :: 0 <= i < |prev| ==> f[i] == prev[i];
      } else {
        assert f == prev;
      }
      assert n - 1 !in prev;
    }
  }

  /** The indices are increasing and below the number of words tested, each
      flagged word has a run of seven or more word characters, and
      `lastIndex` is 0 after a word that was not flagged. */
  lemma ComplexUpToSound(words: seq<string>, n: nat)
    requires n <= |words|
    ensures StrictlyIncreasing(ComplexUpTo(words, n).flagged)
    ensures var f := ComplexUpTo(words, n).flagged;
      forall i :: 0 <= i < |f| ==> f[i] < n && HasComplexRun(words[f[i]])
    ensures n == 0 || n - 1 !in ComplexUpTo(words, n).flagged ==> ComplexUpTo(words, n).lastIndex == 0
  {
    ComplexUpToFlags(words, n);
    var f := ComplexUpTo(words, n).flagged;
    forall i | 0 <= i < |f|
      ensures HasComplexRun(words[f[i]])
    {
      assert f[i] in f;
      ComplexStep(words, f[i] + 1);
    }
    if n > 0 {
      ComplexStep(words, n);
    }
  }

  /** A word tested from offset 0, the first word or one after a word that
      was not flagged, is flagged exactly when it has a run of seven or more
      word characters. */
  lemma ComplexUpToFreshStart(words: seq<string>, n: nat)
    requires n <= |words|
    ensures var f := ComplexUpTo(words, n).flagged;
      forall i: nat :: i < n && TestedFromStart(f, i) ==> (i in f <==> HasComplexRun(words[i]))
  {
    ComplexUpToFlags(words, n);
    var f := ComplexUpTo(words, n).flagged;
    forall i: nat | i < n && TestedFromStart(f, i)
      ensures i in f <==> HasComplexRun(words[i])
    {
      if i > 0 {
        assert !Hit(words, i);
        ComplexStep(words, i);
      }
      ComplexStep(words, i + 1);
    }
  }

  /** The carried-over `lastIndex` loses the second of two equal long words:
      "abcdefgh" twice gives only index 0. */
  lemma SecondComplexWordMissed()
    ensures ComplexUpTo(["abcdefgh", "abcdefgh"], 2).flagged == [0]
  {
    var w := "abcdefgh";
    assert ComplexAt(w, 0) by {
      assert WordEnd(w, 8) == 8;
    }
    assert Test(w, 0) == TestResult(true, 8);
    assert FirstComplex(w, 8) == None;
  }

  // ---------------------------------------------------------------------
  // Passive voice and adverbs: `while ((m = regex.exec(text)) !== null)`.

  /** The two patterns scanned with `exec`, both with the `gi` flags. */
  datatype Pattern =
    | Passive  // /\b(is|are|was|were|be|been|being)\s+(\w+ed|\w+en)\b/gi
    | Adverb   // /\b\w+ly\b/gi

  const AUXILIARIES: seq<string> := ["is", "are", "was", "were", "be", "been", "being"]

  /** `\b` before a word character at `p`. */
  predicate WordStartsAt(s: string, p: nat) {
    p < |s| && IsWordChar(s[p]) && (p == 0 || !IsWordChar(s[p - 1]))
  }

  /** `s` has, ignoring case, the lower-case `word` at offset `p`. */
  predicate SpellsIgnoringCase(s: string, p: nat, word: string)
    decreases |word|
  {
    word == [] || (p < |s| && LowerChar(s[p]) == word[0] && SpellsIgnoringCase(s, p + 1, word[1..]))
  }

  /** `s[p..r]` is, ignoring case, one of `AUXILIARIES[i..]`. */
  predicate AuxiliaryFrom(s: string, p: nat, r: nat, i: nat)
    requires p <= r <= |s|
    decreases |AUXILIARIES| - i
  {
    i < |AUXILIARIES| && ((r - p == |AUXILIARIES[i]| && SpellsIgnoringCase(s, p, AUXILIARIES[i])) || AuxiliaryFrom(s, p, r, i + 1))
  }

  /** The word `s[q..r]` is at least three characters long and ends, ignoring
      case, with `suffix`: what `\w+suffix\b` needs once `\w+` has given back
      characters. */
  predicate EndsWithIgnoringCase(s: string, q: nat, r: nat, suffix: string)
    requires q <= r <= |s| && |suffix| == 2
  {
    r - q >= 3 && LowerChar(s[r - 2]) == suffix[0] && LowerChar(s[r - 1]) == suffix[1]
  }

  /** Where a match of the pattern that starts at `p` ends. Each pattern ends
      with `\b` right after letters, so its last word runs to the end of its
      run of word characters; and an auxiliary must be followed by a blank, so
      it is the whole word that starts at `p`. */
  function MatchEnd(pat: Pattern, s: string, p: nat): (e: Option<nat>)
    requires p <= |s|
    ensures e.Some? ==> p < e.value <= |s| && WordStartsAt(s, p)
  {
    if !WordStartsAt(s, p) then None
    else
      var r0 := WordEnd(s, p);
      match pat
      case Adverb =>
        if EndsWithIgnoringCase(s, p, r0, "ly") then Some(r0) else None
      case Passive =>
        if AuxiliaryFrom(s, p, r0, 0) && r0 < |s| && IsSpace(s[r0]) then
          var q := SpaceEnd(s, r0);
          var r := WordEnd(s, q);
          if EndsWithIgnoringCase(s, q, r, "ed") || EndsWithIgnoringCase(s, q, r, "en") then Some(r) else None
        else None
  }

  /** Where a match of the pattern that starts at each offset `0..|s|` ends:
      what the regular-expression engine finds when it tries each offset. */
  function MatchTable(pat: Pattern, s: string): (ends: seq<Option<nat>>)
    ensures |ends| == |s| + 1
    ensures forall q :: 0 <= q <= |s| ==> ends[q] == MatchEnd(pat, s, q)
  {
    seq(|s| + 1, q requires 0 <= q <= |s| => MatchEnd(pat, s, q))
  }

  /** Every match ends after it starts and within the text. */
  predicate ValidTable(ends: seq<Option<nat>>) {
    forall q :: 0 <= q < |ends| && ends[q].Some? ==> q < ends[q].value < |ends|
  }

  lemma MatchTableValid(pat: Pattern, s: string)
    ensures ValidTable(MatchTable(pat, s))
  {
    var ends := MatchTable(pat, s);
    forall q | 0 <= q < |ends| && ends[q].Some?
      ensures q < ends[q].value < |ends|
    {
      assert ends[q] == MatchEnd(pat, s, q);
    }
  }

  /** A successful `exec`: where the match starts and where it ends. */
  datatype Found = Found(index: nat, end: nat)

  /** `regex.exec(s)` with `lastIndex` at `from`: the leftmost match at or
      after it, `ends` being the pattern's table for `s`. */
  function Exec(ends: seq<Option<nat>>, from: nat): (m: Option<Found>)
    requires ValidTable(ends) && from < |ends|
    ensures m.Some? ==> from <= m.value.index < m.value.end < |ends|
    ensures m.Some? ==> ends[m.value.index] == Some(m.value.end)
    decreases |ends| - from
  {
    match ends[from]
    case Some(e) => Some(Found(from, e))
    case None => if from + 1 == |ends| then None else Exec(ends, from + 1)
  }

  /** `exec` finds the leftmost match: none starts between `lastIndex` and the
      match it reports, and none at all when it reports none. */
  lemma {:induction false} ExecLeftmost(ends: seq<Option<nat>>, from: nat)
    requires ValidTable(ends) && from < |ends|
    ensures var m := Exec(ends, from);
      m.Some? ==> forall q :: from <= q < m.value.index ==> ends[q].None?
    ensures Exec(ends, from).None? ==> forall q :: from <= q < |ends| ==> ends[q].None?
    decreases |ends| - from
  {
    if ends[from].None? && from + 1 < |ends| {
      ExecLeftmost(ends, from + 1);
    }
  }

  /** The indices the `exec` loop pushes once `lastIndex` is at `from`. */
  function MatchesFrom(ends: seq<Option<nat>>, from: nat): seq<nat>
    requires ValidTable(ends) && from < |ends|
    decreases |ends| - from
  {
    match Exec(ends, from)
    case Some(m) => [m.index] + MatchesFrom(ends, m.end)
    case None => []
  }

  /** The offsets the `exec` loop pushes: each starts a match in the text. */
  function Matches(pat: Pattern, s: string): (r: seq<nat>)
    ensures forall i :: 0 <= i < |r| ==> r[i] < |s| && MatchEnd(pat, s, r[i]).Some?
  {
    MatchTableValid(pat, s);
    MatchesFromSound(MatchTable(pat, s), 0);
    MatchesFrom(MatchTable(pat, s), 0)
  }

  /** The offsets are increasing, each the start of a match, and each match
      ends before the next offset; no match starts between one match's end
      and the next offset, nor after the last. */
  lemma {:induction false} MatchesFromSound(ends: seq<Option<nat>>, from: nat)
    requires ValidTable(ends) && from < |ends|
    ensures var r := MatchesFrom(ends, from);
      StrictlyIncreasing(r)
      && (forall i :: 0 <= i < |r| ==> from <= r[i] < |ends| && ends[r[i]].Some?)
      && (forall i :: 0 <= i < |r| - 1 ==> ends[r[i]].value <= r[i + 1])
      && (r == [] ==> forall q :: from <= q < |ends| ==> ends[q].None?)
      && (r != [] ==> forall q :: from <= q < r[0] ==> ends[q].None?)
    decreases |ends| - from
  {
    ExecLeftmost(ends, from);
    match Exec(ends, from)
    case Some(m) =>
      MatchesFromSound(ends, m.end);
      var rest := MatchesFrom(ends, m.end);
      var r := MatchesFrom(ends, from);
      assert r == [m.index] + rest;
      forall i, j | 0 <= i < j < |r|
        ensures r[i] < r[j]
      {
        if i > 0 {
          assert r[i] == rest[i - 1] && r[j] == rest[j - 1];
        } else {
          assert r[j] == rest[j - 1];
        }
      }
      forall i | 0 <= i < |r| - 1
        ensures ends[r[i]].value <= r[i + 1]
      {
        if i > 0 {
          assert r[i] == rest[i - 1] && r[i + 1] == rest[i];
        } else {
          assert r[1] == rest[0];
        }
      }
    case None =>
  }

  /** The passive-voice and adverb offsets are increasing positions of the
      text where the pattern matches, the matches do not overlap, and a text
      where the pattern matches nowhere gives none. */
  lemma MatchesSound(pat: Pattern, text: string)
    ensures var r := Matches(pat, text);
      StrictlyIncreasing(r)
      && (forall i :: 0 <= i < |r| ==> r[i] < |text| && MatchEnd(pat, text, r[i]).Some?)
      && (forall i :: 0 <= i < |r| - 1 ==> MatchEnd(pat, text, r[i]).value <= r[i + 1])
      && (r == [] <==> forall q :: 0 <= q <= |text| ==> MatchEnd(pat, text, q).None?)
  {
    var ends := MatchTable(pat, text);
    MatchTableValid(pat, text);
    MatchesFromSound(ends, 0);
    var r := Matches(pat, text);
    forall i | 0 <= i < |r|
      ensures r[i] < |text| && MatchEnd(pat, text, r[i]).Some?
    {
      assert ends[r[i]] == MatchEnd(pat, text, r[i]);
    }
    if r == [] {
      forall q | 0 <= q <= |text|
        ensures MatchEnd(pat, text, q).None?
      {
        assert ends[q] == MatchEnd(pat, text, q);
      }
    } else {
      assert ends[r[0]] == MatchEnd(pat, text, r[0]);
    }
  }

  // ---------------------------------------------------------------------
  // The whole analysis

  datatype Stats = Stats(words: nat, sentences: nat, paragraphs: nat, readingTime: nat)

  datatype Details = Details(
    longSentences: seq<nat>,
    complexWords: seq<nat>,
    passiveVoices: seq<nat>,
    adverbs: seq<nat>)

  /** The statistics of `analyzeText`: reading time is the fewest whole
      minutes, at least one, that cover the words at 200 a minute. */
  function StatsOf(text: string): (st: Stats)
    ensures st.words == |Words(text)| && st.sentences == |Sentences(text)| && st.paragraphs == |Paragraphs(text)|
    ensures st.readingTime >= 1 && st.words <= 200 * st.readingTime
    ensures st.readingTime == 1 || 200 * (st.readingTime - 1) < st.words
  {
    var words := |Words(text)|;
    Stats(words, |Sentences(text)|, |Paragraphs(text)|, ReadingTime(words))
  }

  /** The flagged positions of `analyzeText`: sentence and word indices within
      their lists, match offsets within the text. */
  function DetailsOf(text: string): (d: Details)
    ensures forall i :: 0 <= i < |d.longSentences| ==> d.longSentences[i] < |Sentences(text)|
    ensures forall i :: 0 <= i < |d.complexWords| ==> d.complexWords[i] < |Words(text)|
    ensures forall i :: 0 <= i < |d.passiveVoices| ==> d.passiveVoices[i] < |text|
    ensures forall i :: 0 <= i < |d.adverbs| ==> d.adverbs[i] < |text|
  {
    Details(
      LongUpTo(Sentences(text), |Sentences(text)|),
      ComplexUpTo(Words(text), |Words(text)|).flagged,
      Matches(Passive, text),
      Matches(Adverb, text))
  }

  /** What the analysis promises about its output. */
  lemma AnalysisBounds(text: string)
    ensures StatsOf(text).readingTime >= 1
    ensures var d := DetailsOf(text);
      StrictlyIncreasing(d.longSentences) && StrictlyIncreasing(d.complexWords)
      && StrictlyIncreasing(d.passiveVoices) && StrictlyIncreasing(d.adverbs)
      && (forall i :: 0 <= i < |d.longSentences| ==> d.longSentences[i] < StatsOf(text).sentences)
      && (forall i :: 0 <= i < |d.complexWords| ==> d.complexWords[i] < StatsOf(text).words)
      && (forall i :: 0 <= i < |d.passiveVoices| ==> d.passiveVoices[i] < |text|)
      && (forall i :: 0 <= i < |d.adverbs| ==> d.adverbs[i] < |text|)
  {
    LongUpToExact(Sentences(text), |Sentences(text)|);
    ComplexUpToSound(Words(text), |Words(text)|);
    MatchesSound(Passive, text);
    MatchesSound(Adverb, text);
  }

  /** `analyzeText`: the counts, then the loops that push the flagged positions. */
  method AnalyzeText(text: string) returns (stats: Stats, details: Details)
    ensures stats == StatsOf(text) && details == DetailsOf(text)
  {
    var words := Words(text);
    var sentences := Sentences(text);
    var paragraphs := Paragraphs(text);
    stats := Stats(|words|, |sentences|, |paragraphs|, ReadingTime(|words|));

    var longSentences := CollectLongSentences(sentences);
    var complexWords := CollectComplexWords(words);
    var passiveVoices := CollectMatches(Passive, text);
    var adverbs := CollectMatches(Adverb, text);
    details := Details(longSentences, complexWords, passiveVoices, adverbs);
  }

  /** The loop that pushes the index of every sentence of more than 15 words. */
  method CollectLongSentences(sentences: seq<string>) returns (longSentences: seq<nat>)
    ensures longSentences == LongUpTo(sentences, |sentences|)
  {
    longSentences := [];
    var index := 0;
    while index < |sentences|
      invariant index <= |sentences|
      invariant longSentences == LongUpTo(sentences, index)
    {
      if |Words(sentences[index])| > 15 {
        longSentences := longSentences + [index];
      }
      index := index + 1;
    }
  }

  lemma ComplexUpToNext(words: seq<string>, n: nat, t: TestResult)
    requires n < |words| && t == Test(words[n], ComplexUpTo(words, n).lastIndex)
    ensures ComplexUpTo(words, n + 1).lastIndex == t.lastIndex
    ensures ComplexUpTo(words, n + 1).flagged
      == if t.found then ComplexUpTo(words, n).flagged + [n] else ComplexUpTo(words, n).flagged
  {
  }

  /** The loop that tests every word with the one global regular expression. */
  method CollectComplexWords(words: seq<string>) returns (complexWords: seq<nat>)
    ensures complexWords == ComplexUpTo(words, |words|).flagged
  {
    complexWords := [];
    var lastIndex := 0;
    var index := 0;
    while index < |words|
      invariant index <= |words|
      invariant Scan(complexWords, lastIndex) == ComplexUpTo(words, index)
    {
      var t := Test(words[index], lastIndex);
      ComplexUpToNext(words, index, t);
      lastIndex := t.lastIndex;
      if t.found {
        complexWords := complexWords + [index];
      }
      index := index + 1;
    }
  }

  /** `while ((m = regex.exec(text)) !== null) found.push(m.index)` */
  method CollectMatches(pat: Pattern, text: string) returns (found: seq<nat>)
    ensures found == Matches(pat, text)
  {
    MatchTableValid(pat, text);
    found := ExecLoop(MatchTable(pat, text));
  }

  /** The `exec` loop over the matches a pattern has in the text. */
  method ExecLoop(ends: seq<Option<nat>>) returns (found: seq<nat>)
    requires ValidTable(ends) && 0 < |ends|
    ensures found == MatchesFrom(ends, 0)
  {
    found := [];
    var lastIndex := 0;
    var m := Exec(ends, lastIndex);
    while m.Some?
      invariant lastIndex < |ends|
      invariant m == Exec(ends, lastIndex)
      invariant found + MatchesFrom(ends, lastIndex) == MatchesFrom(ends, 0)
      decreases |ends| - lastIndex
    {
      found := found + [m.value.index];
      lastIndex := m.value.end;
      m := Exec(ends, lastIndex);
    }
  }
}
