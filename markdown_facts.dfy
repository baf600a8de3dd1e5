/** What the preview chain does to particular shapes of text: the general
    facts about a global replacement scan, and the consequences of the order
    in which src/components/MarkdownEditor.tsx applies its passes. */
module MarkdownFacts {
  import opened Text
  import opened Options
  import opened Markdown
  import Sequences

  /** No line terminator in `s`: `^` can only hold at its start. */
  predicate SingleLine(s: string) {
    forall k :: 0 <= k < |s| ==> !IsLineTerminator(s[k])
  }

  lemma SingleLineConcat(a: string, b: string)
    requires SingleLine(a) && SingleLine(b)
    ensures SingleLine(a + b)
  {
    forall k | 0 <= k < |a + b|
      ensures !IsLineTerminator((a + b)[k])
    {
      if k >= |a| {
        assert (a + b)[k] == b[k - |a|];
      }
    }
  }

  /** Offsets where a pass has no match are copied to the output unchanged. */
  lemma {:induction false} SkipNoMatch(t: seq<Option<Match>>, s: string, i: nat, j: nat)
    requires |t| == |s| && ValidMatches(t) && i <= j <= |s|
    requires forall k :: i <= k < j ==> t[k].None?
    ensures ReplaceFrom(t, s, i) == s[i..j] + ReplaceFrom(t, s, j)
    decreases j - i
  {
    if i < j {
      SkipNoMatch(t, s, i + 1, j);
      Sequences.ConsSlice(s, i, j, ReplaceFrom(t, s, j));
    }
  }

  /** A text whose only match runs from offset `j` to the end comes out as
      its first `j` characters followed by that match's replacement. */
  lemma TailMatch(p: Pass, s: string, j: nat, r: string)
    requires j < |s| && MatchAt(p, s, j) == Some(Match(|s|, r))
    requires forall k :: 0 <= k < j ==> MatchAt(p, s, k).None?
    ensures Apply(p, s) == s[..j] + r
  {
    var t := MatchTable(p, s);
    TailOfTable(t, s, j, r);
  }

  /** `TailMatch` for any table of matches. */
  lemma TailOfTable(t: seq<Option<Match>>, s: string, j: nat, r: string)
    requires |t| == |s| && ValidMatches(t) && j < |s|
    requires t[j] == Some(Match(|s|, r))
    requires forall k :: 0 <= k < j ==> t[k].None?
    ensures ReplaceFrom(t, s, 0) == s[..j] + r
  {
    SkipNoMatch(t, s, 0, j);
    assert ReplaceFrom(t, s, |s|) == "";
    assert s[0..j] == s[..j];
  }

  /** A text whose only match deletes `s[p..e]` comes out as the rest of it. */
  lemma OnlyDeletion(t: seq<Option<Match>>, s: string, p: nat, e: nat)
    requires |t| == |s| && ValidMatches(t) && p < e <= |s|
    requires t[p] == Some(Match(e, ""))
    requires forall k :: 0 <= k < p ==> t[k].None?
    requires forall k :: e <= k < |s| ==> t[k].None?
    ensures ReplaceFrom(t, s, 0) == s[..p] + s[e..]
  {
    SkipNoMatch(t, s, 0, p);
    SkipNoMatch(t, s, e, |s|);
    assert ReplaceFrom(t, s, p) == ReplaceFrom(t, s, e);
    assert ReplaceFrom(t, s, |s|) == "";
    assert s[0..p] == s[..p] && s[e..|s|] == s[e..];
  }

  /** A match that starts at the first offset and runs to the end is the whole output. */
  lemma WholeMatch(p: Pass, s: string, r: string)
    requires s != [] && MatchAt(p, s, 0) == Some(Match(|s|, r))
    ensures Apply(p, s) == r
  {
    var t := MatchTable(p, s);
    assert t[0] == Some(Match(|s|, r));
    assert ReplaceFrom(t, s, |s|) == "";
  }

  /** A pass that matches nowhere returns its input. */
  lemma NoMatchIdentity(p: Pass, s: string)
    requires forall k :: 0 <= k < |s| ==> MatchAt(p, s, k).None?
    ensures Apply(p, s) == s
  {
    var t := MatchTable(p, s);
    SkipNoMatch(t, s, 0, |s|);
    assert s[0..|s|] == s;
  }

  /** A pass anchored with `^` meets a one-line text only at its start: the
      output is that one replacement followed by the rest of the text. */
  lemma SingleLineAnchored(p: Pass, s: string)
    requires p.LineAnchored() && SingleLine(s) && s != []
    ensures MatchAt(p, s, 0).None? ==> Apply(p, s) == s
    ensures MatchAt(p, s, 0).Some? ==>
      Apply(p, s) == MatchAt(p, s, 0).value.replacement + s[MatchAt(p, s, 0).value.end..]
  {
    var t := MatchTable(p, s);
    forall k | 1 <= k < |s|
      ensures t[k].None?
    {
      assert !AtLineStart(s, k);
      if t[k].Some? {
        AnchoredAtLineStart(p, s, k);
      }
    }
    assert ReplaceFrom(t, s, |s|) == "";
    match t[0]
    case None =>
      SkipNoMatch(t, s, 0, |s|);
      assert s[0..|s|] == s;
    case Some(m) =>
      SkipNoMatch(t, s, m.end, |s|);
      assert s[m.end..|s|] == s[m.end..];
  }

  /** A character that every match of an unanchored pass contains. */
  function Required(p: Pass): char
    requires !p.LineAnchored()
  {
    match p
    case Bold | Italic => '*'
    case Link | ImageLink => '['
    case CodeBlock | InlineCode => '`'
    case _ => '<'
  }

  lemma MatchHasRequired(p: Pass, s: string, i: nat)
    requires !p.LineAnchored() && i < |s| && MatchAt(p, s, i).Some?
    ensures Required(p) in s
  {
    var lead := Lead(p);
    var k := if p.ImageLink? then 1 else 0;
    assert k < |lead| && lead[k] == Required(p);
    PrefixHasChar(s, i, lead, k);
  }

  /** A character of a text that occurs in `s` occurs in `s`. */
  lemma PrefixHasChar(s: string, i: nat, pat: string, k: nat)
    requires IsPrefixAt(s, i, pat) && k < |pat|
    ensures pat[k] in s
  {
    assert s[i + k] == s[i..i + |pat|][k];
  }

  /** Text without the character a pass needs goes through that pass untouched:
      no `*` means no emphasis, no `[` no link or image, no backquote no code. */
  lemma RequiredAbsentIdentity(p: Pass, s: string)
    requires !p.LineAnchored() && Required(p) !in s
    ensures Apply(p, s) == s
  {
    forall k | 0 <= k < |s|
      ensures MatchAt(p, s, k).None?
    {
      if MatchAt(p, s, k).Some? {
        MatchHasRequired(p, s, k);
      }
    }
    NoMatchIdentity(p, s);
  }

  /** A one-line text that does not start with `#` is left alone by every heading pass. */
  lemma HeadingSkipsLine(level: Level, t: string)
    requires SingleLine(t) && t != [] && t[0] != '#'
    ensures Apply(Heading(level), t) == t
  {
    assert MatchAt(Heading(level), t, 0).None?;
    SingleLineAnchored(Heading(level), t);
  }

  /** The heading pass of a level turns a line carrying its marker into that heading. */
  lemma HeadingOfLine(level: Level, x: string)
    requires SingleLine(x)
    ensures Apply(Heading(level), HeadingMarker(level) + x) == HeadingOpen(level) + x + HeadingClose(level)
  {
    var marker := HeadingMarker(level);
    var s := marker + x;
    assert SingleLine(s);
    assert IsPrefixAt(s, 0, marker);
    assert LineEnd(s, |marker|) == |s|;
    assert s[|marker|..|s|] == x;
    SingleLineAnchored(Heading(level), s);
  }

  /** A heading marker is not a longer marker: `## x` has a space where `###` needs a `#`. */
  lemma ShorterMarkerSkipped(level: Level, longer: Level, x: string)
    requires level < longer && SingleLine(x)
    ensures Apply(Heading(longer), HeadingMarker(level) + x) == HeadingMarker(level) + x
  {
    var s := HeadingMarker(level) + x;
    var marker := HeadingMarker(longer);
    assert SingleLine(s);
    assert s[|HeadingMarker(level)| - 1] == ' ' && marker[|HeadingMarker(level)| - 1] == '#';
    if |s| >= |marker| {
      assert s[..|marker|][|HeadingMarker(level)| - 1] != marker[|HeadingMarker(level)| - 1];
    }
    assert MatchAt(Heading(longer), s, 0).None?;
    SingleLineAnchored(Heading(longer), s);
  }

  /** A heading built from one line is one line, starting with `<`. */
  lemma HeadingMarkupLine(level: Level, x: string)
    requires SingleLine(x)
    ensures var h := HeadingOpen(level) + x + HeadingClose(level);
      SingleLine(h) && h[0] == '<'
  {
    HeadingTagsLine(level);
    SingleLineConcat(HeadingOpen(level), x);
    SingleLineConcat(HeadingOpen(level) + x, HeadingClose(level));
    assert (HeadingOpen(level) + x + HeadingClose(level))[0] == HeadingOpen(level)[0];
  }

  lemma HeadingTagsLine(level: Level)
    ensures SingleLine(HeadingOpen(level)) && SingleLine(HeadingClose(level))
    ensures HeadingOpen(level) != [] && HeadingOpen(level)[0] == '<'
  {
    if level == 1 {
      H1TagsLine();
    } else if level == 2 {
      H2TagsLine();
    } else {
      H3TagsLine();
    }
  }

  lemma H1TagsLine()
    ensures SingleLine(H1_OPEN) && SingleLine("</h1>")
  {
  }

  lemma H2TagsLine()
    ensures SingleLine(H2_OPEN) && SingleLine("</h2>")
  {
  }

  lemma H3TagsLine()
    ensures SingleLine(H3_OPEN) && SingleLine("</h3>")
  {
  }

  /** The three heading passes run `###`, `##`, `#` in that order; a line that
      starts with the marker of any level ends up as exactly that heading. */
  lemma HeadingLine(level: Level, x: string)
    requires SingleLine(x)
    ensures Apply(Heading(1), Apply(Heading(2), Apply(Heading(3), HeadingMarker(level) + x)))
            == HeadingOpen(level) + x + HeadingClose(level)
  {
    var s := HeadingMarker(level) + x;
    var h := HeadingOpen(level) + x + HeadingClose(level);
    HeadingMarkupLine(level, x);
    HeadingOfLine(level, x);
    var a3 := Apply(Heading(3), s);
    var a2 := Apply(Heading(2), a3);
    if level == 3 {
      HeadingSkipsLine(2, h);
      HeadingSkipsLine(1, h);
    } else if level == 2 {
      ShorterMarkerSkipped(2, 3, x);
      HeadingSkipsLine(1, h);
    } else {
      ShorterMarkerSkipped(1, 3, x);
      ShorterMarkerSkipped(1, 2, x);
    }
  }

  /** Four `#` are no heading: all three heading passes leave such a line alone. */
  lemma NoFourthLevel(x: string)
    requires SingleLine(x)
    ensures Apply(Heading(1), Apply(Heading(2), Apply(Heading(3), "#### " + x)))
            == "#### " + x
  {
    var s := "#### " + x;
    assert SingleLine("#### ");
    SingleLineConcat("#### ", x);
    forall level: Level
      ensures MatchAt(Heading(level), s, 0).None?
    {
      var marker := HeadingMarker(level);
      assert s[|marker| - 1] == '#' && marker[|marker| - 1] == ' ';
      assert s[..|marker|][|marker| - 1] != marker[|marker| - 1];
    }
    SingleLineAnchored(Heading(3), s);
    SingleLineAnchored(Heading(2), s);
    SingleLineAnchored(Heading(1), s);
  }

  /** The paragraph pass takes a non-empty one-line text as one match and hands
      all of it to the callback, lines of nothing but blanks included. */
  lemma ParagraphLine(x: string)
    requires x != [] && SingleLine(x)
    ensures Apply(Paragraph, x) == WrapParagraph(x)
  {
    var q := SpaceEnd(x, 0);
    if q < |x| {
      assert LineEnd(x, q) == |x|;
    } else {
      assert LastInLine(x, 0, |x|) == Some(|x| - 1);
      assert LineEnd(x, |x| - 1) == |x|;
    }
    assert ParagraphEnd(x, 0) == Some(|x|);
    assert x[0..|x|] == x;
    SingleLineAnchored(Paragraph, x);
  }

  /** The paragraph pass is not idempotent: run on its own output it wraps the
      paragraph a second time, since `<p` is not one of the prefixes it spares. */
  lemma ParagraphRewraps(x: string)
    requires x != [] && SingleLine(x) && !IsStructural(x)
    ensures Apply(Paragraph, x) == P_OPEN + x + P_CLOSE
    ensures Apply(Paragraph, Apply(Paragraph, x)) == P_OPEN + (P_OPEN + x + P_CLOSE) + P_CLOSE
  {
    ParagraphLine(x);
    WrappedLine(x);
    ParagraphLine(P_OPEN + x + P_CLOSE);
  }

  /** A wrapped paragraph is one line, and `<p>` is none of the prefixes the
      paragraph pass spares. */
  lemma WrappedLine(x: string)
    requires SingleLine(x)
    ensures var w := P_OPEN + x + P_CLOSE;
      w != [] && SingleLine(w) && !IsStructural(w)
  {
    var w := P_OPEN + x + P_CLOSE;
    assert SingleLine(P_OPEN) && SingleLine(P_CLOSE);
    SingleLineConcat(P_OPEN, x);
    SingleLineConcat(P_OPEN + x, P_CLOSE);
    assert w[1] == 'p';
    assert !IsPrefixAt(w, 0, "<h") by { assert w[0..2][1] != "<h"[1]; }
    assert !IsPrefixAt(w, 0, "<li") by { assert w[0..3][1] != "<li"[1]; }
    assert !IsPrefixAt(w, 0, "<pre") by { assert w[0..4][1] == 'p'; assert w[0..4][2] != "<pre"[2]; }
    assert !IsPrefixAt(w, 0, "<hr") by { assert w[0..3][1] != "<hr"[1]; }
  }

  /** A text whose first line is one match and whose rest, after that line's
      end, is another comes out as the two replacements around the line end. */
  lemma LineThenTail(p: Pass, s: string, j: nat, r1: string, r2: string)
    requires 0 < j && j + 1 < |s|
    requires MatchAt(p, s, 0) == Some(Match(j, r1)) && MatchAt(p, s, j).None?
    requires MatchAt(p, s, j + 1) == Some(Match(|s|, r2))
    ensures Apply(p, s) == r1 + [s[j]] + r2
  {
    var t := MatchTable(p, s);
    TwoMatchesOfTable(t, s, j, r1, r2);
  }

  /** The scan over a table holding a match at the start up to `j` and a match
      from `j + 1` to the end. */
  lemma TwoMatchesOfTable(t: seq<Option<Match>>, s: string, j: nat, r1: string, r2: string)
    requires |t| == |s| && ValidMatches(t) && 0 < j && j + 1 < |s|
    requires t[0] == Some(Match(j, r1)) && t[j].None? && t[j + 1] == Some(Match(|s|, r2))
    ensures ReplaceFrom(t, s, 0) == r1 + [s[j]] + r2
  {
    assert ReplaceFrom(t, s, |s|) == "";
    assert ReplaceFrom(t, s, j + 1) == r2;
    assert ReplaceFrom(t, s, j) == [s[j]] + r2;
    assert ReplaceFrom(t, s, 0) == r1 + ([s[j]] + r2);
  }

  /** A blank-free start is not one of the prefixes the paragraph pass spares. */
  lemma BlankStartNotStructural(s: string)
    requires s != [] && IsSpace(s[0])
    ensures !IsStructural(s)
  {
    forall pat: string | pat != [] && pat[0] == '<'
      ensures !IsPrefixAt(s, 0, pat)
    {
      if |pat| <= |s| {
        assert s[0..|pat|][0] == s[0] != pat[0];
      }
    }
  }

  /** Where `^\s*(.+)$` ends when it starts at `i` in front of the blanks `w`
      and the one-line text `y` that begins with a non-blank. */
  lemma BlanksThenLineEnd(s: string, i: nat, w: string, y: string)
    requires IsBlank(w) && y != [] && SingleLine(y) && !IsSpace(y[0])
    requires i + |w| + |y| == |s| && s[i..] == w + y
    ensures ParagraphEnd(s, i) == Some(|s|)
  {
    assert forall k :: i <= k < i + |w| ==> s[k] == s[i..][k - i] == w[k - i];
    assert forall k :: i + |w| <= k < |s| ==> s[k] == s[i..][k - i] == y[k - i - |w|];
    SpaceEndIs(s, i, i + |w|);
    assert LineEnd(s, i + |w|) == |s|;
  }

  /** Blank lines in front of a line of text are no paragraph of their own:
      `\s*` runs over their line ends, and the callback gets them together with
      the text. */
  lemma BlankLinesJoinNext(w: string, y: string, s: string)
    requires w != [] && IsBlank(w) && y != [] && SingleLine(y) && !IsSpace(y[0])
    requires s == w + y
    ensures Apply(Paragraph, s) == P_OPEN + w + y + P_CLOSE
  {
    BlanksThenLineEnd(s, 0, w, y);
    BlankStartNotStructural(s);
    assert s[0..|s|] == s;
    WholeMatch(Paragraph, s, P_OPEN + s + P_CLOSE);
  }

  /** The first line of a longer text, when it starts with a non-blank, is one
      paragraph match, and its line end starts none. */
  lemma FirstLineMatch(x: string, s: string)
    requires x != [] && SingleLine(x) && !IsSpace(x[0])
    requires |x| < |s| && s[..|x|] == x && s[|x|] == '\n'
    ensures MatchAt(Paragraph, s, 0) == Some(Match(|x|, WrapParagraph(x)))
    ensures MatchAt(Paragraph, s, |x|).None?
  {
    var j := |x|;
    assert forall k :: 0 <= k < j ==> s[k] == s[..j][k] == x[k];
    SpaceEndIs(s, 0, 0);
    assert LineEnd(s, 0) == j;
    assert s[0..j] == x;
    assert !AtLineStart(s, j);
  }

  /** A paragraph match that starts after a line end, in front of blanks and a
      last line that starts with a non-blank, runs to the end of the text. */
  lemma BlanksThenLineMatch(s: string, i: nat, w: string, y: string)
    requires w != [] && IsBlank(w) && y != [] && SingleLine(y) && !IsSpace(y[0])
    requires 0 < i && i + |w| + |y| == |s| && s[i - 1] == '\n' && s[i..] == w + y
    ensures MatchAt(Paragraph, s, i) == Some(Match(|s|, P_OPEN + w + y + P_CLOSE))
  {
    BlanksThenLineEnd(s, i, w, y);
    assert AtLineStart(s, i);
    assert s[i..|s|] == w + y;
    assert (w + y)[0] == w[0];
    BlankStartNotStructural(w + y);
    assert ParagraphAt(s, i) == Some(Match(|s|, WrapParagraph(w + y)));
    assert P_OPEN + (w + y) + P_CLOSE == P_OPEN + w + y + P_CLOSE;
  }

  /** A paragraph match that starts after a line end, in front of nothing but
      blanks the last of which ends no line, runs to the end of the text. */
  lemma TrailingBlanksMatch(s: string, i: nat, w: string)
    requires w != [] && IsBlank(w) && !IsLineTerminator(w[|w| - 1])
    requires 0 < i && i + |w| == |s| && s[i - 1] == '\n' && s[i..] == w
    ensures MatchAt(Paragraph, s, i) == Some(Match(|s|, P_OPEN + w + P_CLOSE))
  {
    assert forall k :: i <= k < |s| ==> s[k] == s[i..][k - i] == w[k - i];
    SpaceEndIs(s, i, |s|);
    assert LastInLine(s, i, |s|) == Some(|s| - 1);
    assert LineEnd(s, |s| - 1) == |s|;
    assert ParagraphEnd(s, i) == Some(|s|);
    assert s[i..|s|] == w;
    BlankStartNotStructural(w);
  }

  /** After a line of text, blank lines and the line that follows them make one
      paragraph, so the blank lines never separate two paragraphs. */
  lemma BlankLinesAfterText(x: string, w: string, y: string, s: string)
    requires x != [] && SingleLine(x) && !IsSpace(x[0])
    requires w != [] && IsBlank(w) && y != [] && SingleLine(y) && !IsSpace(y[0])
    requires s == x + "\n" + w + y
    ensures Apply(Paragraph, s) == WrapParagraph(x) + "\n" + P_OPEN + w + y + P_CLOSE
  {
    var j := |x|;
    assert s[..j] == x && s[j] == '\n' && s[j + 1..] == w + y;
    FirstLineMatch(x, s);
    BlanksThenLineMatch(s, j + 1, w, y);
    LineThenTail(Paragraph, s, j, WrapParagraph(x), P_OPEN + w + y + P_CLOSE);
  }

  /** Blank lines at the end of the text, after a line of text, become one
      paragraph of their own: `.+` takes back the last blank. */
  lemma TrailingBlankLines(x: string, w: string, s: string)
    requires x != [] && SingleLine(x) && !IsSpace(x[0])
    requires w != [] && IsBlank(w) && !IsLineTerminator(w[|w| - 1])
    requires s == x + "\n" + w
    ensures Apply(Paragraph, s) == WrapParagraph(x) + "\n" + P_OPEN + w + P_CLOSE
  {
    var j := |x|;
    assert s[..j] == x && s[j] == '\n' && s[j + 1..] == w;
    FirstLineMatch(x, s);
    TrailingBlanksMatch(s, j + 1, w);
    LineThenTail(Paragraph, s, j, WrapParagraph(x), P_OPEN + w + P_CLOSE);
  }

  /** Two lines of text with a blank line between them: the blank line opens
      the second paragraph. */
  lemma BlankLineBetweenLines()
    ensures Apply(Paragraph, "a\n  \nb") == P_OPEN + "a" + P_CLOSE + "\n" + P_OPEN + "  \nb" + P_CLOSE
  {
    BlankLinesAfterText("a", "  \n", "b", "a\n  \nb");
    assert WrapParagraph("a") == P_OPEN + "a" + P_CLOSE by { assert !IsStructural("a"); }
  }

  /** `![a](u)` in the text: the `]` and `)` that close it. */
  lemma ImageSyntaxParts(a: string, u: string)
    requires a != [] && u != [] && ']' !in a && ')' !in u
    ensures var s := "![" + a + "](" + u + ")";
      LinkAt(s, 1) == Some(LinkParts(2 + |a|, |s| - 1))
  {
    var s := "![" + a + "](" + u + ")";
    ImageShape(a, u);
    CharIndexIs(s, 2, 2 + |a|, ']');
    CharIndexIs(s, 4 + |a|, |s| - 1, ')');
  }

  /** Where the label, the brackets and the url sit in `![a](u)`. */
  lemma ImageShape(a: string, u: string)
    ensures var s := "![" + a + "](" + u + ")";
      |s| == 5 + |a| + |u| && s[1] == '[' && s[2..2 + |a|] == a && s[2 + |a|] == ']' &&
      s[3 + |a|] == '(' && s[4 + |a|..|s| - 1] == u && s[|s| - 1] == ')'
  {
  }

  lemma LinkDispatch(x: string, i: nat)
    requires i < |x|
    ensures MatchAt(Link, x, i) == LinkMatchAt(x, i)
    ensures MatchAt(ImageLink, x, i) == ImageMatchAt(x, i)
  {
  }

  /** The image pass on its own turns `![a](u)` into an image. */
  lemma ImageAlone(a: string, u: string)
    requires a != [] && u != [] && ']' !in a && ')' !in u
    ensures Apply(ImageLink, "![" + a + "](" + u + ")") == Image(a, u)
  {
    var s := "![" + a + "](" + u + ")";
    ImageSyntaxParts(a, u);
    ImageShape(a, u);
    LinkDispatch(s, 0);
    assert ImageMatchAt(s, 0) == Some(Match(|s|, Image(a, u)));
    WholeMatch(ImageLink, s, Image(a, u));
  }

  /** The link pass turns the `[a](u)` inside `![a](u)` into a link. */
  lemma LinkInsideImage(a: string, u: string)
    requires a != [] && u != [] && ']' !in a && ')' !in u
    ensures Apply(Link, "![" + a + "](" + u + ")") == "!" + Anchor(a, u)
  {
    var s := "![" + a + "](" + u + ")";
    ImageSyntaxParts(a, u);
    ImageShape(a, u);
    LinkDispatch(s, 0);
    LinkDispatch(s, 1);
    assert LinkMatchAt(s, 0).None?;
    assert LinkMatchAt(s, 1) == Some(Match(|s|, Anchor(a, u)));
    TailMatch(Link, s, 1, Anchor(a, u));
    assert s[..1] == "!";
  }

  /** The link pass runs before the image pass and its pattern matches the
      `[a](u)` inside `![a](u)`: an image in the text comes out as `!` followed
      by a link, although the image pass alone would have made it an image. */
  lemma LinkShadowsImage(a: string, u: string)
    requires a != [] && u != [] && ']' !in a && ')' !in u && '[' !in a && '[' !in u
    ensures Apply(ImageLink, "![" + a + "](" + u + ")") == Image(a, u)
    ensures Apply(ImageLink, Apply(Link, "![" + a + "](" + u + ")")) == "!" + Anchor(a, u)
  {
    ImageAlone(a, u);
    LinkInsideImage(a, u);
    NoBracketInAnchor(a, u);
    RequiredAbsentIdentity(ImageLink, "!" + Anchor(a, u));
  }

  lemma NoBracketInAnchor(a: string, u: string)
    requires '[' !in a && '[' !in u
    ensures '[' !in "!" + Anchor(a, u)
  {
    var head := "<a href=\"";
    var mid := "\" class=\"text-blue-600 hover:underline\">";
    var tail := "</a>";
    assert Anchor(a, u) == head + u + mid + a + tail;
    assert '[' !in head && '[' !in mid && '[' !in tail && '[' !in "!";
  }

  /** A bullet item built from one line is one line, starting with `<`. */
  lemma BulletItemLine(y: string)
    requires SingleLine(y)
    ensures SingleLine(BulletItem(y)) && BulletItem(y)[0] == '<'
  {
    assert SingleLine(BULLET_ITEM_OPEN) && SingleLine(ITEM_CLOSE);
    SingleLineConcat(BULLET_ITEM_OPEN, y);
    SingleLineConcat(BULLET_ITEM_OPEN + y, ITEM_CLOSE);
  }

  /** The horizontal-rule pass leaves a one-line bullet item alone. */
  lemma RuleSkipsItem(y: string)
    requires SingleLine(y)
    ensures Apply(Rule, BulletItem(y)) == BulletItem(y)
  {
    var item := BulletItem(y);
    BulletItemLine(y);
    SpaceEndIs(item, 0, 0);
    assert !IsPrefixAt(item, 0, "---");
    assert MatchAt(Rule, item, 0).None?;
    SingleLineAnchored(Rule, item);
  }

  /** A one-line text made of blanks, `-`, blanks and an item that does not
      start with a blank. */
  predicate DashLine(w: string, v: string, y: string) {
    IsBlank(w) && IsBlank(v) && SingleLine(w + "-" + v + y) && (y == [] || !IsSpace(y[0]))
  }

  /** The match of the bullet pass on such a line: all of it, the item inside. */
  lemma BulletMatchOfLine(w: string, v: string, y: string)
    requires DashLine(w, v, y)
    ensures var x := w + "-" + v + y;
      BulletLineAt(x, 0) == Some(Match(|x|, BulletItem(y)))
  {
    var x := w + "-" + v + y;
    SpaceEndIs(x, 0, |w|);
    var r := |w| + 1 + |v|;
    if y != [] {
      assert x[r] == y[0];
    }
    SpaceEndIs(x, |w| + 1, r);
    assert LineEnd(x, r) == |x|;
    assert x[r..|x|] == y;
  }

  lemma BulletLineMatch(x: string)
    requires x != []
    ensures MatchAt(BulletLine, x, 0) == BulletLineAt(x, 0)
  {
  }

  /** A line whose first non-blank character is `-` becomes a bullet item, and
      the horizontal-rule pass, which comes later, leaves that item alone. */
  lemma DashLineIsItem(w: string, v: string, y: string)
    requires DashLine(w, v, y)
    ensures Apply(BulletLine, w + "-" + v + y) == BulletItem(y)
    ensures Apply(Rule, BulletItem(y)) == BulletItem(y)
  {
    var x := w + "-" + v + y;
    BulletMatchOfLine(w, v, y);
    BulletLineMatch(x);
    WholeMatch(BulletLine, x, BulletItem(y));
    assert SingleLine(y) by {
      forall k | 0 <= k < |y|
        ensures !IsLineTerminator(y[k])
      {
        assert y[k] == x[|w| + 1 + |v| + k];
      }
    }
    RuleSkipsItem(y);
  }

  /** A `---` line between blanks is a horizontal rule for the rule pass, but the
      bullet pass runs first and turns it into an item holding `--`. */
  lemma RuleShadowedByList(w1: string, w2: string)
    requires IsBlank(w1) && IsBlank(w2) && SingleLine(w1) && SingleLine(w2)
    ensures Apply(Rule, w1 + "---" + w2) == HR
    ensures Apply(Rule, Apply(BulletLine, w1 + "---" + w2)) == BulletItem("--" + w2)
  {
    RuleOfDashLine(w1, w2);
    assert w1 + "---" + w2 == w1 + "-" + "" + ("--" + w2);
    assert IsBlank("");
    DashLineIsItem(w1, "", "--" + w2);
  }

  /** A `---` line between blanks, on its own, is a horizontal rule. */
  lemma RuleOfDashLine(w1: string, w2: string)
    requires IsBlank(w1) && IsBlank(w2) && SingleLine(w1) && SingleLine(w2)
    ensures Apply(Rule, w1 + "---" + w2) == HR
  {
    var s := w1 + "---" + w2;
    assert SingleLine("---");
    SingleLineConcat(w1, "---");
    SingleLineConcat(w1 + "---", w2);
    RuleMatchOfLine(w1, w2);
    RuleMatch(s);
    WholeMatch(Rule, s, HR);
  }

  lemma RuleMatch(x: string)
    requires x != []
    ensures MatchAt(Rule, x, 0) == RuleAt(x, 0)
  {
  }

  lemma RuleMatchOfLine(w1: string, w2: string)
    requires IsBlank(w1) && IsBlank(w2) && SingleLine(w1 + "---" + w2)
    ensures RuleAt(w1 + "---" + w2, 0) == Some(Match(|w1 + "---" + w2|, HR))
  {
    var s := w1 + "---" + w2;
    SpaceEndIs(s, 0, |w1|);
    OccursAfter(w1, "---", w2, "---");
    SpaceEndIs(s, |w1| + 3, |s|);
    assert LastLineEnd(s, |w1| + 3, |s|) == Some(|s|);
  }

  /** `<\/ul>\s*<ul[^>]*>` matches a closing tag, blanks and a whole opening tag
      that starts with `openStart` and holds no other `>`, whatever text comes
      before and after them. */
  lemma MergeOfJoin(s: string, x: string, close: string, w: string, open: string, openStart: string, y: string)
    requires s == x + close + w + open + y
    requires IsBlank(w) && close != [] && |openStart| < |open|
    requires IsPrefixAt(open, 0, openStart) && !IsSpace(open[0])
    requires open[|open| - 1] == '>' && '>' !in open[|openStart|..|open| - 1]
    ensures MergeAt(s, |x|, close, openStart) == Some(Match(|x| + |close| + |w| + |open|, ""))
  {
    var q := |x| + |close| + |w|;
    JoinPositions(x, close, w, open, openStart, y);
    MergeAtPositions(s, |x|, close, openStart, q, q + |open| - 1);
  }

  /** `MergeOfJoin` with nothing before the closing tag or after the opening one. */
  lemma MergeOfBareJoin(close: string, w: string, open: string, openStart: string)
    requires IsBlank(w) && close != [] && |openStart| < |open|
    requires IsPrefixAt(open, 0, openStart) && !IsSpace(open[0])
    requires open[|open| - 1] == '>' && '>' !in open[|openStart|..|open| - 1]
    ensures MergeAt(close + w + open, 0, close, openStart) == Some(Match(|close + w + open|, ""))
  {
    assert "" + close + w + open + "" == close + w + open;
    MergeOfJoin(close + w + open, "", close, w, open, openStart, "");
  }

  /** The facts `MergeAtPositions` needs, read off `x + close + w + open + y`. */
  lemma JoinPositions(x: string, close: string, w: string, open: string, openStart: string, y: string)
    requires IsBlank(w) && |openStart| < |open|
    requires IsPrefixAt(open, 0, openStart) && !IsSpace(open[0])
    requires open[|open| - 1] == '>' && '>' !in open[|openStart|..|open| - 1]
    ensures var s := x + close + w + open + y;
      var c := |x| + |close|;
      var q := c + |w|;
      q < |s| && IsPrefixAt(s, |x|, close)
      && (forall k :: c <= k < q ==> IsSpace(s[k]))
      && !IsSpace(s[q]) && IsPrefixAt(s, q, openStart)
      && q + |open| - 1 < |s| && s[q + |open| - 1] == '>'
      && '>' !in s[q + |openStart|..q + |open| - 1]
  {
    var s := x + close + w + open + y;
    JoinBlank(x, close, w, open, y);
    OccursAfter(x + close + w, open, y, open);
    OpenTagAt(s, |x| + |close| + |w|, open, openStart);
  }

  /** The closing tag and the blanks of `x + close + w + open + y`. */
  lemma JoinBlank(x: string, close: string, w: string, open: string, y: string)
    requires IsBlank(w)
    ensures var s := x + close + w + open + y;
      var c := |x| + |close|;
      |s| == c + |w| + |open| + |y| && IsPrefixAt(s, |x|, close)
      && forall k :: c <= k < c + |w| ==> IsSpace(s[k])
  {
    var s := x + close + w + open + y;
    var c := |x| + |close|;
    JoinShape(x, close, w, open, y);
    forall k | c <= k < c + |w|
      ensures IsSpace(s[k])
    {
      assert s[c + (k - c)] == w[k - c];
    }
  }

  /** An opening tag at `q` of `s`: what the merging pattern looks for in it. */
  lemma OpenTagAt(s: string, q: nat, open: string, openStart: string)
    requires IsPrefixAt(s, q, open) && |openStart| < |open|
    requires IsPrefixAt(open, 0, openStart) && !IsSpace(open[0])
    requires open[|open| - 1] == '>' && '>' !in open[|openStart|..|open| - 1]
    ensures !IsSpace(s[q]) && IsPrefixAt(s, q, openStart)
    ensures s[q + |open| - 1] == '>' && '>' !in s[q + |openStart|..q + |open| - 1]
  {
    var tag := s[q..q + |open|];
    assert tag == open;
    assert tag[0] == s[q];
    assert tag[|open| - 1] == s[q + |open| - 1];
    SliceOfSlice(s, q, q + |open|, 0, |openStart|);
    SliceOfSlice(s, q, q + |open|, |openStart|, |open| - 1);
  }

  /** The merge pattern read off positions: a closing tag at `i`, blanks up to
      `q`, `openStart` at `q` and the first `>` after it at `g`. */
  lemma MergeAtPositions(s: string, i: nat, close: string, openStart: string, q: nat, g: nat)
    requires i + |close| <= q < |s| && IsPrefixAt(s, i, close)
    requires forall k :: i + |close| <= k < q ==> IsSpace(s[k])
    requires !IsSpace(s[q]) && IsPrefixAt(s, q, openStart)
    requires q + |openStart| <= g < |s| && s[g] == '>' && '>' !in s[q + |openStart|..g]
    ensures MergeAt(s, i, close, openStart) == Some(Match(g + 1, ""))
  {
    SpaceEndIs(s, i + |close|, q);
    CharIndexIs(s, q + |openStart|, g, '>');
  }

  /** Where the closing tag, the blanks and the opening tag sit in `x + close + w + open + y`. */
  lemma JoinShape(x: string, close: string, w: string, open: string, y: string)
    ensures var s := x + close + w + open + y;
      |s| == |x| + |close| + |w| + |open| + |y|
      && IsPrefixAt(s, |x|, close)
      && (forall k :: 0 <= k < |w| ==> s[|x| + |close| + k] == w[k])
      && (forall k :: 0 <= k < |open| ==> s[|x| + |close| + |w| + k] == open[k])
  {
    var s := x + close + w + open + y;
    assert s[|x|..|x| + |close|] == close;
  }

  lemma ListOpenShapes()
    ensures IsPrefixAt(UL_OPEN, 0, "<ul") && '>' !in UL_OPEN[3..|UL_OPEN| - 1] && UL_OPEN[|UL_OPEN| - 1] == '>'
    ensures IsPrefixAt(OL_OPEN, 0, "<ol") && '>' !in OL_OPEN[3..|OL_OPEN| - 1] && OL_OPEN[|OL_OPEN| - 1] == '>'
  {
    BulletTagShapes();
    NumberedTagShapes();
    AbsentFromSlice(UL_OPEN, 3, |UL_OPEN| - 1, '>');
    AbsentFromSlice(OL_OPEN, 3, |OL_OPEN| - 1, '>');
  }

  lemma MergeMatch(x: string, i: nat)
    requires i < |x|
    ensures MatchAt(MergeBullets, x, i) == MergeAt(x, i, UL_CLOSE, "<ul")
    ensures MatchAt(MergeNumbered, x, i) == MergeAt(x, i, OL_CLOSE, "<ol")
  {
  }

  lemma MergeBulletsAdjacent(w: string)
    requires IsBlank(w)
    ensures Apply(MergeBullets, UL_CLOSE + w + UL_OPEN) == ""
  {
    var s := UL_CLOSE + w + UL_OPEN;
    ListOpenShapes();
    MergeOfBareJoin(UL_CLOSE, w, UL_OPEN, "<ul");
    MergeMatch(s, 0);
    WholeMatch(MergeBullets, s, "");
  }

  lemma MergeNumberedAdjacent(w: string)
    requires IsBlank(w)
    ensures Apply(MergeNumbered, OL_CLOSE + w + OL_OPEN) == ""
  {
    var s := OL_CLOSE + w + OL_OPEN;
    ListOpenShapes();
    MergeOfBareJoin(OL_CLOSE, w, OL_OPEN, "<ol");
    MergeMatch(s, 0);
    WholeMatch(MergeNumbered, s, "");
  }

  /** A closing list tag, blank text and an opening tag of the same kind are
      deleted together, which is how two neighbouring lists become one. */
  lemma MergeAdjacent(w: string)
    requires IsBlank(w)
    ensures Apply(MergeBullets, UL_CLOSE + w + UL_OPEN) == ""
    ensures Apply(MergeNumbered, OL_CLOSE + w + OL_OPEN) == ""
  {
    MergeBulletsAdjacent(w);
    MergeNumberedAdjacent(w);
  }

  /** The bullet-list tags seen character by character: `<` opens each of
      them and appears nowhere else in them, and their second characters differ. */
  lemma BulletTagShapes()
    ensures UL_OPEN[0] == '<' && forall d :: 1 <= d < |UL_OPEN| ==> UL_OPEN[d] != '<'
    ensures UL_CLOSE[0] == '<' && forall d :: 1 <= d < |UL_CLOSE| ==> UL_CLOSE[d] != '<'
    ensures UL_OPEN[1] != UL_CLOSE[1]
    ensures UL_OPEN[..3] == "<ul" && UL_OPEN[|UL_OPEN| - 1] == '>'
    ensures forall d :: 3 <= d < |UL_OPEN| - 1 ==> UL_OPEN[d] != '>'
  {
  }

  /** The same for the numbered-list tags. */
  lemma NumberedTagShapes()
    ensures OL_OPEN[0] == '<' && forall d :: 1 <= d < |OL_OPEN| ==> OL_OPEN[d] != '<'
    ensures OL_CLOSE[0] == '<' && forall d :: 1 <= d < |OL_CLOSE| ==> OL_CLOSE[d] != '<'
    ensures OL_OPEN[1] != OL_CLOSE[1]
    ensures OL_OPEN[..3] == "<ol" && OL_OPEN[|OL_OPEN| - 1] == '>'
    ensures forall d :: 3 <= d < |OL_OPEN| - 1 ==> OL_OPEN[d] != '>'
  {
  }

  /** No closing tag starts inside an opening tag at the front of `s`: the
      only `<` of the opening tag is followed by the wrong character. */
  lemma NoCloseInOpen(s: string, open: string, close: string)
    requires IsPrefixAt(s, 0, open) && |open| >= 2 && |close| >= 2
    requires (forall d :: 1 <= d < |open| ==> open[d] != '<') && close[0] == '<' && open[1] != close[1]
    ensures forall k :: 0 <= k < |open| ==> !IsPrefixAt(s, k, close)
  {
    forall k | 0 <= k < |open|
      ensures !IsPrefixAt(s, k, close)
    {
      if k + |close| <= |s| {
        if k == 0 {
          assert s[k..k + |close|][1] == open[1];
        } else {
          assert s[k..k + |close|][0] == open[k];
        }
      }
    }
  }

  /** No closing tag starts in `s[lo..hi]` when that stretch does not contain
      one and `s[hi]` is a `<`, which a closing tag has only at its start. */
  lemma NoCloseBefore(s: string, lo: nat, hi: nat, close: string)
    requires lo <= hi < |s| && s[hi] == '<' && forall d :: 1 <= d < |close| ==> close[d] != '<'
    requires !Contains(s[lo..hi], close)
    ensures forall k :: lo <= k < hi ==> !IsPrefixAt(s, k, close)
  {
    forall k | lo <= k < hi
      ensures !IsPrefixAt(s, k, close)
    {
      if k + |close| <= hi {
        PrefixInSlice(s, lo, hi, k, close);
        assert !IsPrefixAt(s[lo..hi], k - lo, close);
      } else if k + |close| <= |s| {
        assert s[k..k + |close|][hi - k] == '<';
      }
    }
  }

  /** Where the pieces of `open + a + close + w + open + b + close` sit:
      the first list's items end at `p`, the second list's begin at `e`. */
  lemma NeighbourShape(s: string, open: string, a: string, close: string, w: string, b: string, p: nat, e: nat)
    requires s == open + a + close + w + open + b + close && close != []
    requires p == |open| + |a| && e == p + |close| + |w| + |open|
    ensures |s| == e + |b| + |close| && IsPrefixAt(s, 0, open)
    ensures s[|open|..p] == a && s[p] == close[0]
    ensures s[e..e + |b|] == b && s[e + |b|] == close[0] && IsPrefixAt(s, e + |b|, close)
    ensures s[..p] + s[e..] == open + a + b + close
    ensures s == (open + a) + close + w + open + (b + close)
  {
    assert s == (open + a) + close + (w + open) + b + close;
    assert s[..|open|] == open;
    assert s[p + 0] == close[0];
    assert s[e + |b| + 0] == close[0];
    assert s[e + |b|..] == close;
    assert s[..p] == open + a && s[e..] == b + close;
  }

  /** The merging scan over two lists with blank text between them, given
      the table of its matches: only the junction between them matches, so
      the two item runs are joined under the first opening tag and the last
      closing tag. */
  lemma MergeInText(t: seq<Option<Match>>, s: string, open: string, a: string, close: string,
                    w: string, b: string, openStart: string)
    requires s == open + a + close + w + open + b + close
    requires |t| == |s| && ValidMatches(t)
    requires forall k :: 0 <= k < |s| ==> t[k] == MergeAt(s, k, close, openStart)
    requires IsBlank(w) && !Contains(a, close) && !Contains(b, close)
    requires |open| >= 2 && |close| >= 2 && open[0] == '<' && close[0] == '<'
    requires forall d :: 1 <= d < |open| ==> open[d] != '<'
    requires forall d :: 1 <= d < |close| ==> close[d] != '<'
    requires open[1] != close[1]
    requires 0 < |openStart| < |open| && IsPrefixAt(open, 0, openStart)
    requires open[|open| - 1] == '>' && '>' !in open[|openStart|..|open| - 1]
    ensures ReplaceFrom(t, s, 0) == open + a + b + close
  {
    var p := |open| + |a|;
    var e := p + |close| + |w| + |open|;
    NeighbourShape(s, open, a, close, w, b, p, e);
    NoMergeBefore(s, open, p, close, openStart);
    NoMergeAfter(s, e, close, openStart);
    JunctionMerges(s, open, a, close, w, b, openStart, p, e);
    OnlyDeletion(t, s, p, e);
  }

  /** The junction at `p` between the two lists is one merge match, up to
      the end `e` of the second opening tag. */
  lemma JunctionMerges(s: string, open: string, a: string, close: string, w: string, b: string,
                       openStart: string, p: nat, e: nat)
    requires s == (open + a) + close + w + open + (b + close)
    requires p == |open| + |a| && e == p + |close| + |w| + |open|
    requires IsBlank(w) && close != [] && |openStart| < |open|
    requires IsPrefixAt(open, 0, openStart) && !IsSpace(open[0])
    requires open[|open| - 1] == '>' && '>' !in open[|openStart|..|open| - 1]
    ensures MergeAt(s, p, close, openStart) == Some(Match(e, ""))
  {
    assert |open + a| == p;
    MergeOfJoin(s, open + a, close, w, open, openStart, b + close);
  }

  /** Nothing merges inside a leading opening tag or in the text after it up
      to the next `<`, when that text holds no closing tag. */
  lemma NoMergeBefore(s: string, open: string, p: nat, close: string, openStart: string)
    requires IsPrefixAt(s, 0, open) && |open| <= p < |s| && s[p] == '<'
    requires !Contains(s[|open|..p], close)
    requires |open| >= 2 && |close| >= 2 && close[0] == '<'
    requires forall d :: 1 <= d < |open| ==> open[d] != '<'
    requires forall d :: 1 <= d < |close| ==> close[d] != '<'
    requires open[1] != close[1]
    ensures forall k :: 0 <= k < p ==> MergeAt(s, k, close, openStart).None?
  {
    NoCloseInOpen(s, open, close);
    NoCloseBefore(s, |open|, p, close);
  }

  /** Nothing merges from `e` on when the text ends with the only closing
      tag there: after that tag no opening tag can follow. */
  lemma NoMergeAfter(s: string, e: nat, close: string, openStart: string)
    requires e + |close| <= |s| && IsPrefixAt(s, |s| - |close|, close)
    requires !Contains(s[e..|s| - |close|], close)
    requires close != [] && close[0] == '<' && openStart != []
    requires forall d :: 1 <= d < |close| ==> close[d] != '<'
    ensures forall k :: e <= k < |s| ==> MergeAt(s, k, close, openStart).None?
  {
    var q := |s| - |close|;
    assert s[q..|s|][0] == s[q];
    NoCloseBefore(s, e, q, close);
    assert SpaceEnd(s, |s|) == |s|;
    assert MergeAt(s, q, close, openStart).None?;
  }

  /** Two bullet lists with blank text between them become one list, as
      long as neither holds a closing tag of its own. */
  lemma MergeBulletsInText(a: string, w: string, b: string)
    requires IsBlank(w) && !Contains(a, UL_CLOSE) && !Contains(b, UL_CLOSE)
    ensures Apply(MergeBullets, UL_OPEN + a + UL_CLOSE + w + UL_OPEN + b + UL_CLOSE)
         == UL_OPEN + a + b + UL_CLOSE
  {
    var s := UL_OPEN + a + UL_CLOSE + w + UL_OPEN + b + UL_CLOSE;
    var t := MatchTable(MergeBullets, s);
    forall k | 0 <= k < |s|
      ensures t[k] == MergeAt(s, k, UL_CLOSE, "<ul")
    {
      MergeMatch(s, k);
    }
    ListOpenShapes();
    BulletTagShapes();
    MergeInText(t, s, UL_OPEN, a, UL_CLOSE, w, b, "<ul");
  }

  /** The same for numbered lists. */
  lemma MergeNumberedInText(a: string, w: string, b: string)
    requires IsBlank(w) && !Contains(a, OL_CLOSE) && !Contains(b, OL_CLOSE)
    ensures Apply(MergeNumbered, OL_OPEN + a + OL_CLOSE + w + OL_OPEN + b + OL_CLOSE)
         == OL_OPEN + a + b + OL_CLOSE
  {
    var s := OL_OPEN + a + OL_CLOSE + w + OL_OPEN + b + OL_CLOSE;
    var t := MatchTable(MergeNumbered, s);
    forall k | 0 <= k < |s|
      ensures t[k] == MergeAt(s, k, OL_CLOSE, "<ol")
    {
      MergeMatch(s, k);
    }
    ListOpenShapes();
    NumberedTagShapes();
    MergeInText(t, s, OL_OPEN, a, OL_CLOSE, w, b, "<ol");
  }

  /** Neighbouring lists of the same kind, separated only by blank text,
      are merged into one list holding the items of both. */
  lemma MergeNeighbourLists(a: string, w: string, b: string)
    requires IsBlank(w)
    ensures !Contains(a, UL_CLOSE) && !Contains(b, UL_CLOSE) ==>
      Apply(MergeBullets, UL_OPEN + a + UL_CLOSE + w + UL_OPEN + b + UL_CLOSE) == UL_OPEN + a + b + UL_CLOSE
    ensures !Contains(a, OL_CLOSE) && !Contains(b, OL_CLOSE) ==>
      Apply(MergeNumbered, OL_OPEN + a + OL_CLOSE + w + OL_OPEN + b + OL_CLOSE) == OL_OPEN + a + b + OL_CLOSE
  {
    if !Contains(a, UL_CLOSE) && !Contains(b, UL_CLOSE) {
      MergeBulletsInText(a, w, b);
    }
    if !Contains(a, OL_CLOSE) && !Contains(b, OL_CLOSE) {
      MergeNumberedInText(a, w, b);
    }
  }
}
