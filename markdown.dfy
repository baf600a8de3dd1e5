/** The Markdown preview of the guide editor: a fixed chain of global
    regular-expression replacements over the whole text, each applied to the
    output of the one before. The same chain appears as `renderPreview` in
    src/components/MarkdownEditor.tsx and as `renderMarkdown` in
    src/pages/NewGuide.tsx.

    Each pass is modelled by `MatchAt(p, s, i)`: whether its regular expression
    matches at offset `i` of `s`, where that match ends and what replaces it,
    worked out from the pattern's backtracking behaviour. `ReplaceFrom` is the
    scan of `String.prototype.replace` with the `g` flag: the leftmost match
    at or after the current offset is replaced and the scan resumes at its end. */
module Markdown {
  import opened Text
  import opened Options

  // The markup the passes produce; the class attributes are copied from the source.
  const H1_OPEN := "<h1 class=\"text-3xl font-bold my-5\">"
  const H2_OPEN := "<h2 class=\"text-2xl font-bold my-4\">"
  const H3_OPEN := "<h3 class=\"text-xl font-bold my-3\">"
  const STRONG_OPEN := "<strong>"
  const STRONG_CLOSE := "</strong>"
  const EM_OPEN := "<em>"
  const EM_CLOSE := "</em>"
  const BULLET_ITEM_OPEN := "<li class=\"ml-4\">"
  const NUMBERED_ITEM_OPEN := "<li class=\"ml-4 list-decimal\">"
  const ITEM_CLOSE := "</li>"
  const PRE_OPEN := "<pre class=\"bg-gray-100 p-3 rounded-lg my-3 overflow-x-auto\"><code>"
  const PRE_CLOSE := "</code></pre>"
  const CODE_OPEN := "<code class=\"bg-gray-100 px-1 rounded\">"
  const CODE_CLOSE := "</code>"
  const HR := "<hr class=\"my-4 border-t border-gray-300\">"
  const P_OPEN := "<p class=\"my-2\">"
  const P_CLOSE := "</p>"
  const UL_OPEN := "<ul class=\"list-disc my-3 pl-5\">"
  const UL_CLOSE := "</ul>"
  const OL_OPEN := "<ol class=\"list-decimal my-3 pl-5\">"
  const OL_CLOSE := "</ol>"

  type Level = l: int | 1 <= l <= 3 witness 1

  function HeadingMarker(level: Level): string {
    if level == 1 then "# " else if level == 2 then "## " else "### "
  }

  function HeadingOpen(level: Level): string {
    if level == 1 then H1_OPEN else if level == 2 then H2_OPEN else H3_OPEN
  }

  function HeadingClose(level: Level): string {
    if level == 1 then "</h1>" else if level == 2 then "</h2>" else "</h3>"
  }

  function Anchor(linkText: string, url: string): string {
    "<a href=\"" + url + "\" class=\"text-blue-600 hover:underline\">" + linkText + "</a>"
  }

  function Image(alt: string, url: string): string {
    "<img src=\"" + url + "\" alt=\"" + alt + "\" class=\"my-4 rounded-lg max-w-full\">"
  }

  function BulletItem(x: string): string {
    BULLET_ITEM_OPEN + x + ITEM_CLOSE
  }

  function NumberedItem(x: string): string {
    NUMBERED_ITEM_OPEN + x + ITEM_CLOSE
  }

  /** The paragraph pass leaves a matched line alone when it starts with one of these. */
  predicate IsStructural(line: string) {
    IsPrefixAt(line, 0, "<h") || IsPrefixAt(line, 0, "<li")
    || IsPrefixAt(line, 0, "<pre") || IsPrefixAt(line, 0, "<hr")
  }

  /** The callback of the paragraph pass. */
  function WrapParagraph(line: string): (r: string)
    ensures IsStructural(line) ==> r == line
    ensures !IsStructural(line) ==> r == P_OPEN + line + P_CLOSE
  {
    if IsStructural(line) then line else P_OPEN + line + P_CLOSE
  }

  /** The passes of the chain, one per `replace` call. */
  datatype Pass =
    | Heading(level: Level)  // /^### (.*$)/gm and its two shorter siblings
    | Bold                   // /\*\*(.*?)\*\*/g
    | Italic                 // /\*(.*?)\*/g
    | Link                   // /\[([^\]]+)\]\(([^)]+)\)/g
    | ImageLink              // /!\[([^\]]+)\]\(([^)]+)\)/g
    | BulletLine             // /^\s*-\s*(.*$)/gm
    | NumberedLine           // /^\s*\d+\.\s*(.*$)/gm
    | CodeBlock              // /```([\s\S]*?)```/g
    | InlineCode             // /`([^`]+)`/g
    | Rule                   // /^\s*---\s*$/gm
    | Paragraph              // /^\s*(.+)$/gm with a callback
    | WrapBullets            // /<li class="ml-4">[\s\S]*?<\/li>/g
    | WrapNumbered           // /<li class="ml-4 list-decimal">[\s\S]*?<\/li>/g
    | MergeBullets           // /<\/ul>\s*<ul[^>]*>/g
    | MergeNumbered          // /<\/ol>\s*<ol[^>]*>/g
  {
    /** The passes whose pattern starts with `^` in multi-line mode. */
    predicate LineAnchored() {
      Heading? || BulletLine? || NumberedLine? || Rule? || Paragraph?
    }
  }

  /** One match of a pass: where it ends and the text that replaces it. */
  datatype Match = Match(end: nat, replacement: string)

  function HeadingAt(s: string, i: nat, level: Level): (m: Option<Match>)
    requires i <= |s|
    ensures m.Some? ==> AtLineStart(s, i) && IsPrefixAt(s, i, HeadingMarker(level)) && i < m.value.end <= |s|
  {
    var marker := HeadingMarker(level);
    if AtLineStart(s, i) && IsPrefixAt(s, i, marker) then
      var e := LineEnd(s, i + |marker|);
      Some(Match(e, HeadingOpen(level) + s[i + |marker|..e] + HeadingClose(level)))
    else None
  }

  /** `delim(.*?)delim` (`sameLine`) or `delim([\s\S]*?)delim`, and with
      `nonEmpty` the form `delim([^delim]+)delim` of a one-character delimiter:
      the offset where the closing delimiter starts. */
  function SpanClose(s: string, i: nat, delim: string, sameLine: bool, nonEmpty: bool): (j: Option<nat>)
    requires i <= |s|
    ensures j.Some? ==> IsPrefixAt(s, i, delim) && i + |delim| <= j.value && IsPrefixAt(s, j.value, delim)
  {
    if !IsPrefixAt(s, i, delim) then None
    else
      var j := IndexOfFrom(s, delim, i + |delim|);
      if j == -1 then None
      else if sameLine && LineEnd(s, i + |delim|) < j then None
      else if nonEmpty && j == i + |delim| then None
      else Some(j)
  }

  function SpanAt(s: string, i: nat, delim: string, sameLine: bool, nonEmpty: bool, open: string, close: string): (m: Option<Match>)
    requires i <= |s| && |delim| > 0
    ensures m.Some? ==> IsPrefixAt(s, i, delim) && i < m.value.end <= |s|
  {
    match SpanClose(s, i, delim, sameLine, nonEmpty)
    case Some(j) => Some(Match(j + |delim|, open + s[i + |delim|..j] + close))
    case None => None
  }

  /** The offsets of `]` and `)` of a `[label](url)` that starts at `i`. */
  datatype LinkParts = LinkParts(labelEnd: nat, urlEnd: nat)

  function LinkAt(s: string, i: nat): (r: Option<LinkParts>)
    requires i <= |s|
    ensures r.Some? ==> i + 1 < r.value.labelEnd && r.value.labelEnd + 2 < r.value.urlEnd < |s|
    ensures r.Some? ==> s[i] == '[' && s[r.value.labelEnd] == ']' && s[r.value.labelEnd + 1] == '(' && s[r.value.urlEnd] == ')'
  {
    if i < |s| && s[i] == '[' then
      var k := IndexOfFrom(s, "]", i + 1);
      if k <= i + 1 then None
      else if k + 1 < |s| && s[k + 1] == '(' then
        var m := IndexOfFrom(s, ")", k + 2);
        if m <= k + 2 then None else Some(LinkParts(k, m))
      else None
    else None
  }

  function LinkMatchAt(s: string, i: nat): (m: Option<Match>)
    requires i <= |s|
    ensures m.Some? ==> i < |s| && s[i] == '[' && IsPrefixAt(s, i, "[") && i < m.value.end <= |s|
  {
    match LinkAt(s, i)
    case Some(p) => Some(Match(p.urlEnd + 1, Anchor(s[i + 1..p.labelEnd], s[p.labelEnd + 2..p.urlEnd])))
    case None => None
  }

  function ImageMatchAt(s: string, i: nat): (m: Option<Match>)
    requires i <= |s|
    ensures m.Some? ==> IsPrefixAt(s, i, "![") && i < m.value.end <= |s|
  {
    if i < |s| && s[i] == '!' then
      match LinkAt(s, i + 1)
      case Some(p) => Some(Match(p.urlEnd + 1, Image(s[i + 2..p.labelEnd], s[p.labelEnd + 2..p.urlEnd])))
      case None => None
    else None
  }

  function BulletLineAt(s: string, i: nat): (m: Option<Match>)
    requires i <= |s|
    ensures m.Some? ==> AtLineStart(s, i) && i < m.value.end <= |s|
  {
    if AtLineStart(s, i) then
      var q := SpaceEnd(s, i);
      if q < |s| && s[q] == '-' then
        var r := SpaceEnd(s, q + 1);
        var e := LineEnd(s, r);
        Some(Match(e, BulletItem(s[r..e])))
      else None
    else None
  }

  function NumberedLineAt(s: string, i: nat): (m: Option<Match>)
    requires i <= |s|
    ensures m.Some? ==> AtLineStart(s, i) && i < m.value.end <= |s|
  {
    if AtLineStart(s, i) then
      var q := SpaceEnd(s, i);
      var d := DigitEnd(s, q);
      if q < d < |s| && s[d] == '.' then
        var r := SpaceEnd(s, d + 1);
        var e := LineEnd(s, r);
        Some(Match(e, NumberedItem(s[r..e])))
      else None
    else None
  }

  /** The largest `e` in `[lo, hi]` where `$` holds: how far `\s*$` reaches once it backtracks. */
  function LastLineEnd(s: string, lo: nat, hi: nat): (e: Option<nat>)
    requires lo <= hi <= |s|
    ensures e.Some? ==> lo <= e.value <= hi && AtLineEnd(s, e.value)
    ensures e.Some? ==> forall k :: e.value < k <= hi ==> !AtLineEnd(s, k)
    ensures e.None? ==> forall k :: lo <= k <= hi ==> !AtLineEnd(s, k)
    decreases hi - lo
  {
    if AtLineEnd(s, hi) then Some(hi)
    else if hi == lo then None
    else LastLineEnd(s, lo, hi - 1)
  }

  function RuleAt(s: string, i: nat): (m: Option<Match>)
    requires i <= |s|
    ensures m.Some? ==> AtLineStart(s, i) && i < m.value.end <= |s|
  {
    if AtLineStart(s, i) then
      var q := SpaceEnd(s, i);
      if IsPrefixAt(s, q, "---") then
        match LastLineEnd(s, q + 3, SpaceEnd(s, q + 3))
        case Some(e) => Some(Match(e, HR))
        case None => None
      else None
    else None
  }

  /** The largest `k` in `[lo, hi)` whose character is not a line terminator:
      where `.+` can start once `\s*` has given characters back. */
  function LastInLine(s: string, lo: nat, hi: nat): (k: Option<nat>)
    requires lo <= hi <= |s|
    ensures k.Some? ==> lo <= k.value < hi && !IsLineTerminator(s[k.value])
    ensures k.Some? ==> forall j :: k.value < j < hi ==> IsLineTerminator(s[j])
    ensures k.None? ==> forall j :: lo <= j < hi ==> IsLineTerminator(s[j])
    decreases hi - lo
  {
    if hi == lo then None
    else if !IsLineTerminator(s[hi - 1]) then Some(hi - 1)
    else LastInLine(s, lo, hi - 1)
  }

  /** Where the match of `^\s*(.+)$` that starts at `i` ends. `\s*` is greedy and
      may run over line ends; when it reaches the end of the text it gives
      characters back until `.+` can take one. */
  function ParagraphEnd(s: string, i: nat): (e: Option<nat>)
    requires i <= |s|
    ensures e.Some? ==> i < e.value <= |s| && AtLineEnd(s, e.value)
  {
    var q := SpaceEnd(s, i);
    if q < |s| then Some(LineEnd(s, q))
    else match LastInLine(s, i, q)
      case Some(k) => Some(LineEnd(s, k))
      case None => None
  }

  function ParagraphAt(s: string, i: nat): (m: Option<Match>)
    requires i <= |s|
    ensures m.Some? ==> AtLineStart(s, i) && i < m.value.end <= |s|
  {
    if AtLineStart(s, i) then
      match ParagraphEnd(s, i)
      case Some(e) => Some(Match(e, WrapParagraph(s[i..e])))
      case None => None
    else None
  }

  /** `<li ...>[\s\S]*?<\/li>` replaced by the item inside a list container. */
  function WrapAt(s: string, i: nat, itemOpen: string, listOpen: string, listClose: string): (m: Option<Match>)
    requires i <= |s|
    ensures m.Some? ==> IsPrefixAt(s, i, itemOpen) && i + |itemOpen| < m.value.end <= |s|
  {
    if IsPrefixAt(s, i, itemOpen) then
      var j := IndexOfFrom(s, ITEM_CLOSE, i + |itemOpen|);
      if j == -1 then None
      else Some(Match(j + |ITEM_CLOSE|, listOpen + s[i..j + |ITEM_CLOSE|] + listClose))
    else None
  }

  /** `<\/ul>\s*<ul[^>]*>` (and its `ol` twin) deleted. */
  function MergeAt(s: string, i: nat, listClose: string, openStart: string): (m: Option<Match>)
    requires i <= |s|
    ensures m.Some? ==> IsPrefixAt(s, i, listClose) && i + |listClose| < m.value.end <= |s| && m.value.replacement == ""
  {
    if IsPrefixAt(s, i, listClose) then
      var q := SpaceEnd(s, i + |listClose|);
      if IsPrefixAt(s, q, openStart) then
        var g := IndexOfFrom(s, ">", q + |openStart|);
        if g == -1 then None else Some(Match(g + 1, ""))
      else None
    else None
  }

  /** The literal text every match of an unanchored pass starts with. */
  function Lead(p: Pass): string
    requires !p.LineAnchored()
  {
    match p
    case Bold => "**"
    case Italic => "*"
    case Link => "["
    case ImageLink => "!["
    case CodeBlock => "```"
    case InlineCode => "`"
    case WrapBullets => BULLET_ITEM_OPEN
    case WrapNumbered => NUMBERED_ITEM_OPEN
    case MergeBullets => UL_CLOSE
    case MergeNumbered => OL_CLOSE
  }

  /** The match of pass `p` at offset `i` of `s`, if there is one. */
  function MatchAt(p: Pass, s: string, i: nat): (m: Option<Match>)
    requires i < |s|
    ensures m.Some? ==> i < m.value.end <= |s|
    ensures m.Some? && !p.LineAnchored() ==> IsPrefixAt(s, i, Lead(p))
  {
    match p
    case Heading(level) => HeadingAt(s, i, level)
    case Bold => SpanAt(s, i, "**", true, false, STRONG_OPEN, STRONG_CLOSE)
    case Italic => SpanAt(s, i, "*", true, false, EM_OPEN, EM_CLOSE)
    case Link => LinkMatchAt(s, i)
    case ImageLink => ImageMatchAt(s, i)
    case BulletLine => BulletLineAt(s, i)
    case NumberedLine => NumberedLineAt(s, i)
    case CodeBlock => SpanAt(s, i, "```", false, false, PRE_OPEN, PRE_CLOSE)
    case InlineCode => SpanAt(s, i, "`", false, true, CODE_OPEN, CODE_CLOSE)
    case Rule => RuleAt(s, i)
    case Paragraph => ParagraphAt(s, i)
    case WrapBullets => WrapAt(s, i, BULLET_ITEM_OPEN, UL_OPEN, UL_CLOSE)
    case WrapNumbered => WrapAt(s, i, NUMBERED_ITEM_OPEN, OL_OPEN, OL_CLOSE)
    case MergeBullets => MergeAt(s, i, UL_CLOSE, "<ul")
    case MergeNumbered => MergeAt(s, i, OL_CLOSE, "<ol")
  }

  /** A pass anchored with `^` matches only at the start of a line. */
  lemma AnchoredAtLineStart(p: Pass, s: string, i: nat)
    requires i < |s| && p.LineAnchored() && MatchAt(p, s, i).Some?
    ensures AtLineStart(s, i)
  {
  }

  /** Every match in a table of matches ends after the offset it starts at
      and within the text. */
  predicate ValidMatches(t: seq<Option<Match>>) {
    forall k :: 0 <= k < |t| && t[k].Some? ==> k < t[k].value.end <= |t|
  }

  /** The match of pass `p` at each offset of `s`. The matches are those of
      the original text: a global replacement never looks at its own output. */
  function MatchTable(p: Pass, s: string): (t: seq<Option<Match>>)
    ensures |t| == |s| && ValidMatches(t)
    ensures forall k :: 0 <= k < |s| ==> t[k] == MatchAt(p, s, k)
  {
    seq(|s|, k requires 0 <= k < |s| => MatchAt(p, s, k))
  }

  /** `s.replace(pattern, replacement)` with the `g` flag, from offset `i` on,
      given the table `t` of the pattern's matches: the output for `s[i..]`. */
  function ReplaceFrom(t: seq<Option<Match>>, s: string, i: nat): (r: string)
    requires |t| == |s| && ValidMatches(t) && i <= |s|
    ensures (forall k :: i <= k < |s| ==> t[k].None?) ==> r == s[i..]
    decreases |s| - i
  {
    if i == |s| then ""
    else match t[i]
      case Some(m) => m.replacement + ReplaceFrom(t, s, m.end)
      case None => [s[i]] + ReplaceFrom(t, s, i + 1)
  }

  /** One pass over the whole text; empty text stays empty. */
  function Apply(p: Pass, s: string): (r: string)
    ensures s == "" ==> r == ""
  {
    ReplaceFrom(MatchTable(p, s), s, 0)
  }

  /** The preview: every pass in the order the source applies them. Empty
      text gives an empty preview. */
  function Render(text: string): (r: string)
    ensures text == "" ==> r == ""
  {
    var html := Apply(Heading(3), text);
    var html := Apply(Heading(2), html);
    var html := Apply(Heading(1), html);
    var html := Apply(Bold, html);
    var html := Apply(Italic, html);
    var html := Apply(Link, html);
    var html := Apply(ImageLink, html);
    var html := Apply(BulletLine, html);
    var html := Apply(NumberedLine, html);
    var html := Apply(CodeBlock, html);
    var html := Apply(InlineCode, html);
    var html := Apply(Rule, html);
    var html := Apply(Paragraph, html);
    var html := Apply(WrapBullets, html);
    var html := Apply(WrapNumbered, html);
    var html := Apply(MergeBullets, html);
    Apply(MergeNumbered, html)
  }
}
