/** The toolbar of the Markdown editors: a template such as `**$1**` is spliced
    into the text at the selection. The component in
    src/components/MarkdownEditor.tsx and the section editor in
    src/pages/NewGuide.tsx each carry a copy; the copies agree on the new text
    and differ in where they put the cursor and in what happens when there is
    no text area to read the selection from. */
module Insertion {
  import opened Text

  /** The slot of a toolbar template. */
  const SLOT := "$1"

  /** The image button's template: it has no slot. */
  const IMAGE_SYNTAX := "![图片描述](https://example.com/image.jpg)"

  /** A text together with the caret offset the editor moves to afterwards. */
  datatype Edit = Edit(text: string, cursor: int)

  /** `syntax.replace('$1', ...)`: the first `$1` of the template takes the
      selected text, or the placeholder when nothing is selected; a template
      without `$1` comes back as it is. */
  function FillTemplate(syntax: string, selected: string, placeholder: string): (r: string)
    ensures !Contains(syntax, SLOT) ==> r == syntax
    ensures Contains(syntax, SLOT) ==>
      var k := IndexOf(syntax, SLOT);
      0 <= k && k + 2 <= |syntax|
      && r == syntax[..k] + (if selected != "" then selected else placeholder) + syntax[k + 2..]
  {
    ReplaceFirst(syntax, SLOT, if selected != "" then selected else placeholder)
  }

  /** `beforeText + insertedText + afterText`: everything before the selection
      and everything after it stays as it was, and only the selection is
      replaced. */
  function Splice(text: string, start: nat, end: nat, inserted: string): (r: string)
    requires start <= end <= |text|
    ensures |r| == |text| - (end - start) + |inserted|
    ensures r[..start] == text[..start]
    ensures r[start..start + |inserted|] == inserted
    ensures r[start + |inserted|..] == text[end..]
  {
    var r := text[..start] + inserted + text[end..];
    assert r == (text[..start] + inserted) + text[end..];
    assert r[..start] == (text[..start] + inserted)[..start];
    r
  }

  /** `insertMarkdown` of the editor component, with the text area mounted;
      `start` and `end` are the text area's selection, which the browser keeps
      ordered and inside the text. */
  function EditorInsert(text: string, start: nat, end: nat, syntax: string, placeholder: string): (e: Edit)
    requires start <= end <= |text|
    ensures var inserted := FillTemplate(syntax, text[start..end], placeholder);
      |e.text| == |text| - (end - start) + |inserted|
      && e.text[..start] == text[..start]
      && e.text[start..start + |inserted|] == inserted
      && e.text[start + |inserted|..] == text[end..]
    ensures start < end ==> e.cursor == start + |FillTemplate(syntax, text[start..end], placeholder)| - (end - start)
  {
    var selected := text[start..end];
    var inserted := FillTemplate(syntax, selected, placeholder);
    var cursor :=
      if selected != "" then start + |inserted| - |selected|
      else start + IndexOf(inserted, placeholder) + |placeholder|;
    Edit(Splice(text, start, end, inserted), cursor)
  }

  /** `insertMarkdown` of the guide wizard's section editor, with the section's
      text area found. */
  function SectionInsert(text: string, start: nat, end: nat, syntax: string, placeholder: string): (e: Edit)
    requires start <= end <= |text|
    ensures var inserted := FillTemplate(syntax, text[start..end], placeholder);
      |e.text| == |text| - (end - start) + |inserted|
      && e.text[..start] == text[..start]
      && e.text[start..start + |inserted|] == inserted
      && e.text[start + |inserted|..] == text[end..]
      && e.cursor == start + |inserted|
  {
    var inserted := FillTemplate(syntax, text[start..end], placeholder);
    Edit(Splice(text, start, end, inserted), start + |inserted|)
  }

  /** The section editor without its text area: the template, filled with the
      placeholder, goes at the end of the section. */
  function SectionAppend(text: string, syntax: string, placeholder: string): (r: string)
    ensures |r| == |text| + |FillTemplate(syntax, "", placeholder)|
    ensures r[..|text|] == text && r[|text|..] == FillTemplate(syntax, "", placeholder)
  {
    text + FillTemplate(syntax, "", placeholder)
  }

  /** Both copies produce the same text: the selection replaced by the filled
      template, the rest untouched. */
  lemma InsertKeepsOutside(text: string, start: nat, end: nat, syntax: string, placeholder: string)
    requires start <= end <= |text|
    ensures var inserted := FillTemplate(syntax, text[start..end], placeholder);
      var e := EditorInsert(text, start, end, syntax, placeholder);
      e.text == SectionInsert(text, start, end, syntax, placeholder).text
      && e.text[..start] == text[..start]
      && e.text[start..start + |inserted|] == inserted
      && e.text[start + |inserted|..] == text[end..]
  {
  }

  /** The section editor puts the cursor right after the inserted text. */
  lemma SectionCursorAfterInsertion(text: string, start: nat, end: nat, syntax: string, placeholder: string)
    requires start <= end <= |text|
    ensures var inserted := FillTemplate(syntax, text[start..end], placeholder);
      var e := SectionInsert(text, start, end, syntax, placeholder);
      0 <= e.cursor <= |e.text| && e.text[..e.cursor] == text[..start] + inserted
  {
    var inserted := FillTemplate(syntax, text[start..end], placeholder);
    var r := Splice(text, start, end, inserted);
    assert r[..start + |inserted|] == r[..start] + r[start..start + |inserted|];
  }

  /** With nothing selected, the editor component puts the cursor right after
      the placeholder when the template has a slot and nothing before the slot
      could be taken for the placeholder, so the user can type over it. */
  lemma EditorCursorAfterPlaceholder(text: string, start: nat, syntax: string, placeholder: string)
    requires start <= |text| && placeholder != []
    requires Contains(syntax, SLOT) && placeholder[0] !in syntax[..IndexOf(syntax, SLOT)]
    ensures var k := IndexOf(syntax, SLOT);
      var e := EditorInsert(text, start, start, syntax, placeholder);
      e.cursor == start + k + |placeholder|
      && e.text[start + k..e.cursor] == placeholder
  {
    var k := IndexOf(syntax, SLOT);
    var inserted := FillTemplate(syntax, "", placeholder);
    assert text[start..start] == "";
    assert inserted == syntax[..k] + placeholder + syntax[k + 2..];
    assert IsPrefixAt(inserted, k, placeholder);
    forall j | 0 <= j < k
      ensures !IsPrefixAt(inserted, j, placeholder)
    {
      assert inserted[j] == syntax[..k][j];
    }
    IndexOfFromIs(inserted, placeholder, 0, k);
    assert inserted[k..k + |placeholder|] == placeholder;
  }

  /** With nothing selected, whenever the inserted text holds the placeholder,
      the editor component's cursor lands right after its first occurrence,
      whether or not the template has a slot. */
  lemma EditorCursorAtPlaceholder(text: string, start: nat, syntax: string, placeholder: string)
    requires start <= |text|
    requires Contains(FillTemplate(syntax, "", placeholder), placeholder)
    ensures var inserted := FillTemplate(syntax, "", placeholder);
      var k := IndexOf(inserted, placeholder);
      var e := EditorInsert(text, start, start, syntax, placeholder);
      0 <= k && k + |placeholder| <= |inserted|
      && e.cursor == start + k + |placeholder|
      && e.text[e.cursor - |placeholder|..e.cursor] == placeholder
  {
    assert text[start..start] == "";
    var inserted := FillTemplate(syntax, "", placeholder);
    var k := IndexOf(inserted, placeholder);
    var e := EditorInsert(text, start, start, syntax, placeholder);
    assert k != -1;
    assert inserted[k..k + |placeholder|] == placeholder;
    assert e.text[start + k..start + k + |placeholder|] == e.text[start..start + |inserted|][k..k + |placeholder|];
  }

  /** What the image button's template is made of: no `$` anywhere, and the
      placeholder right after the leading `![`. */
  lemma ImageSyntaxShape()
    ensures forall d :: 0 <= d < |IMAGE_SYNTAX| ==> IMAGE_SYNTAX[d] != '$'
    ensures IMAGE_SYNTAX[0] == '!' && IMAGE_SYNTAX[1] == '[' && IMAGE_SYNTAX[2..6] == "图片描述"
  {
    assert forall d :: 0 <= d < 4 ==> IMAGE_SYNTAX[2..6][d] == IMAGE_SYNTAX[d + 2];
  }

  /** The image button's template has no slot and starts `![`, so with nothing
      selected the cursor lands six characters on, after `![图片描述`. */
  lemma ImageButtonCursor(text: string, start: nat)
    requires start <= |text|
    ensures var e := EditorInsert(text, start, start, IMAGE_SYNTAX, "图片描述");
      e.cursor == start + 6 && e.text[start + 2..e.cursor] == "图片描述"
  {
    var inserted := FillTemplate(IMAGE_SYNTAX, "", "图片描述");
    ImageSyntaxShape();
    assert SLOT[0] == '$';
    AbsentCharExcludes(IMAGE_SYNTAX, SLOT, '$');
    assert inserted == IMAGE_SYNTAX;
    assert IsPrefixAt(inserted, 2, "图片描述");
    assert !IsPrefixAt(inserted, 0, "图片描述") by { assert inserted[0..4][0] == '!'; }
    assert !IsPrefixAt(inserted, 1, "图片描述") by { assert inserted[1..5][0] == '['; }
    IndexOfFromIs(inserted, "图片描述", 0, 2);
    EditorCursorAtPlaceholder(text, start, IMAGE_SYNTAX, "图片描述");
  }

  /** With a selection, the editor component's cursor does not depend on how
      long the selection is: it lands `|syntax| - 2` characters after `start`,
      which is inside the wrapped selection whenever the selection is longer
      than the template's text after the slot. */
  lemma EditorCursorWithSelection(text: string, start: nat, end: nat, syntax: string, placeholder: string)
    requires start < end <= |text| && Contains(syntax, SLOT)
    ensures var k := IndexOf(syntax, SLOT);
      var e := EditorInsert(text, start, end, syntax, placeholder);
      e.cursor == start + |syntax| - 2
      && (|syntax| - (k + 2) < end - start ==> e.cursor < start + k + (end - start))
  {
    assert text[start..end] != "" by {
      assert |text[start..end]| == end - start;
    }
  }

  /** A template without a placeholder in it leaves the editor component's
      cursor one short of `start + |placeholder|`, since `indexOf` gives -1. */
  lemma EditorCursorPlaceholderMissing(text: string, start: nat, syntax: string, placeholder: string)
    requires start <= |text|
    requires !Contains(FillTemplate(syntax, "", placeholder), placeholder)
    ensures EditorInsert(text, start, start, syntax, placeholder).cursor == start + |placeholder| - 1
  {
    assert text[start..start] == "";
    var inserted := FillTemplate(syntax, "", placeholder);
    assert IndexOf(inserted, placeholder) == -1;
  }

  /** Bold on the selected "world" of "hello world": both copies produce
      "hello **world**"; the editor component puts the cursor at 10, between
      "wo" and "rld", while the section editor puts it at 15, after the
      closing `**`. */
  lemma BoldWorldExample()
    ensures EditorInsert("hello world", 6, 11, "**$1**", "粗体文本") == Edit("hello **world**", 10)
    ensures SectionInsert("hello world", 6, 11, "**$1**", "粗体文本") == Edit("hello **world**", 15)
  {
    BoldFill();
    assert "hello world"[6..11] == "world";
  }

  /** The bold template's slot is at offset 2, so "world" fills it as `**world**`. */
  lemma BoldFill()
    ensures IndexOf("**$1**", SLOT) == 2
    ensures FillTemplate("**$1**", "world", "粗体文本") == "**world**"
  {
    var syntax := "**$1**";
    assert IsPrefixAt(syntax, 2, SLOT);
    assert !IsPrefixAt(syntax, 0, SLOT) by { assert syntax[0..2][0] != SLOT[0]; }
    assert !IsPrefixAt(syntax, 1, SLOT) by { assert syntax[1..3][0] != SLOT[0]; }
    IndexOfFromIs(syntax, SLOT, 0, 2);
  }
}
