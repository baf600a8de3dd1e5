/** The state of the Markdown editor component of
    src/components/MarkdownEditor.tsx: its text, whether the preview is shown,
    and the statistics and writing hints computed from the text. The effect
    that re-analyses the text whenever it changes runs as part of each change,
    so the analysis always describes the text on screen. */
module Editor {
  import opened Options
  import opened Insertion
  import opened Analysis
  import Markdown

  /** The placeholder shown in an empty editor. */
  const DEFAULT_PLACEHOLDER := "在这里编写内容..."

  class MarkdownEditor {
    var text: string
    var previewMode: bool
    var stats: Stats
    var details: Details

    /** The statistics and hints are those of the current text. */
    predicate Valid()
      reads this
    {
      stats == StatsOf(text) && details == DetailsOf(text)
    }

    /** Mounting with the `content` prop, after the first analysis. */
    constructor(content: string)
      ensures Valid() && text == content && !previewMode
    {
      text := content;
      previewMode := false;
      var s, d := AnalyzeText(content);
      stats, details := s, d;
    }

    method Reanalyze()
      modifies this
      ensures Valid() && text == old(text) && previewMode == old(previewMode)
    {
      var s, d := AnalyzeText(text);
      stats, details := s, d;
    }

    /** The effect that follows a new `content` prop. */
    method SyncContent(content: string)
      modifies this
      ensures Valid() && text == content && previewMode == old(previewMode)
    {
      text := content;
      Reanalyze();
    }

    /** `handleChange`: the typed text is kept and reported to the parent. */
    method HandleChange(value: string) returns (reported: string)
      modifies this
      ensures Valid() && text == value && reported == value && previewMode == old(previewMode)
    {
      text := value;
      Reanalyze();
      reported := value;
    }

    /** `insertMarkdown`: without a mounted text area nothing happens;
        otherwise the selection `start..end` becomes the filled template, the
        new text is reported to the parent and the cursor is moved. */
    method InsertMarkdown(mounted: bool, start: nat, end: nat, syntax: string, placeholder: string)
      returns (reported: Option<string>, cursor: Option<int>)
      requires start <= end <= |text|
      requires Valid()
      modifies this
      ensures Valid() && previewMode == old(previewMode)
      ensures !mounted ==> text == old(text) && reported == None && cursor == None
      ensures mounted ==>
        var e := EditorInsert(old(text), start, end, syntax, placeholder);
        text == e.text && reported == Some(e.text) && cursor == Some(e.cursor)
    {
      if !mounted {
        reported, cursor := None, None;
        return;
      }
      var e := EditorInsert(text, start, end, syntax, placeholder);
      text := e.text;
      Reanalyze();
      reported, cursor := Some(e.text), Some(e.cursor);
    }

    /** The preview button. */
    method TogglePreview()
      requires Valid()
      modifies this
      ensures Valid() && previewMode == !old(previewMode) && text == old(text)
    {
      previewMode := !previewMode;
    }

    /** What the preview pane shows: the text rendered as HTML; an empty
        editor shows an empty pane. */
    function Preview(): (html: string)
      reads this
      requires previewMode
      ensures text == "" ==> html == ""
    {
      Markdown.Render(text)
    }
  }
}
