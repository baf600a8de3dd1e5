# Travel guides: the guide editor, its Markdown pipeline and the guide service

This project models, in Dafny, the parts of the travel-guide site that compute
something:

- **The Markdown editor** (`src/components/MarkdownEditor.tsx`):
  - toolbar insertion at the selection;
  - the live text analysis: counts, reading time, long sentences, complex words, passive voice and adverbs;
  - the regular-expression chain that renders the preview.
- **The guide wizard** (`src/pages/NewGuide.tsx`) and **the guide editor** (`src/pages/GuideEditor.tsx`):
  - tag toggling;
  - adding, removing, moving and inserting sections;
  - section edits and the section editor's own Markdown insertion;
  - form validation and the wizard's three steps.
- **The listing pages:** the tag and search filter of `src/pages/Guides.tsx` with its tag list, and the category and search filter of `src/pages/Destinations.tsx`.
- **The guide service** (`backend/src`):
  - the in-memory store (`db.rs`);
  - the request handlers (`handlers.rs`);
  - the errors and their HTTP replies (`error.rs`).

Modules, one per file:

| file | module | models |
|---|---|---|
| options.dfy | Options | optional values |
| text.dfy | Text | the JavaScript string operations used: `\s`, `\w`, `trim`, `toLowerCase`, `indexOf`, `includes`, `replace` with a string pattern |
| sequences.dfy | Sequences | `filter`, `flat`, `Array.from(new Set(...))` |
| sections.dfy | Sections | the section record shared by front end and service |
| insertion.dfy | Insertion | the two `insertMarkdown` copies |
| analysis.dfy | Analysis | `analyzeText` |
| markdown.dfy, markdown_facts.dfy | Markdown, MarkdownFacts | `renderPreview` / `renderMarkdown` and what they do to particular inputs |
| drafts.dfy | Drafts | the guide under edit: tags, sections, validation, wizard steps |
| pages.dfy | Pages | the wizard page and the editor page as classes whose handlers update their state |
| editor.dfy | Editor | the editor component as a class |
| listings.dfy | Listings | the two browsing filters and the tag list |
| models.dfy, errors.dfy, store.dfy, handlers.dfy | Models, Errors, Db, Handlers | the service |

Each regular-expression pass of the preview is modelled by where its pattern matches at an offset and what replaces the match. The scan of a global `replace` is modelled separately. The analysis splits text exactly as `split(...).filter(Boolean)` does. It also follows the complex-word detector's reuse of one global regular expression across words: a word right after a flagged word is searched from the previous match's end, not from its start.

Behaviours of the code that the model keeps, although a reader might expect otherwise:

- **Reading time.** An empty text has a reading time of 1 minute, because the code computes `Math.max(1, …)`.
- **Editor cursor after bold.** Making the selected "world" of "hello world" bold leaves the editor component's cursor at 10, inside the word. The section editor of the wizard puts it at 15 (`Insertion.BoldWorldExample`).
- **Toggling a tag twice.** Toggling a selected tag twice moves it to the end of the list (`Drafts.ToggleTwice`).
- **Missed complex word.** The second of two equal long words in a row is not flagged (`Analysis.SecondComplexWordMissed`).
- **Preview rendering:**
  - Blank lines do not separate paragraphs, because `\s*` runs over line ends. Blank lines in front of a line of text go into that line's paragraph (`MarkdownFacts.BlankLinesJoinNext`, `MarkdownFacts.BlankLinesAfterText`). So `"a\n  \nb"` becomes two paragraphs, `a` and `  \nb` (`MarkdownFacts.BlankLineBetweenLines`).
  - Blank lines at the end of the text, after a line of text, form one paragraph of their own (`MarkdownFacts.TrailingBlankLines`).
  - A `---` line becomes a list item before the rule pass sees it (`MarkdownFacts.RuleShadowedByList`).
  - Running the paragraph pass again wraps the paragraph twice (`MarkdownFacts.ParagraphRewraps`).
- **Saving.** The editor page saves without validating the form. Only the wizard validates.

## Model

| member | source | states |
|---|---|---|
| Text.Includes | src/pages/Guides.tsx:83-84 | `includes` holds exactly when the pattern occurs somewhere in the string |
| Text.ReplaceFirst | src/components/MarkdownEditor.tsx:66-70 | `replace` with a string pattern changes only the first occurrence, and leaves a string without one unchanged |
| Text.IndexOfFrom | src/components/MarkdownEditor.tsx:80 | `indexOf` gives the first occurrence at or after the start offset, or -1 when there is none |
| Text.Lower | src/pages/Guides.tsx:83-84 | `toLowerCase` maps each character and keeps the length |
| Text.TrimEmptyIffBlank | src/pages/NewGuide.tsx:99-106 | a trimmed string is empty exactly when the string holds only whitespace |
| Sequences.Filter | src/pages/NewGuide.tsx:55 | `filter` keeps only elements that pass the test and keeps every one that does |
| Sequences.FilterIsSubsequence | src/pages/Guides.tsx:81-86 | `filter` keeps the order: the result is a subsequence of the input |
| Sequences.FilterCounts | src/pages/NewGuide.tsx:55 | a kept value appears as often as in the input, and a rejected one never |
| Sequences.FilterConcat | src/pages/NewGuide.tsx:54-56 | filtering a concatenation is concatenating the filtered parts |
| Sequences.FilterKeepsAll | src/pages/Guides.tsx:212 | when every element passes, `filter` returns its input |
| Sequences.FilterDropsRejected | src/pages/NewGuide.tsx:55 | a list with a rejected element gets strictly shorter |
| Sequences.FilterNoDuplicates | src/pages/NewGuide.tsx:55 | filtering a list without duplicates gives one without duplicates |
| Sequences.FilterNarrows | src/pages/Guides.tsx:82-85 | filtering by a stronger test is filtering the result of a weaker one |
| Sequences.Flatten | src/pages/Guides.tsx:75 | `flatMap` holds every element of every list, and nothing else |
| Sequences.FlattenConcat | src/pages/Guides.tsx:75 | `flatMap` of two lists joined is the two results joined, so order is kept |
| Sequences.FlattenAppend | src/pages/Guides.tsx:75 | one more list adds its elements at the end |
| Sequences.Dedupe | src/pages/Guides.tsx:75 | `Array.from(new Set(xs))` has no duplicates and holds exactly the values of `xs` |
| Sequences.DedupeOrder | src/pages/Guides.tsx:75 | the values come in the order of their first occurrence |
| Insertion.FillTemplate | src/components/MarkdownEditor.tsx:66-70 | the first `$1` of the template takes the selection, or the placeholder when nothing is selected |
| Insertion.SectionAppend | src/pages/NewGuide.tsx:229-233 | without a text area, the filled template is appended and the old text stays as a prefix |
| Insertion.EditorInsert | src/components/MarkdownEditor.tsx:57-80 | the component keeps the text around the selection and puts the filled template in its place; with a selection the cursor is the end of the inserted text less the selection's length |
| Insertion.SectionInsert | src/pages/NewGuide.tsx:206-226 | the section editor keeps the text around the selection, puts the filled template in its place and sets the cursor right after it |
| Insertion.Splice | src/components/MarkdownEditor.tsx:61-71 | `beforeText + insertedText + afterText`: the text before the selection, then the inserted text, then the text after it, and the length changes by the difference |
| Insertion.InsertKeepsOutside | src/pages/NewGuide.tsx:203-220 | both copies of `insertMarkdown` produce the same text, with only the selection replaced |
| Insertion.SectionCursorAfterInsertion | src/pages/NewGuide.tsx:224-228 | the section editor puts the cursor right after the inserted text |
| Insertion.EditorCursorAfterPlaceholder | src/components/MarkdownEditor.tsx:76-81 | with nothing selected, the component's cursor lands right after the placeholder |
| Insertion.EditorCursorAtPlaceholder | src/components/MarkdownEditor.tsx:76-81 | with nothing selected and the placeholder in the inserted text, the cursor is `start` plus the placeholder's first offset plus its length, right after the placeholder, with or without a slot in the template |
| Insertion.ImageButtonCursor | src/components/MarkdownEditor.tsx:272 | the image button, whose template has no slot, leaves the cursor at `start + 6`, right after `图片描述` |
| Insertion.EditorCursorWithSelection | src/components/MarkdownEditor.tsx:78-80 | with a selection, the component's cursor is `start + |syntax| - 2` whatever the selection's length |
| Insertion.EditorCursorPlaceholderMissing | src/components/MarkdownEditor.tsx:80 | when the inserted text lacks the placeholder, `indexOf` gives -1 and the cursor falls one short |
| Insertion.BoldWorldExample | src/components/MarkdownEditor.tsx:53-83 | bold on "world" of "hello world": the component's cursor is 10 and the section editor's is 15 |
| Analysis.FieldEnd | src/components/MarkdownEditor.tsx:87-88 | a field runs to the next separator |
| Analysis.Fields | src/components/MarkdownEditor.tsx:87-88 | `split(/sep+/).filter(Boolean)` gives non-empty fields without separators |
| Analysis.FieldsJoin | src/components/MarkdownEditor.tsx:87-88 | a separator cuts the text: the fields of the whole are those of the two sides |
| Analysis.FieldsOfRun | src/components/MarkdownEditor.tsx:87 | a non-empty run without separators is one field |
| Analysis.FieldsOfSeparators | src/components/MarkdownEditor.tsx:87 | a text of separators only has no field |
| Analysis.Words | src/components/MarkdownEditor.tsx:87 | the words are non-empty and hold no whitespace |
| Analysis.Sentences | src/components/MarkdownEditor.tsx:88 | the sentences are non-empty and hold no `.`, `!` or `?` |
| Analysis.BlankTailIsSentence | src/components/MarkdownEditor.tsx:88 | blanks after the last full stop count as a sentence with no words |
| Analysis.LastNewline | src/components/MarkdownEditor.tsx:89 | the last line feed in a range, which is where `\n\s*\n` ends once `\s*` backtracks |
| Analysis.BreakAt | src/components/MarkdownEditor.tsx:89 | a match of `\n\s*\n` starts and ends with a line feed |
| Analysis.SplitBreaks | src/components/MarkdownEditor.tsx:89 | `split` always yields at least one piece |
| Analysis.NonEmpty | src/components/MarkdownEditor.tsx:89 | `filter(Boolean)` keeps exactly the non-empty pieces |
| Analysis.Paragraphs | src/components/MarkdownEditor.tsx:89 | the paragraphs are exactly the non-empty pieces of the split at `\n\s*\n` |
| Analysis.BreakInSlice | src/components/MarkdownEditor.tsx:89 | a break inside a piece of the text is a break of the text |
| Analysis.SplitPiecesHaveNoBreak | src/components/MarkdownEditor.tsx:89 | no piece of the split contains a break |
| Analysis.ParagraphsHaveNoBreak | src/components/MarkdownEditor.tsx:89 | no paragraph contains a line feed, blanks and a line feed |
| Analysis.SplitWithoutNewlineFrom | src/components/MarkdownEditor.tsx:89 | with no line feed left, the rest of the text is the last piece |
| Analysis.SingleParagraph | src/components/MarkdownEditor.tsx:89 | a text without line feeds is one paragraph, or none when empty |
| Analysis.SplitSkips | src/components/MarkdownEditor.tsx:89 | no break starts where there is no line feed |
| Analysis.BreakOverBlankLine | src/components/MarkdownEditor.tsx:89 | a break over blanks runs to the last line feed |
| Analysis.SplitOnce | src/components/MarkdownEditor.tsx:89 | a text with one break splits into the two pieces around it |
| Analysis.SplitAtBlankLine | src/components/MarkdownEditor.tsx:89 | two lines around a blank line split into those two lines |
| Analysis.TwoParagraphs | src/components/MarkdownEditor.tsx:89 | two non-empty lines around a blank line are two paragraphs |
| Analysis.ReadingTime | src/components/MarkdownEditor.tsx:90 | the fewest whole minutes at 200 words a minute, at least one |
| Analysis.LongUpTo | src/components/MarkdownEditor.tsx:107-111 | at most one index per sentence looked at, each naming one of them |
| Analysis.LongUpToExact | src/components/MarkdownEditor.tsx:107-111 | the long-sentence indices are exactly the sentences of more than 15 words, increasing |
| Analysis.CollectLongSentences | src/components/MarkdownEditor.tsx:107-111 | the `forEach` loop pushes exactly the indices of the sentences with more than 15 words |
| Analysis.FirstComplex | src/components/MarkdownEditor.tsx:115 | the leftmost match of `\b\w{7,}\b` at or after an offset |
| Analysis.ComplexUpTo | src/components/MarkdownEditor.tsx:114-122 | at most one flag per word looked at, each naming one of them |
| Analysis.HasComplexRunIff | src/components/MarkdownEditor.tsx:115 | a word has a run of seven or more word characters between boundaries exactly when such a run starts somewhere in it |
| Analysis.Test | src/components/MarkdownEditor.tsx:119 | `test` on a global regex: a hit moves `lastIndex` to the match end, a miss resets it to 0 |
| Analysis.ComplexStep | src/components/MarkdownEditor.tsx:118-122 | one word is flagged only if it has a long run, and exactly then when searched from its start |
| Analysis.ComplexUpToFlags | src/components/MarkdownEditor.tsx:114-122 | an index is flagged exactly when `test` hits on that word from the `lastIndex` the words before it left, and flagged indices increase |
| Analysis.ComplexUpToSound | src/components/MarkdownEditor.tsx:114-122 | flagged indices increase and each flagged word has a long run |
| Analysis.ComplexUpToFreshStart | src/components/MarkdownEditor.tsx:114-122 | a word searched from its start is flagged exactly when it has a long run |
| Analysis.SecondComplexWordMissed | src/components/MarkdownEditor.tsx:115-121 | of two equal long words in a row only the first is flagged |
| Analysis.CollectComplexWords | src/components/MarkdownEditor.tsx:114-122 | the `forEach` loop, carrying the regex's `lastIndex` from word to word, pushes exactly the flagged indices |
| Analysis.MatchEnd | src/components/MarkdownEditor.tsx:125-136 | a passive-voice or adverb match starts at a word start and ends after it, inside the text |
| Analysis.MatchTable | src/components/MarkdownEditor.tsx:125-136 | the match end for every offset |
| Analysis.MatchTableValid | src/components/MarkdownEditor.tsx:125-136 | every tabulated match ends after its start and inside the text |
| Analysis.Exec | src/components/MarkdownEditor.tsx:127-134 | `exec` finds a match at or after `lastIndex` |
| Analysis.ExecLeftmost | src/components/MarkdownEditor.tsx:127-134 | `exec` finds the leftmost match, and none when there is none |
| Analysis.MatchesFromSound | src/components/MarkdownEditor.tsx:127-129 | the pushed offsets increase and the matches do not overlap |
| Analysis.MatchesSound | src/components/MarkdownEditor.tsx:125-136 | passive and adverb offsets are match starts, increasing; none means no match anywhere |
| Analysis.Matches | src/components/MarkdownEditor.tsx:125-136 | every collected offset is inside the text and starts a match |
| Analysis.StatsOf | src/components/MarkdownEditor.tsx:87-90 | the counts of words, sentences and paragraphs, and a reading time of at least one minute that is the fewest minutes at 200 words each |
| Analysis.DetailsOf | src/components/MarkdownEditor.tsx:100-143 | every flagged sentence, word and offset lies inside its sentence list, word list or text |
| Analysis.AnalysisBounds | src/components/MarkdownEditor.tsx:85-144 | reading time is at least one, and every flagged index is within its list |
| Analysis.AnalyzeText | src/components/MarkdownEditor.tsx:85-144 | the loops compute exactly the counts and flagged positions defined above |
| Analysis.CollectMatches | src/components/MarkdownEditor.tsx:127-129 | the `exec` loop collects exactly the leftmost non-overlapping matches |
| Analysis.ExecLoop | src/components/MarkdownEditor.tsx:127-136 | the `while` loop over `exec` pushes exactly the starts of the leftmost non-overlapping matches |
| Markdown.WrapParagraph | src/components/MarkdownEditor.tsx:179-189 | a line starting with `<h`, `<li`, `<pre` or `<hr` is kept; any other is wrapped in `<p>` |
| Markdown.HeadingAt | src/components/MarkdownEditor.tsx:151-153 | a heading match starts at a line start with its marker |
| Markdown.SpanClose | src/components/MarkdownEditor.tsx:156-157 | a lazy span closes at the first closing delimiter |
| Markdown.SpanAt | src/components/MarkdownEditor.tsx:170-173 | a span match starts with its delimiter |
| Markdown.LinkAt | src/components/MarkdownEditor.tsx:160 | a link is `[`, a non-empty label, `](`, a non-empty URL and `)` |
| Markdown.LinkMatchAt | src/components/MarkdownEditor.tsx:160 | a link match starts at `[` |
| Markdown.ImageMatchAt | src/components/MarkdownEditor.tsx:163 | an image match starts at `![` |
| Markdown.BulletLineAt | src/components/MarkdownEditor.tsx:166 | a bullet-line match starts at a line start |
| Markdown.NumberedLineAt | src/components/MarkdownEditor.tsx:167 | a numbered-line match starts at a line start |
| Markdown.LastLineEnd | src/components/MarkdownEditor.tsx:176 | the furthest line end `\s*$` can reach |
| Markdown.RuleAt | src/components/MarkdownEditor.tsx:176 | a rule match starts at a line start |
| Markdown.LastInLine | src/components/MarkdownEditor.tsx:179 | the last non-terminator where `.+` can start after backtracking |
| Markdown.ParagraphEnd | src/components/MarkdownEditor.tsx:179 | a paragraph match ends at a line end |
| Markdown.ParagraphAt | src/components/MarkdownEditor.tsx:179-189 | a paragraph match starts at a line start |
| Markdown.WrapAt | src/components/MarkdownEditor.tsx:192-193 | a list-wrapping match starts with its item tag |
| Markdown.MergeAt | src/components/MarkdownEditor.tsx:196-197 | a list-merging match starts with a closing tag and is deleted |
| Markdown.MatchAt | src/components/MarkdownEditor.tsx:151-197 | every pass's match ends after it starts and inside the text, and a pass without `^` matches only where its leading literal (`**`, `*`, `[`, `![`, the fence, a backtick, an item tag, a closing list tag) occurs |
| Markdown.AnchoredAtLineStart | src/components/MarkdownEditor.tsx:151-179 | a pass anchored with `^` in multi-line mode matches only at a line start |
| Markdown.MatchTable | src/components/MarkdownEditor.tsx:151-197 | the scan's table holds the match of the pass at every offset, and every match ends after its offset |
| Markdown.ReplaceFrom | src/components/MarkdownEditor.tsx:151-197 | the global scan of `replace` copies the rest of the text unchanged when nothing from the offset on matches |
| Markdown.Apply | src/components/MarkdownEditor.tsx:151-197 | one `replace` over the whole text; empty text stays empty |
| Markdown.Render | src/components/MarkdownEditor.tsx:146-197 | the preview chain in the source's order; empty text gives an empty preview |
| MarkdownFacts.SingleLineConcat | src/components/MarkdownEditor.tsx:151 | two texts without line ends joined have none |
| MarkdownFacts.SkipNoMatch | src/components/MarkdownEditor.tsx:151-197 | offsets without a match are copied unchanged |
| MarkdownFacts.TailMatch | src/components/MarkdownEditor.tsx:151-197 | a text whose only match runs to its end keeps what comes before the match and ends with the replacement |
| MarkdownFacts.OnlyDeletion | src/components/MarkdownEditor.tsx:196-197 | a text whose only match is deleted comes out as the text around that match |
| MarkdownFacts.WholeMatch | src/components/MarkdownEditor.tsx:151-197 | a match covering the whole text is the whole output |
| MarkdownFacts.NoMatchIdentity | src/components/MarkdownEditor.tsx:151-197 | a pass that matches nowhere returns its input |
| MarkdownFacts.SingleLineAnchored | src/components/MarkdownEditor.tsx:151-179 | an anchored pass meets a one-line text only at its start |
| MarkdownFacts.MatchHasRequired | src/components/MarkdownEditor.tsx:156-197 | every match of an unanchored pass contains its key character |
| MarkdownFacts.RequiredAbsentIdentity | src/components/MarkdownEditor.tsx:156-197 | text without a pass's key character goes through that pass untouched |
| MarkdownFacts.HeadingSkipsLine | src/components/MarkdownEditor.tsx:151-153 | a line not starting with `#` is no heading |
| MarkdownFacts.HeadingOfLine | src/components/MarkdownEditor.tsx:151-153 | a marked line becomes that level's heading |
| MarkdownFacts.ShorterMarkerSkipped | src/components/MarkdownEditor.tsx:151-152 | a shorter marker is not taken by a longer level's pass |
| MarkdownFacts.HeadingMarkupLine | src/components/MarkdownEditor.tsx:151-153 | a generated heading is one line starting with `<` |
| MarkdownFacts.HeadingLine | src/components/MarkdownEditor.tsx:151-153 | after the three heading passes, a line with a marker is exactly that heading |
| MarkdownFacts.NoFourthLevel | src/components/MarkdownEditor.tsx:151-153 | `#### ` lines are left alone by all heading passes |
| MarkdownFacts.ParagraphLine | src/components/MarkdownEditor.tsx:179-189 | a one-line text goes whole to the callback, blank lines included |
| MarkdownFacts.ParagraphRewraps | src/components/MarkdownEditor.tsx:179-189 | the paragraph pass wraps its own output again |
| MarkdownFacts.BlankLinesJoinNext | src/components/MarkdownEditor.tsx:179-189 | blank lines at the start of the text and the line of text after them are wrapped as one paragraph |
| MarkdownFacts.BlankLinesAfterText | src/components/MarkdownEditor.tsx:179-189 | after a first line, blank lines and the next line of text form the second paragraph, so blank lines separate nothing |
| MarkdownFacts.TrailingBlankLines | src/components/MarkdownEditor.tsx:179-189 | blank lines at the end of the text, after a line of text, are wrapped as one paragraph of their own |
| MarkdownFacts.BlankLineBetweenLines | src/components/MarkdownEditor.tsx:179-189 | `"a\n  \nb"` gives the paragraphs `a` and `  \nb` |
| MarkdownFacts.ImageSyntaxParts | src/components/MarkdownEditor.tsx:163 | the `]` and `)` that close `![a](u)` |
| MarkdownFacts.ImageAlone | src/components/MarkdownEditor.tsx:163 | the image pass alone turns `![a](u)` into an image |
| MarkdownFacts.LinkInsideImage | src/components/MarkdownEditor.tsx:160 | the link pass takes the `[a](u)` inside `![a](u)` |
| MarkdownFacts.LinkShadowsImage | src/components/MarkdownEditor.tsx:160-163 | run in the source's order, `![a](u)` becomes `!` and a link, not an image |
| MarkdownFacts.BulletItemLine | src/components/MarkdownEditor.tsx:166 | a bullet item is one line starting with `<` |
| MarkdownFacts.RuleSkipsItem | src/components/MarkdownEditor.tsx:176 | the rule pass leaves a bullet item alone |
| MarkdownFacts.BulletMatchOfLine | src/components/MarkdownEditor.tsx:166 | the bullet pass takes a whole dash line |
| MarkdownFacts.BulletLineMatch | src/components/MarkdownEditor.tsx:166 | the bullet pass's match is the bullet-line match |
| MarkdownFacts.DashLineIsItem | src/components/MarkdownEditor.tsx:166-176 | a dash line becomes a bullet item that the rule pass keeps |
| MarkdownFacts.RuleShadowedByList | src/components/MarkdownEditor.tsx:166-176 | `---` is a rule for the rule pass, but the earlier bullet pass makes it an item |
| MarkdownFacts.RuleOfDashLine | src/components/MarkdownEditor.tsx:176 | a `---` line between blanks, on its own, becomes a horizontal rule |
| MarkdownFacts.RuleMatch | src/components/MarkdownEditor.tsx:176 | the rule pass's match is the rule match |
| MarkdownFacts.RuleMatchOfLine | src/components/MarkdownEditor.tsx:176 | a blank-padded `---` line is one rule |
| MarkdownFacts.MergeOfJoin | src/components/MarkdownEditor.tsx:196-197 | a closing tag, blanks and an opening tag are one merge match |
| MarkdownFacts.ListOpenShapes | src/components/MarkdownEditor.tsx:192-193 | the generated list tags have the shape the merge patterns expect |
| MarkdownFacts.MergeAdjacent | src/components/MarkdownEditor.tsx:196-197 | a closing list tag, blanks and an opening tag of the same kind are deleted together |
| MarkdownFacts.MergeInText | src/components/MarkdownEditor.tsx:196-197 | in a text made of two lists with blanks between them, only the junction matches, so the items of both end up under one pair of tags |
| MarkdownFacts.MergeNeighbourLists | src/components/MarkdownEditor.tsx:196-197 | two bullet lists, or two numbered lists, separated only by blanks become one list holding the items of both, as long as neither holds a closing tag of its own |
| Drafts.WithoutTag | src/pages/NewGuide.tsx:55 | removing a tag removes every copy of it, keeps the others and keeps the list free of duplicates |
| Drafts.FilterOutTag | src/pages/NewGuide.tsx:55 | removing a present tag shortens the list and keeps it free of duplicates |
| Drafts.ToggleTag | src/pages/NewGuide.tsx:53-58 | a selected tag is removed and an unselected one appended; other tags keep their membership |
| Drafts.ToggleTwice | src/pages/GuideEditor.tsx:73-78 | toggling twice restores an unselected tag's list, and moves a selected tag to the end |
| Drafts.AppendSection | src/pages/NewGuide.tsx:72-87 | adding appends one default section and keeps the others |
| Drafts.InsertSectionAfter | src/pages/NewGuide.tsx:669-678 | `splice(index + 1, 0, section)` puts the new section right after `index` |
| Drafts.InsertAfterLastIsAppend | src/pages/NewGuide.tsx:669-678 | inserting after the last section is adding one |
| Drafts.KeepOthersIs | src/pages/NewGuide.tsx:94 | the index filter drops exactly the position `index` |
| Drafts.RemoveSection | src/pages/NewGuide.tsx:89-96 | one section or none is refused; otherwise exactly position `index` goes and the order stays |
| Drafts.Swapped | src/pages/NewGuide.tsx:639-668 | the move buttons exchange two sections and keep the others in place |
| Drafts.SwapKeepsSections | src/pages/NewGuide.tsx:641-659 | a swap keeps the same sections and undoes itself |
| Drafts.SwapSections | src/pages/NewGuide.tsx:641-644 | the destructuring swap on a copy gives the swapped list |
| Drafts.SetSectionTitle | src/pages/NewGuide.tsx:60-64 | only that section's title changes |
| Drafts.SetSectionContent | src/pages/NewGuide.tsx:66-70 | only that section's body changes |
| Drafts.ValidateForm | src/pages/NewGuide.tsx:98-112 | each check fails exactly when the fields before it pass and its field is blank or empty |
| Drafts.ValidationAlert | src/pages/NewGuide.tsx:98-111 | the alert shown is the title message exactly when the title is blank, the cover message exactly when only the cover is blank, the tag message exactly when only the tags are missing, and none for a valid form |
| Drafts.ValidateFormTrims | src/pages/NewGuide.tsx:98-112 | the checks written with `trim()` give the same first error as the blank tests |
| Drafts.ClickStep | src/pages/NewGuide.tsx:264-277 | a click never moves forward: it goes to the clicked step exactly when that step is the current one or an earlier one, and stays otherwise |
| Drafts.NextStep | src/pages/NewGuide.tsx:126-131 | "next" moves one step forward exactly when the step is not the last, and never past it |
| Drafts.PrevStep | src/pages/NewGuide.tsx:133-138 | "back" moves one step back exactly when the step is not the first |
| Drafts.StepsStayInRange | src/pages/NewGuide.tsx:126-138 | any sequence of steps stays within the three steps and never passes the number of "next" presses |
| Pages.NewGuidePage.constructor | src/pages/NewGuide.tsx:25-42 | the wizard starts on step 0 with an empty form and one section |
| Pages.NewGuidePage.HandleTitleChange | src/pages/NewGuide.tsx:44-46 | only the title changes |
| Pages.NewGuidePage.HandleImageChange | src/pages/NewGuide.tsx:48-51 | the cover image and its preview follow the input |
| Pages.NewGuidePage.HandleTagToggle | src/pages/NewGuide.tsx:53-58 | the tags are toggled and stay free of duplicates |
| Pages.NewGuidePage.HandleSectionTitleChange | src/pages/NewGuide.tsx:60-64 | one section's title changes |
| Pages.NewGuidePage.HandleSectionContentChange | src/pages/NewGuide.tsx:66-70 | one section's body changes |
| Pages.NewGuidePage.AddNewSection | src/pages/NewGuide.tsx:72-87 | a default section is appended |
| Pages.NewGuidePage.RemoveSection | src/pages/NewGuide.tsx:89-96 | the last section cannot go and the alert says so; the guide always keeps a section |
| Pages.NewGuidePage.MoveUp | src/pages/NewGuide.tsx:639-653 | a section swaps with the one above |
| Pages.NewGuidePage.MoveDown | src/pages/NewGuide.tsx:654-668 | a section swaps with the one below |
| Pages.NewGuidePage.InsertAfter | src/pages/NewGuide.tsx:669-678 | a default section is inserted below |
| Pages.NewGuidePage.InsertMarkdown | src/pages/NewGuide.tsx:201-234 | the section's body is spliced at the selection, or appended to without a text area |
| Pages.NewGuidePage.NextStep | src/pages/NewGuide.tsx:126-131 | the step advances unless it is the last |
| Pages.NewGuidePage.PrevStep | src/pages/NewGuide.tsx:133-138 | the step goes back unless it is the first |
| Pages.NewGuidePage.ClickStep | src/pages/NewGuide.tsx:264-277 | a click on a later step is refused |
| Pages.NewGuidePage.Save | src/pages/NewGuide.tsx:114-124 | saving starts only when the form is valid; otherwise the first failing check is reported and its message is the alert shown |
| Pages.GuideEditorPage.constructor | src/pages/GuideEditor.tsx:51-53 | the editor starts loading |
| Pages.GuideEditorPage.Load | src/pages/GuideEditor.tsx:56-63 | loading shows the fetched guide |
| Pages.GuideEditorPage.HandleTitleChange | src/pages/GuideEditor.tsx:65-67 | only the title changes |
| Pages.GuideEditorPage.HandleImageChange | src/pages/GuideEditor.tsx:69-71 | only the cover image changes |
| Pages.GuideEditorPage.HandleTagToggle | src/pages/GuideEditor.tsx:73-78 | the tags are toggled |
| Pages.GuideEditorPage.HandleSectionTitleChange | src/pages/GuideEditor.tsx:80-84 | one section's title changes |
| Pages.GuideEditorPage.HandleSectionContentChange | src/pages/GuideEditor.tsx:86-90 | one section's body changes |
| Pages.GuideEditorPage.AddNewSection | src/pages/GuideEditor.tsx:92-102 | a default section is appended |
| Pages.GuideEditorPage.RemoveSection | src/pages/GuideEditor.tsx:104-111 | the last section cannot go; a guide with sections keeps one |
| Pages.GuideEditorPage.Save | src/pages/GuideEditor.tsx:113-121 | saving starts without validation |
| Editor.MarkdownEditor.constructor | src/components/MarkdownEditor.tsx:23-45 | the editor shows the content with its analysis |
| Editor.MarkdownEditor.Reanalyze | src/components/MarkdownEditor.tsx:43-45 | the analysis is recomputed for the current text |
| Editor.MarkdownEditor.SyncContent | src/components/MarkdownEditor.tsx:39-41 | a new `content` prop replaces the text |
| Editor.MarkdownEditor.HandleChange | src/components/MarkdownEditor.tsx:47-51 | the typed text is kept and reported to the parent |
| Editor.MarkdownEditor.InsertMarkdown | src/components/MarkdownEditor.tsx:53-83 | without a text area nothing happens; otherwise the text is spliced, reported and the cursor moved |
| Editor.MarkdownEditor.TogglePreview | src/components/MarkdownEditor.tsx:316 | the preview toggles and the text stays |
| Editor.MarkdownEditor.Preview | src/components/MarkdownEditor.tsx:146-197 | the pane shows the rendered text; an empty editor shows an empty pane |
| Listings.FilterGuides | src/pages/Guides.tsx:81-86 | exactly the guides with the tag and the case-insensitive term in title or excerpt |
| Listings.FilterDestinations | src/pages/Destinations.tsx:62-67 | exactly the destinations of the category with the case-insensitive term in name or country |
| Listings.EmptyTermMatches | src/pages/Guides.tsx:83 | every text contains the empty term |
| Listings.FiltersKeepOrder | src/pages/Destinations.tsx:62-67 | both filters keep list order |
| Listings.ResetShowsAll | src/pages/Destinations.tsx:153 | "全部" and an empty term show every guide and destination |
| Listings.SelectionNarrows | src/pages/Guides.tsx:82-85 | choosing a tag or category only narrows the search-only result |
| Listings.LowerIdempotent | src/pages/Destinations.tsx:64-65 | lower-casing twice is lower-casing once |
| Listings.SearchIgnoresCase | src/pages/Destinations.tsx:64-65 | the filters ignore the case of the term |
| Listings.AllTags | src/pages/Guides.tsx:75 | every used tag, once each, and nothing else |
| Listings.TagsOfFlattened | src/pages/Guides.tsx:75 | the tag list has every tag of every guide and only those |
| Errors.MessageInjective | backend/src/error.rs:7-16 | different errors display differently |
| Errors.Message | backend/src/error.rs:8-15 | "Guide not found" for a missing guide, and the fixed prefix followed by the detail for the other two errors |
| Errors.InternalError | backend/src/error.rs:21-23 | `internal_error` is an internal error with the fixed text |
| Errors.HandleRejection | backend/src/error.rs:25-46 | 404 exactly for a missing route or guide, 400 for invalid input, 500 otherwise, with the error's own text |
| Errors.NotFoundRepliesDiffer | backend/src/error.rs:26-31 | a missing route and a missing guide share 404 but not the text |
| Db.IndexOfId | backend/src/db.rs:43 | `position` finds the first guide with the id, or none |
| Db.Lookup | backend/src/db.rs:31-38 | `get_guide` returns a stored guide with the id, or `GuideNotFound` exactly when none has it |
| Db.AfterUpdate | backend/src/db.rs:43-45 | the first guide with the id is replaced and all others stay where they were; without one nothing changes |
| Db.AfterDelete | backend/src/db.rs:54-55 | the first guide with the id is removed and the later ones move down by one; without one nothing changes |
| Db.CreateThenGet | backend/src/db.rs:19-25 | a guide with a fresh id reads back after it is appended, and the other guides are unaffected |
| Db.CreateKeepsUnique | backend/src/db.rs:19-25 | appending a guide with a fresh id keeps ids distinct |
| Db.IndexOfIdAppend | backend/src/db.rs:23 | appending does not move an earlier match |
| Db.UpdateThenGet | backend/src/db.rs:40-49 | an update keeps ids distinct and reads back; other guides are unaffected |
| Db.SameIdsElsewhere | backend/src/db.rs:43 | a change elsewhere does not move the search for an id |
| Db.DeleteThenGet | backend/src/db.rs:51-60 | after a delete the guide is gone and others unaffected, with distinct ids |
| Db.DeleteRemovesFirstOnly | backend/src/db.rs:54-55 | when an id is held at positions i < j and nowhere else before j, a delete removes position i and the guide from j is found next |
| Db.Store.constructor | backend/src/db.rs:13-17 | a new store is empty |
| Db.Store.Position | backend/src/db.rs:43 | the scan finds the first guide with the id |
| Db.Store.CreateGuide | backend/src/db.rs:19-25 | the guide is stored under the store's fresh id and returned |
| Db.Store.GetGuides | backend/src/db.rs:27-29 | all guides, in order |
| Db.Store.GetGuide | backend/src/db.rs:31-38 | the lookup result |
| Db.Store.UpdateGuide | backend/src/db.rs:40-49 | the first match is replaced, or `GuideNotFound` with no change |
| Db.Store.DeleteGuide | backend/src/db.rs:51-60 | the first match is removed, or `GuideNotFound` with no change |
| Handlers.BuildGuide | backend/src/handlers.rs:14-22 | the guide carries the request's fields, the new id and the two clock readings |
| Handlers.OrElse | backend/src/handlers.rs:67-70 | `unwrap_or`: the request's field when present, the stored value otherwise |
| Handlers.MergeUpdate | backend/src/handlers.rs:65-73 | the id is the requested one, the creation time is kept, the update time is now |
| Handlers.EmptyUpdateKeepsGuide | backend/src/handlers.rs:65-73 | an empty request changes only the update time |
| Handlers.FullUpdateReplaces | backend/src/handlers.rs:65-73 | a full request replaces every content field |
| Handlers.UpdateIdempotent | backend/src/handlers.rs:65-73 | repeating a request changes nothing but the update time |
| Handlers.CreateGuide | backend/src/handlers.rs:11-31 | the stored and returned guide carries the store's id, not the handler's |
| Handlers.GetGuides | backend/src/handlers.rs:34-39 | all stored guides |
| Handlers.GetGuide | backend/src/handlers.rs:42-52 | the guide with the id, or a rejection that becomes 404 "Guide not found" |
| Handlers.UpdateGuide | backend/src/handlers.rs:55-82 | a missing guide is rejected unchanged; otherwise the merged guide is stored and returned |
| Handlers.DeleteGuide | backend/src/handlers.rs:85-95 | a confirmation exactly when a guide had the id, else `GuideNotFound` |
| Handlers.UpdateThenRead | backend/src/handlers.rs:55-82 | after a successful update the merged guide reads back |

## Left out

- Strings are sequences of characters. JavaScript offsets count UTF-16 code units, and the two agree only for text inside the Basic Multilingual Plane.
- Text.Lower: `toLowerCase` is modelled for ASCII letters only. Other characters map to themselves. Full Unicode case mapping is not modelled.
- `\w` and `\b` are ASCII, as in JavaScript without the `u` flag. `\s` is the full JavaScript whitespace set.
- Insertion.FillTemplate: the selected text and the placeholder are inserted literally. `replace` would interpret `$$`, `$&`, `` $` `` and `$'` inside them.
- Pages.NewGuidePage.HandleSectionTitleChange, Pages.NewGuidePage.HandleSectionContentChange and the GuideEditorPage versions require the index to name a section. The page only calls them for rendered sections, and an index past the end throws in the source.
- Pages.NewGuidePage.MoveUp, Pages.NewGuidePage.MoveDown and Pages.NewGuidePage.InsertAfter require an index whose button is shown.
- Pages.NewGuidePage.InsertMarkdown requires an existing section and a selection inside the text area. The source reads both from the page.
- Section objects are values. The source copies the list shallowly and then assigns into a section object, which the previous state shares. This aliasing is not modelled.
- Editor.MarkdownEditor: the effect that re-analyses the text runs as part of each change. The all-zero statistics shown before the first effect are not modelled.
- Pages.GuideEditorPage.Load takes the fetched guide as a parameter. The editor's sample data and its other fields (author, date, likes) are not modelled.
- Timers and browser actions are left out: `setTimeout` delays, `alert` dialogs (returned as values instead), focus, scrolling, navigation, and the end of saving.
- The preview-mode toggle of the wizard and its image preview are view state.
- Handlers.CreateGuide, Handlers.UpdateGuide: `Uuid::new_v4` and `Utc::now` are parameters.
- The global `store()` singleton is a `Store` parameter.
- The service's read-write lock is not modelled. So is concurrency in general, including an update that reads and then writes under two separate lock acquisitions.
- JSON serialization, serde defaults, routing (`routes.rs`) and logging are not modelled.
- Rejections from the web framework other than "not found", such as a body that fails to parse, are modelled as one `Other` case, which answers 500.
- Markdown.Render: beyond the empty text, the whole chain is stated through lemmas about its passes and their pairwise interaction, not through one lemma about every input.
- The chat page, the home page, the detail pages and the navigation components are not part of this model.
