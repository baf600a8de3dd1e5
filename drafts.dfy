/** The guide being written or edited in src/pages/NewGuide.tsx and
    src/pages/GuideEditor.tsx: its tags, its list of sections, the checks made
    before saving, and the three-step wizard of the new-guide page. The
    handlers of both pages build their new state with these functions. */
module Drafts {
  import opened Text
  import opened Options
  import opened Sequences
  import opened Sections

  const SECTION_KIND := "section"
  const DEFAULT_SECTION_CONTENT := "在这里添加内容..."

  /** The one section a new guide starts with. */
  function FirstSection(): Section {
    Section(SECTION_KIND, "章节标题", DEFAULT_SECTION_CONTENT)
  }

  /** The section that adding or inserting creates. */
  function NewSection(): Section {
    Section(SECTION_KIND, "新章节标题", DEFAULT_SECTION_CONTENT)
  }

  /** The fields of the page's `guide` state that its handlers change. */
  datatype Draft = Draft(title: string, mainImage: string, tags: seq<string>, content: seq<Section>)

  function InitialDraft(): Draft {
    Draft("", "", [], [FirstSection()])
  }

  // ---------------------------------------------------------------------
  // Tags

  /** The test `(t) => t !== tag` of the filter that removes a tag. */
  function OtherThan(tag: string): string -> bool {
    t => t != tag
  }

  /** `tags.filter((t) => t !== tag)` */
  function WithoutTag(tags: seq<string>, tag: string): (r: seq<string>)
    ensures tag !in r
    ensures forall t :: t != tag ==> (t in r <==> t in tags)
    ensures NoDuplicates(tags) ==> NoDuplicates(r)
    ensures tag in tags ==> |r| < |tags|
  {
    FilterOutTag(tags, tag);
    Filter(tags, OtherThan(tag))
  }

  lemma FilterOutTag(tags: seq<string>, tag: string)
    ensures NoDuplicates(tags) ==> NoDuplicates(Filter(tags, OtherThan(tag)))
    ensures tag in tags ==> |Filter(tags, OtherThan(tag))| < |tags|
  {
    if NoDuplicates(tags) {
      FilterNoDuplicates(tags, OtherThan(tag));
    }
    if tag in tags {
      var k :| 0 <= k < |tags| && tags[k] == tag;
      FilterDropsRejected(tags, OtherThan(tag), k);
    }
  }

  /** `handleTagToggle`: a selected tag is removed, wherever it is, and an
      unselected one is appended; a list without duplicates keeps none. */
  function ToggleTag(tags: seq<string>, tag: string): (r: seq<string>)
    ensures tag in r <==> tag !in tags
    ensures forall t :: t != tag ==> (t in r <==> t in tags)
    ensures tag !in tags ==> r == tags + [tag]
    ensures tag in tags ==> |r| < |tags|
    ensures NoDuplicates(tags) ==> NoDuplicates(r)
  {
    if tag in tags then WithoutTag(tags, tag) else tags + [tag]
  }

  /** Toggling an unselected tag twice gives the list back; toggling a
      selected one twice moves it to the end. */
  lemma ToggleTwice(tags: seq<string>, tag: string)
    ensures tag !in tags ==> ToggleTag(ToggleTag(tags, tag), tag) == tags
    ensures tag in tags ==> ToggleTag(ToggleTag(tags, tag), tag) == WithoutTag(tags, tag) + [tag]
  {
    if tag !in tags {
      FilterConcat(tags, [tag], OtherThan(tag));
      FilterKeepsAll(tags, OtherThan(tag));
      assert Filter([tag], OtherThan(tag)) == [];
    }
  }

  // ---------------------------------------------------------------------
  // Sections

  /** `addNewSection`: one default section more, at the end. */
  function AppendSection(content: seq<Section>): (r: seq<Section>)
    ensures |r| == |content| + 1 && r[..|content|] == content && r[|content|] == NewSection()
  {
    content + [NewSection()]
  }

  /** The insert-after button: `splice(index + 1, 0, section)`. */
  function InsertSectionAfter(content: seq<Section>, index: nat): (r: seq<Section>)
    requires index < |content|
    ensures |r| == |content| + 1 && r[index + 1] == NewSection()
    ensures r[..index + 1] == content[..index + 1] && r[index + 2..] == content[index + 1..]
  {
    content[..index + 1] + [NewSection()] + content[index + 1..]
  }

  /** Inserting after the last section is adding one. */
  lemma InsertAfterLastIsAppend(content: seq<Section>)
    requires content != []
    ensures InsertSectionAfter(content, |content| - 1) == AppendSection(content)
  {
    assert content[..|content|] == content;
  }

  /** `content.filter((_, i) => i !== index)`, from position `from` on. */
  function KeepOthers(content: seq<Section>, index: nat, from: nat): seq<Section>
    requires from <= |content|
    decreases |content| - from
  {
    if from == |content| then []
    else (if from != index then [content[from]] else []) + KeepOthers(content, index, from + 1)
  }

  lemma KeepOthersIs(content: seq<Section>, index: nat, from: nat)
    requires from <= |content|
    ensures index < from || index >= |content| ==> KeepOthers(content, index, from) == content[from..]
    ensures from <= index < |content| ==>
      KeepOthers(content, index, from) == content[from..index] + content[index + 1..]
  {
    if index < from || index >= |content| {
      KeepOthersPast(content, index, from);
    } else {
      KeepOthersBefore(content, index, from);
    }
  }

  /** With `index` behind `from` or out of range, nothing more is left out. */
  lemma {:induction false} KeepOthersPast(content: seq<Section>, index: nat, from: nat)
    requires from <= |content| && (index < from || index >= |content|)
    ensures KeepOthers(content, index, from) == content[from..]
    decreases |content| - from
  {
    if from < |content| {
      KeepOthersPast(content, index, from + 1);
      assert KeepOthers(content, index, from) == [content[from]] + content[from + 1..];
      assert content[from..] == [content[from]] + content[from + 1..];
    }
  }

  /** With `index` still ahead, exactly the section there is left out. */
  lemma {:induction false} KeepOthersBefore(content: seq<Section>, index: nat, from: nat)
    requires from <= index < |content|
    ensures KeepOthers(content, index, from) == content[from..index] + content[index + 1..]
    decreases index - from
  {
    if from == index {
      KeepOthersPast(content, index, from + 1);
      assert content[from..index] == [];
    } else {
      KeepOthersBefore(content, index, from + 1);
      ConsSlice(content, from, index, content[index + 1..]);
    }
  }

  /** `removeSection`: refused, with an alert, when one section or none is
      left; otherwise exactly the section at `index` goes and the others keep
      their order (an index past the end removes nothing). */
  function RemoveSection(content: seq<Section>, index: nat): (r: Option<seq<Section>>)
    ensures r.None? <==> |content| <= 1
    ensures r.Some? && index < |content| ==>
      |r.value| == |content| - 1 && r.value == content[..index] + content[index + 1..]
    ensures r.Some? && index >= |content| ==> r.value == content
    ensures r.Some? ==> |r.value| >= 1
  {
    if |content| <= 1 then None
    else
      KeepOthersIs(content, index, 0);
      Some(KeepOthers(content, index, 0))
  }

  const KEEP_ONE_ALERT := "至少需要保留一个章节"

  /** The move buttons: `[c[i], c[j]] = [c[j], c[i]]`. */
  function Swapped(content: seq<Section>, i: nat, j: nat): (r: seq<Section>)
    requires i < |content| && j < |content|
    ensures |r| == |content| && r[i] == content[j] && r[j] == content[i]
    ensures forall k :: 0 <= k < |r| && k != i && k != j ==> r[k] == content[k]
  {
    content[i := content[j]][j := content[i]]
  }

  /** A swap loses no section and duplicates none, and swapping again undoes it. */
  lemma SwapKeepsSections(content: seq<Section>, i: nat, j: nat)
    requires i < |content| && j < |content|
    ensures multiset(Swapped(content, i, j)) == multiset(content)
    ensures Swapped(Swapped(content, i, j), i, j) == content
  {
    if i != j {
      var once := content[i := content[j]];
      assert once[j] == content[j];
      assert multiset(once) == multiset(content) - multiset{content[i]} + multiset{content[j]};
      assert multiset(Swapped(content, i, j)) == multiset(once) - multiset{content[j]} + multiset{content[i]};
    }
  }

  /** The swap, done as the page does it: on a copy of the list. */
  method SwapSections(content: seq<Section>, i: nat, j: nat) returns (r: seq<Section>)
    requires i < |content| && j < |content|
    ensures r == Swapped(content, i, j)
  {
    var copy := new Section[|content|](k requires 0 <= k < |content| => content[k]);
    copy[i], copy[j] := copy[j], copy[i];
    r := copy[..];
  }

  /** `newContent[index].title = value`: only that section's title changes. */
  function SetSectionTitle(content: seq<Section>, index: nat, value: string): (r: seq<Section>)
    requires index < |content|
    ensures |r| == |content| && r[index].title == value
    ensures r[index].kind == content[index].kind && r[index].content == content[index].content
    ensures forall k :: 0 <= k < |r| && k != index ==> r[k] == content[k]
  {
    content[index := content[index].(title := value)]
  }

  /** `newContent[index].content = value`: only that section's body changes. */
  function SetSectionContent(content: seq<Section>, index: nat, value: string): (r: seq<Section>)
    requires index < |content|
    ensures |r| == |content| && r[index].content == value
    ensures r[index].kind == content[index].kind && r[index].title == content[index].title
    ensures forall k :: 0 <= k < |r| && k != index ==> r[k] == content[k]
  {
    content[index := content[index].(content := value)]
  }

  // ---------------------------------------------------------------------
  // Validation before saving

  /** The first check that fails, each shown as an alert. */
  datatype FormError = MissingTitle | MissingMainImage | MissingTags

  function AlertMessage(e: FormError): string {
    match e
    case MissingTitle => "请输入攻略标题"
    case MissingMainImage => "请输入封面图片 URL"
    case MissingTags => "请至少选择一个标签"
  }

  /** `validateForm`: the title, then the cover image, then the tags; the
      form is valid when none fails. A text field fails when it is blank,
      which is what the page's `!field.trim()` tests (`ValidateFormTrims`). */
  function ValidateForm(d: Draft): (r: Option<FormError>)
    ensures r.None? <==> !IsBlank(d.title) && !IsBlank(d.mainImage) && d.tags != []
    ensures r == Some(MissingTitle) <==> IsBlank(d.title)
    ensures r == Some(MissingMainImage) <==> !IsBlank(d.title) && IsBlank(d.mainImage)
    ensures r == Some(MissingTags) <==> !IsBlank(d.title) && !IsBlank(d.mainImage) && d.tags == []
  {
    if IsBlank(d.title) then Some(MissingTitle)
    else if IsBlank(d.mainImage) then Some(MissingMainImage)
    else if |d.tags| == 0 then Some(MissingTags)
    else None
  }

  /** The alert `validateForm` shows, if any: one message per failed check,
      and none for a valid form. */
  function ValidationAlert(d: Draft): (alert: Option<string>)
    ensures alert.None? <==> !IsBlank(d.title) && !IsBlank(d.mainImage) && d.tags != []
    ensures alert == Some("请输入攻略标题") <==> IsBlank(d.title)
    ensures alert == Some("请输入封面图片 URL") <==> !IsBlank(d.title) && IsBlank(d.mainImage)
    ensures alert == Some("请至少选择一个标签") <==> !IsBlank(d.title) && !IsBlank(d.mainImage) && d.tags == []
  {
    match ValidateForm(d)
    case None => None
    case Some(e) => Some(AlertMessage(e))
  }

  /** The checks written with `trim()`, as the page writes them, give the
      same answer. */
  lemma ValidateFormTrims(d: Draft)
    ensures ValidateForm(d) ==
      if Trim(d.title) == "" then Some(MissingTitle)
      else if Trim(d.mainImage) == "" then Some(MissingMainImage)
      else if |d.tags| == 0 then Some(MissingTags)
      else None
  {
    TrimEmptyIffBlank(d.title);
    TrimEmptyIffBlank(d.mainImage);
  }

  // ---------------------------------------------------------------------
  // The wizard's steps: basic information, tags, content.

  const LAST_STEP: nat := 2

  /** `nextStep`: one step forward, but never past the last step. */
  function NextStep(active: nat): (r: nat)
    ensures active <= r <= active + 1
    ensures r == active + 1 <==> active < LAST_STEP
    ensures active <= LAST_STEP ==> r <= LAST_STEP
  {
    if active < LAST_STEP then active + 1 else active
  }

  /** `prevStep`: one step back, but never before the first step. */
  function PrevStep(active: nat): (r: nat)
    ensures r <= active && active <= r + 1
    ensures r + 1 == active <==> active > 0
  {
    if active > 0 then active - 1 else active
  }

  /** A click on step `index`: only the current step or an earlier one is accepted. */
  function ClickStep(active: nat, index: nat): (r: nat)
    ensures r <= active
    ensures r == active || r == index
    ensures r == index <==> index <= active
  {
    if index > active then active else index
  }

  datatype StepEvent = Next | Prev | Click(index: nat)

  function ApplyStep(active: nat, e: StepEvent): nat {
    match e
    case Next => NextStep(active)
    case Prev => PrevStep(active)
    case Click(index) => ClickStep(active, index)
  }

  function RunSteps(active: nat, events: seq<StepEvent>): nat
    decreases |events|
  {
    if events == [] then active else RunSteps(ApplyStep(active, events[0]), events[1..])
  }

  function CountNext(events: seq<StepEvent>): nat {
    if events == [] then 0 else (if events[0].Next? then 1 else 0) + CountNext(events[1..])
  }

  /** Whatever the user does, the wizard stays on one of its three steps, and
      only "next" moves it forward: it never gets further ahead than the
      number of "next" presses. */
  lemma {:induction false} StepsStayInRange(active: nat, events: seq<StepEvent>)
    requires active <= LAST_STEP
    ensures RunSteps(active, events) <= LAST_STEP
    ensures RunSteps(active, events) <= active + CountNext(events)
    decreases |events|
  {
    if events != [] {
      StepsStayInRange(ApplyStep(active, events[0]), events[1..]);
    }
  }
}
