/** The state of the two guide-writing pages and their event handlers: the
    three-step wizard of src/pages/NewGuide.tsx and the editor of an existing
    guide in src/pages/GuideEditor.tsx. Each `setGuide` or `setActiveStep` of
    a handler is an update of the page's fields. */
module Pages {
  import opened Options
  import opened Sequences
  import opened Sections
  import opened Insertion
  import opened Drafts

  /** The selection of a section's text area, which the browser keeps ordered. */
  datatype Selection = Selection(start: nat, end: nat)

  class NewGuidePage {
    var draft: Draft
    var activeStep: nat
    var previewImage: string
    var saving: bool

    /** The wizard is on one of its three steps and the guide keeps at least
        one section. */
    predicate Valid()
      reads this
    {
      activeStep <= LAST_STEP && |draft.content| >= 1
    }

    constructor()
      ensures Valid()
      ensures draft == InitialDraft() && activeStep == 0 && previewImage == "" && !saving
    {
      draft := InitialDraft();
      activeStep := 0;
      previewImage := "";
      saving := false;
    }

    /** `handleTitleChange` */
    method HandleTitleChange(value: string)
      requires Valid()
      modifies this
      ensures Valid()
      ensures draft == old(draft).(title := value)
      ensures activeStep == old(activeStep) && previewImage == old(previewImage) && saving == old(saving)
    {
      draft := draft.(title := value);
    }

    /** `handleImageChange`: the cover image and its preview follow the input. */
    method HandleImageChange(value: string)
      requires Valid()
      modifies this
      ensures Valid()
      ensures draft == old(draft).(mainImage := value) && previewImage == value
      ensures activeStep == old(activeStep) && saving == old(saving)
    {
      draft := draft.(mainImage := value);
      previewImage := value;
    }

    /** `handleTagToggle`: a list of tags without duplicates stays so. */
    method HandleTagToggle(tag: string)
      requires Valid()
      modifies this
      ensures Valid()
      ensures draft == old(draft).(tags := ToggleTag(old(draft.tags), tag))
      ensures tag in draft.tags <==> tag !in old(draft.tags)
      ensures NoDuplicates(old(draft.tags)) ==> NoDuplicates(draft.tags)
      ensures activeStep == old(activeStep) && previewImage == old(previewImage) && saving == old(saving)
    {
      draft := draft.(tags := ToggleTag(draft.tags, tag));
    }

    /** `handleSectionTitleChange`, called for a section on the page. */
    method HandleSectionTitleChange(index: nat, value: string)
      requires Valid() && index < |draft.content|
      modifies this
      ensures Valid()
      ensures draft == old(draft).(content := SetSectionTitle(old(draft.content), index, value))
      ensures activeStep == old(activeStep) && previewImage == old(previewImage) && saving == old(saving)
    {
      draft := draft.(content := SetSectionTitle(draft.content, index, value));
    }

    /** `handleSectionContentChange`, called for a section on the page. */
    method HandleSectionContentChange(index: nat, value: string)
      requires Valid() && index < |draft.content|
      modifies this
      ensures Valid()
      ensures draft == old(draft).(content := SetSectionContent(old(draft.content), index, value))
      ensures activeStep == old(activeStep) && previewImage == old(previewImage) && saving == old(saving)
    {
      draft := draft.(content := SetSectionContent(draft.content, index, value));
    }

    /** `addNewSection` */
    method AddNewSection()
      requires Valid()
      modifies this
      ensures Valid()
      ensures draft == old(draft).(content := AppendSection(old(draft.content)))
      ensures activeStep == old(activeStep) && previewImage == old(previewImage) && saving == old(saving)
    {
      draft := draft.(content := AppendSection(draft.content));
    }

    /** `removeSection`: the last remaining section cannot go; trying shows an
        alert and changes nothing. */
    method RemoveSection(index: nat) returns (alert: Option<string>)
      requires Valid()
      modifies this
      ensures Valid()
      ensures alert.Some? <==> |old(draft.content)| <= 1
      ensures alert.Some? ==> alert.value == KEEP_ONE_ALERT && draft == old(draft)
      ensures alert.None? ==> draft == old(draft).(content := Drafts.RemoveSection(old(draft.content), index).value)
      ensures activeStep == old(activeStep) && previewImage == old(previewImage) && saving == old(saving)
    {
      var r := Drafts.RemoveSection(draft.content, index);
      if r.None? {
        alert := Some(KEEP_ONE_ALERT);
      } else {
        alert := None;
        draft := draft.(content := r.value);
      }
    }

    /** The "move up" button, shown for every section but the first. */
    method MoveUp(index: nat)
      requires Valid() && 0 < index < |draft.content|
      modifies this
      ensures Valid()
      ensures draft == old(draft).(content := Swapped(old(draft.content), index, index - 1))
      ensures activeStep == old(activeStep) && previewImage == old(previewImage) && saving == old(saving)
    {
      var moved := SwapSections(draft.content, index, index - 1);
      draft := draft.(content := moved);
    }

    /** The "move down" button, shown for every section but the last. */
    method MoveDown(index: nat)
      requires Valid() && index + 1 < |draft.content|
      modifies this
      ensures Valid()
      ensures draft == old(draft).(content := Swapped(old(draft.content), index, index + 1))
      ensures activeStep == old(activeStep) && previewImage == old(previewImage) && saving == old(saving)
    {
      var moved := SwapSections(draft.content, index, index + 1);
      draft := draft.(content := moved);
    }

    /** The "add below" button of a section. */
    method InsertAfter(index: nat)
      requires Valid() && index < |draft.content|
      modifies this
      ensures Valid()
      ensures draft == old(draft).(content := InsertSectionAfter(old(draft.content), index))
      ensures activeStep == old(activeStep) && previewImage == old(previewImage) && saving == old(saving)
    {
      draft := draft.(content := InsertSectionAfter(draft.content, index));
    }

    /** `insertMarkdown` of the section editor. The section's text area shows
        the section's body; `textarea` is its selection, or `None` when no text
        area with the section's id is on the page. The result is where the
        cursor is put, when there is a text area. */
    method InsertMarkdown(index: nat, syntax: string, placeholder: string, textarea: Option<Selection>)
      returns (cursor: Option<int>)
      requires Valid() && index < |draft.content|
      requires textarea.Some? ==> textarea.value.start <= textarea.value.end <= |draft.content[index].content|
      modifies this
      ensures Valid()
      ensures textarea.Some? ==>
        var e := SectionInsert(old(draft.content[index].content), textarea.value.start, textarea.value.end, syntax, placeholder);
        draft == old(draft).(content := SetSectionContent(old(draft.content), index, e.text))
        && cursor == Some(e.cursor)
      ensures textarea.None? ==>
        draft == old(draft).(content := SetSectionContent(old(draft.content), index,
                                          SectionAppend(old(draft.content[index].content), syntax, placeholder)))
        && cursor == None
      ensures activeStep == old(activeStep) && previewImage == old(previewImage) && saving == old(saving)
    {
      var text := draft.content[index].content;
      var updated: string;
      match textarea {
        case Some(sel) =>
          var e := SectionInsert(text, sel.start, sel.end, syntax, placeholder);
          updated, cursor := e.text, Some(e.cursor);
        case None =>
          updated, cursor := SectionAppend(text, syntax, placeholder), None;
      }
      draft := draft.(content := SetSectionContent(draft.content, index, updated));
    }

    /** `nextStep` */
    method NextStep()
      requires Valid()
      modifies this
      ensures Valid()
      ensures activeStep == Drafts.NextStep(old(activeStep))
      ensures old(activeStep) < LAST_STEP ==> activeStep == old(activeStep) + 1
      ensures draft == old(draft) && previewImage == old(previewImage) && saving == old(saving)
    {
      activeStep := Drafts.NextStep(activeStep);
    }

    /** `prevStep` */
    method PrevStep()
      requires Valid()
      modifies this
      ensures Valid()
      ensures activeStep == Drafts.PrevStep(old(activeStep))
      ensures old(activeStep) > 0 ==> activeStep == old(activeStep) - 1
      ensures draft == old(draft) && previewImage == old(previewImage) && saving == old(saving)
    {
      activeStep := Drafts.PrevStep(activeStep);
    }

    /** A click on the step indicator: a later step is refused. */
    method ClickStep(index: nat)
      requires Valid()
      modifies this
      ensures Valid()
      ensures activeStep == Drafts.ClickStep(old(activeStep), index)
      ensures index <= old(activeStep) ==> activeStep == index
      ensures draft == old(draft) && previewImage == old(previewImage) && saving == old(saving)
    {
      activeStep := Drafts.ClickStep(activeStep, index);
    }

    /** `handleSave`: saving starts only for a valid form; otherwise the first
        failed check is reported, its message shown as an alert, and nothing
        changes. */
    method Save() returns (error: Option<FormError>, alert: Option<string>)
      requires Valid()
      modifies this
      ensures Valid()
      ensures error == ValidateForm(old(draft))
      ensures alert == ValidationAlert(old(draft))
      ensures error.Some? ==> alert == Some(AlertMessage(error.value))
      ensures saving == (error.None? || old(saving))
      ensures draft == old(draft) && activeStep == old(activeStep) && previewImage == old(previewImage)
    {
      error := ValidateForm(draft);
      alert := ValidationAlert(draft);
      saving := saving || error.None?;
    }
  }

  class GuideEditorPage {
    var loading: bool
    var guide: Draft
    var saving: bool

    constructor()
      ensures loading && !saving
    {
      loading := true;
      guide := Draft("", "", [], []);
      saving := false;
    }

    /** The loading effect: the guide fetched for the page's id is shown. */
    method Load(data: Draft)
      modifies this
      ensures !loading && guide == data && saving == old(saving)
    {
      guide := data;
      loading := false;
    }

    /** `handleTitleChange` */
    method HandleTitleChange(value: string)
      requires !loading
      modifies this
      ensures guide == old(guide).(title := value) && !loading && saving == old(saving)
    {
      guide := guide.(title := value);
    }

    /** `handleImageChange` */
    method HandleImageChange(value: string)
      requires !loading
      modifies this
      ensures guide == old(guide).(mainImage := value) && !loading && saving == old(saving)
    {
      guide := guide.(mainImage := value);
    }

    /** `handleTagToggle`, the same rule as in the wizard. */
    method HandleTagToggle(tag: string)
      requires !loading
      modifies this
      ensures guide == old(guide).(tags := ToggleTag(old(guide.tags), tag)) && !loading && saving == old(saving)
    {
      guide := guide.(tags := ToggleTag(guide.tags, tag));
    }

    /** `handleSectionTitleChange`, called for a section on the page. */
    method HandleSectionTitleChange(index: nat, value: string)
      requires !loading && index < |guide.content|
      modifies this
      ensures guide == old(guide).(content := SetSectionTitle(old(guide.content), index, value))
      ensures !loading && saving == old(saving)
    {
      guide := guide.(content := SetSectionTitle(guide.content, index, value));
    }

    /** `handleSectionContentChange`, called for a section on the page. */
    method HandleSectionContentChange(index: nat, value: string)
      requires !loading && index < |guide.content|
      modifies this
      ensures guide == old(guide).(content := SetSectionContent(old(guide.content), index, value))
      ensures !loading && saving == old(saving)
    {
      guide := guide.(content := SetSectionContent(guide.content, index, value));
    }

    /** `addNewSection` */
    method AddNewSection()
      requires !loading
      modifies this
      ensures guide == old(guide).(content := AppendSection(old(guide.content)))
      ensures !loading && saving == old(saving)
    {
      guide := guide.(content := AppendSection(guide.content));
    }

    /** `removeSection`, with the same guard as in the wizard. */
    method RemoveSection(index: nat) returns (alert: Option<string>)
      requires !loading
      modifies this
      ensures alert.Some? <==> |old(guide.content)| <= 1
      ensures alert.Some? ==> alert.value == KEEP_ONE_ALERT && guide == old(guide)
      ensures alert.None? ==> guide == old(guide).(content := Drafts.RemoveSection(old(guide.content), index).value)
      ensures |old(guide.content)| >= 1 ==> |guide.content| >= 1
      ensures !loading && saving == old(saving)
    {
      var r := Drafts.RemoveSection(guide.content, index);
      if r.None? {
        alert := Some(KEEP_ONE_ALERT);
      } else {
        alert := None;
        guide := guide.(content := r.value);
      }
    }

    /** `handleSave`: unlike the wizard, the editor saves without checking the form. */
    method Save()
      requires !loading
      modifies this
      ensures saving && guide == old(guide) && !loading
    {
      saving := true;
    }
  }
}
