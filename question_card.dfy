/** One pending question's answer form: the whitespace check, the optimistic
    removal of the question from the list before the answer is posted, the
    Ctrl/Meta+Enter shortcut, and the debounced draft saved to session storage. */
module QuestionCard {
  import opened Wrappers
  import opened Text
  import opened Dto
  import Lists

  const MaxAnswerLength: nat := 2000
  const DraftPrefix := "draftAnswer:"

  /** The form's values. */
  datatype FormValue = FormValue(answer: string, nsfw: bool, visibility: Visibility)

  /** JavaScript's `/^\s+$/.test`: one or more characters, all whitespace. */
  predicate IsOnlyWhitespace(s: string)
  {
    |s| >= 1 && forall i :: 0 <= i < |s| ==> IsJsSpace(s[i])
  }

  /** The field's registered rules: `required` and `maxLength: 2000`. */
  predicate FieldValid(answer: string)
  {
    1 <= |answer| <= MaxAnswerLength
  }

  /** The card's view of the page: the parent's question list, its loading flag, the
      answer modal and the field's custom error. */
  datatype CardState = CardState(
    questions: Option<seq<QuestionDto>>, loading: bool, modalOpen: bool, whitespaceError: bool)

  /** What a submission did: the state afterwards, and the call to `postAnswer` if one
      was made, with the list as it stood when the call was made. */
  datatype Submission =
    | Refused(after: CardState)
    | Posted(after: CardState, questionId: int, dto: CreateAnswerDto, listAtPost: Option<seq<QuestionDto>>)

  function KeepOthers(id: int): QuestionDto -> bool
  {
    (q: QuestionDto) => q.id != id
  }

  /** `onSubmit`. An answer of whitespace only sets the error and stops. Otherwise the
      list shown becomes the list without this question, the answer is posted with the
      form's values, and loading ends whether or not the call threw; on a throw the
      modal closes and the removed question is not put back. */
  function OnSubmit(s: CardState, shown: seq<QuestionDto>, question: QuestionDto, form: FormValue, postThrew: bool): (r: Submission)
    ensures IsOnlyWhitespace(form.answer) <==> r.Refused?
    ensures r.Refused? ==> r.after == s.(whitespaceError := true)
    ensures r.Posted? ==>
      && r.questionId == question.id
      && r.dto == CreateAnswerDto(form.answer, form.nsfw, form.visibility)
      && r.listAtPost.Some?
      && (forall i :: 0 <= i < |r.listAtPost.value| ==> r.listAtPost.value[i].id != question.id && r.listAtPost.value[i] in shown)
      && (forall i :: 0 <= i < |shown| && shown[i].id != question.id ==> shown[i] in r.listAtPost.value)
      && Lists.IsSubsequence(r.listAtPost.value, shown)
      && (forall q :: multiset(r.listAtPost.value)[q] == (if q.id != question.id then multiset(shown)[q] else 0))
      && r.after.questions == r.listAtPost
      && !r.after.loading
      && r.after.modalOpen == !postThrew
      && r.after.whitespaceError == s.whitespaceError
  {
    if IsOnlyWhitespace(form.answer) then
      Refused(s.(whitespaceError := true))
    else
      var filtered := Lists.Filter(shown, KeepOthers(question.id));
      Lists.FilterKeepsOrder(shown, KeepOthers(question.id));
      Lists.FilterMultiset(shown, KeepOthers(question.id));
      var during := s.(questions := Some(filtered), loading := true, modalOpen := true);
      Posted(during.(loading := false, modalOpen := !postThrew),
             question.id, CreateAnswerDto(form.answer, form.nsfw, form.visibility), Some(filtered))
  }

  /** A failed post leaves the question out of the list: nothing restores it. */
  lemma FailedPostDoesNotRestore(s: CardState, shown: seq<QuestionDto>, question: QuestionDto, form: FormValue)
    requires !IsOnlyWhitespace(form.answer)
    requires question in shown
    ensures var r := OnSubmit(s, shown, question, form, true);
      r.Posted? && r.after.questions.Some? && question !in r.after.questions.value && !r.after.modalOpen
  {
  }

  /** What a key press in the answer field does: nothing, or a run of `onSubmit`. */
  datatype KeyOutcome = Ignored | Submitted(submission: Submission)

  /** `onCtrlEnter`: Enter with Ctrl or Meta runs `onSubmit` on the form's values, but
      only when the field passes its rules and the answer modal is closed. Every other
      key press is `Ignored` and leaves the card as it is. */
  function OnCtrlEnter(
    s: CardState, key: string, ctrl: bool, meta: bool,
    shown: seq<QuestionDto>, question: QuestionDto, form: FormValue, postThrew: bool): (r: KeyOutcome)
    ensures r.Submitted? <==> key == "Enter" && (ctrl || meta) && FieldValid(form.answer) && !s.modalOpen
    ensures r.Submitted? ==> r.submission == OnSubmit(s, shown, question, form, postThrew)
  {
    if key == "Enter" && (ctrl || meta) && FieldValid(form.answer) && !s.modalOpen
    then Submitted(OnSubmit(s, shown, question, form, postThrew))
    else Ignored
  }

  /** An answer posted through the shortcut has passed both the field's rules and the
      whitespace check, and the rest of the list is what it was, minus this question. */
  lemma ShortcutPostsOnlyValidAnswers(
    s: CardState, key: string, ctrl: bool, meta: bool,
    shown: seq<QuestionDto>, question: QuestionDto, form: FormValue, postThrew: bool)
    requires OnCtrlEnter(s, key, ctrl, meta, shown, question, form, postThrew).Submitted?
    requires OnCtrlEnter(s, key, ctrl, meta, shown, question, form, postThrew).submission.Posted?
    ensures var p := OnCtrlEnter(s, key, ctrl, meta, shown, question, form, postThrew).submission;
      && 1 <= |p.dto.answer| <= MaxAnswerLength && !IsOnlyWhitespace(p.dto.answer)
      && p.after.questions == Some(Lists.Filter(shown, KeepOthers(question.id)))
  {
  }

  /** A whitespace-only answer within the length rules passes the shortcut's guard but
      is refused by `onSubmit` with the field's error set; nothing is posted. */
  lemma ShortcutWhitespaceRefused(
    s: CardState, shown: seq<QuestionDto>, question: QuestionDto, form: FormValue, postThrew: bool, ctrl: bool)
    requires !s.modalOpen && IsOnlyWhitespace(form.answer) && |form.answer| <= MaxAnswerLength
    ensures OnCtrlEnter(s, "Enter", ctrl, !ctrl, shown, question, form, postThrew)
         == Submitted(Refused(s.(whitespaceError := true)))
  {
  }

  /** A post that did not throw leaves the modal open, so pressing the shortcut again
      does nothing: the answer cannot be sent twice from the keyboard. */
  lemma NoDoubleSubmit(
    s: CardState, key: string, ctrl: bool, meta: bool,
    shown: seq<QuestionDto>, question: QuestionDto, form: FormValue,
    key2: string, ctrl2: bool, meta2: bool, shown2: seq<QuestionDto>, form2: FormValue, threw2: bool)
    requires OnCtrlEnter(s, key, ctrl, meta, shown, question, form, false).Submitted?
    requires OnCtrlEnter(s, key, ctrl, meta, shown, question, form, false).submission.Posted?
    ensures var after := OnCtrlEnter(s, key, ctrl, meta, shown, question, form, false).submission.after;
      OnCtrlEnter(after, key2, ctrl2, meta2, shown2, question, form2, threw2) == Ignored
  {
  }

  /** Plain Enter, or any key without Ctrl or Meta, never submits. */
  lemma PlainKeyIgnored(
    s: CardState, key: string, shown: seq<QuestionDto>, question: QuestionDto, form: FormValue, postThrew: bool)
    ensures OnCtrlEnter(s, key, false, false, shown, question, form, postThrew) == Ignored
  {
  }

  /** The session-storage key of a question's draft: the prefix and the id in decimal. */
  function DraftKey(questionId: int): (k: string)
    ensures StartsWith(k, DraftPrefix) && |k| > |DraftPrefix|
    ensures k[|DraftPrefix|..] == IntToString(questionId)
  {
    assert (DraftPrefix + IntToString(questionId))[|DraftPrefix|..] == IntToString(questionId);
    DraftPrefix + IntToString(questionId)
  }

  /** Distinct questions keep their drafts under distinct keys. */
  lemma DraftKeyInjective(a: int, b: int)
    requires DraftKey(a) == DraftKey(b)
    ensures a == b
  {
    IntToStringInjective(a, b);
  }

  /** The debounce slot: nothing pending, or one save of the given text. */
  datatype Pending = NoSave | SaveArmed(text: Option<string>)

  /** A non-empty watched value is written under the question's key; anything else
      writes nothing. */
  function SaveDraft(storage: map<string, string>, questionId: int, text: Option<string>): (r: map<string, string>)
    ensures text.Some? && text.value != "" ==> r == storage[DraftKey(questionId) := text.value]
    ensures text.None? || text.value == "" ==> r == storage
  {
    if text.Some? && text.value != "" then storage[DraftKey(questionId) := text.value] else storage
  }

  /** The draft restored on mount: a stored non-empty draft replaces the field. */
  function RestoredAnswer(storage: map<string, string>, questionId: int, current: string): (a: string)
    ensures DraftKey(questionId) in storage && storage[DraftKey(questionId)] != "" ==> a == storage[DraftKey(questionId)]
    ensures DraftKey(questionId) !in storage || storage[DraftKey(questionId)] == "" ==> a == current
  {
    var k := DraftKey(questionId);
    if k in storage && storage[k] != "" then storage[k] else current
  }

  /** A saved draft is what the next mount restores. */
  lemma SaveThenRestore(storage: map<string, string>, questionId: int, text: string, current: string)
    requires text != ""
    ensures RestoredAnswer(SaveDraft(storage, questionId, Some(text)), questionId, current) == text
  {
  }

  /** Saving one question's draft leaves every other question's draft as it was. */
  lemma SaveLeavesOtherDrafts(storage: map<string, string>, a: int, b: int, text: Option<string>, current: string)
    requires a != b
    ensures RestoredAnswer(SaveDraft(storage, a, text), b, current) == RestoredAnswer(storage, b, current)
  {
    if DraftKey(a) == DraftKey(b) {
      DraftKeyInjective(a, b);
    }
  }

  /** An empty or missing text leaves whatever draft was stored before. */
  lemma EmptyTextKeepsDraft(storage: map<string, string>, questionId: int, current: string)
    ensures RestoredAnswer(SaveDraft(storage, questionId, Some("")), questionId, current)
         == RestoredAnswer(storage, questionId, current)
  {
  }

  /** The debounce timer of one card and the session storage it writes to. */
  class DraftSaver {
    const questionId: int
    var pending: Pending
    var storage: map<string, string>

    constructor (questionId: int, storage: map<string, string>)
      ensures this.questionId == questionId && this.storage == storage && pending == NoSave
    {
      this.questionId := questionId;
      this.storage := storage;
      pending := NoSave;
    }

    /** `onTextChanged` through `deBounce`: any save still pending is cancelled and
        replaced by one for the new text; nothing is written yet. */
    method OnTextChanged(text: Option<string>)
      modifies this
      ensures pending == SaveArmed(text)
      ensures storage == old(storage)
    {
      pending := SaveArmed(text);
    }

    /** The pending timer fires after 500 ms and runs its save. */
    method TimerFired()
      requires pending.SaveArmed?
      modifies this
      ensures pending == NoSave
      ensures storage == SaveDraft(old(storage), questionId, old(pending).text)
    {
      if pending.text.Some? && pending.text.value != "" {
        storage := storage[DraftKey(questionId) := pending.text.value];
      }
      pending := NoSave;
    }

    /** Unmount clears the pending timer; its save never runs. */
    method Unmount()
      modifies this
      ensures pending == NoSave
      ensures storage == old(storage)
    {
      pending := NoSave;
    }
  }
}
