/** The create and edit question dialogs: what they check before calling the
    server, in which order, and what they send. */
module QuestionForm {
  import opened Wrappers
  import opened Domain
  import opened OptionEdit
  import opened QuestionActions

  const EmptyTitle: string := "\U{8BF7}\U{8F93}\U{5165}\U{9898}\U{76EE}\U{540D}\U{79F0}"
  const BlankOption: string := "\U{8BF7}\U{786E}\U{4FDD}\U{6BCF}\U{4E2A}\U{9009}\U{9879}\U{90FD}\U{6709}\U{5185}\U{5BB9}"
  const NoCorrect: string := "\U{8BF7}\U{9009}\U{62E9}\U{6B63}\U{786E}\U{7B54}\U{6848}"
  const NoAnswer: string := "\U{8BF7}\U{586B}\U{5199}\U{7B54}\U{6848}"
  const EditorBroken: string := "\U{7F16}\U{8F91}\U{5668}\U{5F02}\U{5E38},\U{8BF7}\U{53CD}\U{9988} bug"

  /** What a submit attempt ends in: nothing (an editor was not mounted), a
      warning (and, for a missing answer, a switch to the answer editor), or a
      request to the server. */
  datatype Outcome<P> = Ignored | Warned(message: string, showAnswerEditor: bool) | Sent(request: P)

  /** What the dialog holds when the user submits. `editorContent` is the
      option editor's `getContent()` for the selected kind (absent when that
      editor is not mounted); `answer` and `description` are the Markdown of
      the two rich-text editors (absent when not mounted); `textContent` is
      the description text kept in the form's state. */
  datatype Form = Form(
    title: string,
    qtype: QuestionType,
    editorContent: Option<Content>,
    answer: Option<string>,
    description: Option<string>,
    textContent: string)

  /** Every option has text and at least one answer is marked. */
  predicate ValidContent(c: Content) {
    (forall i :: 0 <= i < |c.options| ==> c.options[i].caption != "") && CorrectLength(c.correct) > 0
  }

  /** `validateContent`: the warning for the first rule broken, in the order
      the dialog checks them. */
  function ContentProblem(c: Content): (r: Option<string>)
    ensures r.None? <==> ValidContent(c)
    ensures r == Some(BlankOption) <==> exists i :: 0 <= i < |c.options| && c.options[i].caption == ""
    ensures r.Some? ==> r.value == BlankOption || r.value == NoCorrect
  {
    if exists i :: 0 <= i < |c.options| && c.options[i].caption == "" then Some(BlankOption)
    else if CorrectLength(c.correct) == 0 then Some(NoCorrect)
    else None
  }

  /** A text answer's content: no options, the answer as the correct text. */
  function TextContent(answer: string): Content {
    Content([], AnswerText(answer))
  }

  /** `handleCreateQuestion`. The request carries the initial review state:
      Beginner, no reviews, due `now`. */
  function HandleCreate(form: Form, folderId: Option<string>, now: int): (r: Outcome<CreateRequest>)
    ensures form.title == "" ==> r == Warned(EmptyTitle, false)
    ensures r.Sent? ==> && form.title != ""
                        && r.request.title == form.title && r.request.qtype == form.qtype
                        && r.request.masteryLevel == Beginner && r.request.reviewCount == 0
                        && r.request.nextReviewAt == now && r.request.folderId == folderId
    ensures form.qtype != Text ==>
              (r.Sent? <==> form.title != "" && form.editorContent.Some? && ValidContent(form.editorContent.value))
    ensures form.qtype != Text && r.Sent? ==> r.request.content == form.editorContent.value && r.request.description.None?
    ensures form.qtype == Text ==>
              (r.Sent? <==> form.title != "" && form.answer.Some? && form.answer.value != "" && form.textContent != "")
    ensures form.qtype == Text && r.Sent? ==>
              r.request.content == TextContent(form.answer.value) && r.request.description == form.description
    ensures form.title != "" && form.qtype == Text && (form.answer.None? || form.answer.value == "") ==>
              r == Warned(NoAnswer, true)
  {
    if form.title == "" then Warned(EmptyTitle, false)
    else if form.qtype != Text then
      if form.editorContent.None? then Ignored
      else
        match ContentProblem(form.editorContent.value)
        case Some(m) => Warned(m, false)
        case None =>
          Sent(CreateRequest(form.title, form.editorContent.value, form.qtype, None, Beginner, 0, now, folderId))
    else if form.answer.None? || form.answer.value == "" then Warned(NoAnswer, true)
    else if form.textContent == "" then Warned(EditorBroken, false)
    else Sent(CreateRequest(form.title, TextContent(form.answer.value), Text, form.description, Beginner, 0, now, folderId))
  }

  /** `handleUpdateQuestion`. The request names the question, the chosen
      folder and the groups it is in, and never any review state or links. */
  function HandleUpdate(form: Form, q: Question, folderId: string): (r: Outcome<UpdateRequest>)
    ensures form.title == "" ==> r == Warned(EmptyTitle, false)
    ensures r.Sent? ==> && r.request.id == q.id && r.request.title == Some(form.title)
                        && r.request.targetFolderId == Some(folderId) && r.request.sourceGroup == Some(q.groupIds)
                        && r.request.qtype == Some(form.qtype)
                        && r.request.masteryLevel.None? && r.request.reviewCount.None?
                        && r.request.nextReviewAt.None? && r.request.targetGroups.None?
    ensures form.qtype != Text ==>
              (r.Sent? <==> form.title != "" && form.editorContent.Some? && ValidContent(form.editorContent.value))
    ensures form.qtype != Text && r.Sent? ==> r.request.content == form.editorContent
    ensures form.qtype == Text ==>
              (r.Sent? <==> && form.title != "" && form.answer.Some? && form.answer.value != ""
                            && form.textContent != "" && form.description.Some? && form.description.value != "")
    ensures form.qtype == Text && r.Sent? ==>
              r.request.content == Some(TextContent(form.answer.value)) && r.request.description == form.description
  {
    var base := UpdateRequest(q.id, Some(form.title), None, Some(form.qtype), Some(folderId), Some(q.groupIds),
                              None, None, None, None, None);
    if form.title == "" then Warned(EmptyTitle, false)
    else if form.qtype != Text then
      if form.editorContent.None? then Ignored
      else
        match ContentProblem(form.editorContent.value)
        case Some(m) => Warned(m, false)
        case None => Sent(base.(content := form.editorContent))
    else if form.answer.None? || form.answer.value == "" then Warned(NoAnswer, true)
    else if form.textContent == "" || form.description.None? || form.description.value == "" then Warned(EditorBroken, false)
    else Sent(base.(content := Some(TextContent(form.answer.value)), description := form.description))
  }

  /** Editing is stricter than creating for text questions: a missing
      description Markdown is accepted on creation and refused on edit. */
  lemma EditNeedsDescription(q: Question, now: int)
    ensures var form := Form("t", Text, None, Some("a"), None, "x");
            HandleCreate(form, None, now).Sent? && HandleUpdate(form, q, q.folderId) == Warned(EditorBroken, false)
  {
  }

  /** Sending an edit through the update action leaves the review schedule as
      it was: mastery, review count and due date are untouched. */
  lemma EditKeepsSchedule(db: Db, user: string, form: Form, q: Question, folderId: string, now: int)
    requires HandleUpdate(form, q, folderId).Sent?
    requires Owns(db, user, q.id)
    requires UpdateQuestion(db, user, HandleUpdate(form, q, folderId).request, now).Ok?
    ensures var row := db.questions[q.id];
            var row' := UpdateQuestion(db, user, HandleUpdate(form, q, folderId).request, now).value.questions[q.id];
            && row'.masteryLevel == row.masteryLevel && row'.reviewCount == row.reviewCount
            && row'.nextReviewAt == row.nextReviewAt && row'.folderId == folderId && row'.title == form.title
  {
  }

  /** A created question is due at once: it enters the store with the
      request's initial schedule. */
  lemma CreatedQuestionIsNew(db: Db, user: string, form: Form, folderId: Option<string>,
                             newFolderId: string, newId: string, now: int)
    requires HandleCreate(form, folderId, now).Sent?
    requires CreateQuestion(db, user, HandleCreate(form, folderId, now).request, newFolderId, newId, now).Ok?
    ensures var row := CreateQuestion(db, user, HandleCreate(form, folderId, now).request, newFolderId, newId, now).value.questions[newId];
            row.masteryLevel == Beginner && row.reviewCount == 0 && row.nextReviewAt == now && row.title == form.title
  {
  }

  /** The single-choice editor always marks one answer, so its content is
      refused only for an option without text. */
  lemma SingleEditorContent(ed: SingleEditor)
    ensures ValidContent(SingleGetContent(ed)) <==>
              forall i :: 0 <= i < |ed.options| ==> ed.options[i].caption != ""
  {
  }

  /** The multiple-choice editor's content is refused when an option has no
      text or no option is marked. */
  lemma MultipleEditorContent(ed: MultipleEditor)
    ensures ValidContent(MultipleGetContent(ed)) <==>
              && (forall i :: 0 <= i < |ed.options| ==> ed.options[i].caption != "")
              && exists x :: x in ed.correct && x in Values(ed.options)
  {
    var ls := MultipleGetContent(ed).correct.letters;
    if exists x :: x in ed.correct && x in Values(ed.options) {
      var x :| x in ed.correct && x in Values(ed.options);
      assert x in ls;
    }
    if |ls| > 0 {
      assert ls[0] in ls;
    }
  }

  /** The text fields the edit dialog fills in for a text question: the
      description (or "") and, when the question has content, its correct
      text (or "" when the stored answer is a letter list). */
  function PrefillText(q: Question, textAnswer: string): (r: (string, string))
    requires q.qtype == Text
    ensures r.0 == q.description.GetOr("")
    ensures q.content.None? ==> r.1 == textAnswer
    ensures q.content.Some? && q.content.value.correct.AnswerText? ==> r.1 == q.content.value.correct.text
    ensures q.content.Some? && q.content.value.correct.Letters? ==> r.1 == ""
  {
    var content := q.description.GetOr("");
    var answer :=
      if q.content.None? then textAnswer
      else match q.content.value.correct
        case AnswerText(t) => t
        case Letters(_) => "";
    (content, answer)
  }

  /** A text question saved by the create dialog opens in the edit dialog with
      the same answer. */
  lemma TextAnswerRoundTrip(form: Form, folderId: Option<string>, now: int, q: Question, previous: string)
    requires form.qtype == Text
    requires HandleCreate(form, folderId, now).Sent?
    requires q.qtype == Text && q.content == Some(HandleCreate(form, folderId, now).request.content)
    ensures PrefillText(q, previous).1 == form.answer.value
  {
  }
}
