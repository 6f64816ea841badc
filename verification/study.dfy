/** The study page: grading a submitted answer, the answer inputs of the
    question panel with its previous/next buttons, and the feedback panel's
    answer text, next button and mastery picker. */
module Study {
  import opened Wrappers
  import opened Domain
  import opened Text
  import opened QuestionStore

  // ---------------------------------------------------------------------------
  // Grading (`submitAnswer`).

  /** What a submission ends in: nothing (no question or no correct answer),
      the "answer first" warning, a verdict on a choice question, a text
      answer handed to the chat for rating, or a type error when a choice
      question carries a text answer key (a string has no `every`). */
  datatype Submission = Skipped | NeedAnswer | Graded(isCorrect: bool) | SentToChat(answer: Answer) | TypeError

  /** JavaScript truthiness of a stored value: only the empty string is falsy,
      an empty array is not. */
  predicate Truthy(a: Answer) {
    a.Chosen? || a.text != ""
  }

  predicate TruthyCorrect(c: Correct) {
    c.Letters? || c.text != ""
  }

  /** `includes` on the stored answer: array membership, or substring search
      when the stored answer is a string. */
  predicate Includes(a: Answer, item: string) {
    match a
    case Chosen(vs) => item in vs
    case Written(t) => Contains(t, item)
  }

  /** Every letter of the key is included in the answer. */
  predicate AllIncluded(letters: seq<string>, a: Answer) {
    forall i :: 0 <= i < |letters| ==> Includes(a, letters[i])
  }

  /** The question has a truthy answer key and a truthy recorded answer, so
      the submission gets past its early returns. */
  predicate Answerable(q: Question, st: Store) {
    && q.content.Some? && TruthyCorrect(q.content.value.correct)
    && GetUserAnswer(st, q.id).Some? && Truthy(GetUserAnswer(st, q.id).value)
  }

  function SubmitAnswer(current: Option<Question>, st: Store): (r: Submission)
    ensures current.None? ==> r == Skipped
    ensures current.Some? && (current.value.content.None? || !TruthyCorrect(current.value.content.value.correct)) ==> r == Skipped
    ensures r.NeedAnswer? <==> current.Some? && current.value.content.Some? && TruthyCorrect(current.value.content.value.correct)
                               && (GetUserAnswer(st, current.value.id).None? || !Truthy(GetUserAnswer(st, current.value.id).value))
    ensures r.Graded? ==> current.Some? && !current.value.qtype.Text? && current.value.content.Some?
                          && current.value.content.value.correct.Letters?
                          && GetUserAnswer(st, current.value.id).Some?
                          && (r.isCorrect <==> AllIncluded(current.value.content.value.correct.letters, GetUserAnswer(st, current.value.id).value))
    ensures r.SentToChat? ==> current.Some? && current.value.qtype.Text? && GetUserAnswer(st, current.value.id) == Some(r.answer)
    ensures current.Some? && Answerable(current.value, st) && current.value.qtype.Text? ==>
              r == SentToChat(GetUserAnswer(st, current.value.id).value)
    ensures current.Some? && Answerable(current.value, st) && !current.value.qtype.Text? ==>
              (current.value.content.value.correct.Letters? ==> r.Graded?)
              && (current.value.content.value.correct.AnswerText? ==> r == TypeError)
  {
    if current.None? then Skipped
    else
      var q := current.value;
      if q.content.None? || !TruthyCorrect(q.content.value.correct) then Skipped
      else
        var answer := GetUserAnswer(st, q.id);
        if answer.None? || !Truthy(answer.value) then NeedAnswer
        else if q.qtype == Single || q.qtype == Multiple then
          match q.content.value.correct
          case Letters(ls) => Graded(AllIncluded(ls, answer.value))
          case AnswerText(_) => TypeError
        else SentToChat(answer.value)
  }

  /** The value `submitAnswer` returns: undefined when it stops early, the
      verdict for a choice question and `false` for a text question. */
  function Returned(s: Submission): (r: Option<bool>)
    ensures r.Some? <==> s.Graded? || s.SentToChat?
    ensures s.SentToChat? ==> r == Some(false)
  {
    match s
    case Graded(b) => Some(b)
    case SentToChat(_) => Some(false)
    case _ => None
  }

  /** A choice answer is right iff it selects every correct option; extra
      selections cost nothing. */
  lemma GradedIffCovers(q: Question, st: Store, vs: seq<string>)
    requires !q.qtype.Text? && q.content.Some? && q.content.value.correct.Letters?
    requires GetUserAnswer(st, q.id) == Some(Chosen(vs))
    ensures SubmitAnswer(Some(q), st) == Graded(forall l :: l in q.content.value.correct.letters ==> l in vs)
  {
    var ls := q.content.value.correct.letters;
    if (forall l :: l in ls ==> l in vs) {
      assert AllIncluded(ls, Chosen(vs));
    } else {
      var l :| l in ls && l !in vs;
      var i :| 0 <= i < |ls| && ls[i] == l;
      assert !Includes(Chosen(vs), ls[i]);
    }
  }

  /** Adding selections to a right answer keeps it right. */
  lemma ExtraSelectionsKeepCorrect(q: Question, st: Store, vs: seq<string>, extra: seq<string>)
    requires !q.qtype.Text? && q.content.Some? && q.content.value.correct.Letters?
    requires GetUserAnswer(st, q.id) == Some(Chosen(vs))
    requires SubmitAnswer(Some(q), st) == Graded(true)
    ensures var st2 := SetUserAnswer(st, Entry(q.id, Chosen(vs + extra)));
            SubmitAnswer(Some(q), st2) == Graded(true)
  {
    var st2 := SetUserAnswer(st, Entry(q.id, Chosen(vs + extra)));
    GetAfterSet(st, Entry(q.id, Chosen(vs + extra)));
    GradedIffCovers(q, st, vs);
    GradedIffCovers(q, st2, vs + extra);
  }

  /** A text question is never marked right by the page itself. */
  lemma TextNeverCorrect(q: Question, st: Store)
    requires q.qtype.Text?
    ensures Returned(SubmitAnswer(Some(q), st)) != Some(true)
  {
  }

  /** An empty selection is still submitted and graded; only a missing or
      empty-string answer asks for an answer first. */
  lemma EmptySelectionIsGraded(q: Question, st: Store)
    requires !q.qtype.Text? && q.content.Some? && q.content.value.correct.Letters?
    requires GetUserAnswer(st, q.id) == Some(Chosen([]))
    ensures SubmitAnswer(Some(q), st) == Graded(q.content.value.correct.letters == [])
  {
    GradedIffCovers(q, st, []);
    var ls := q.content.value.correct.letters;
    if ls != [] {
      assert ls[0] in ls;
    }
  }

  // ---------------------------------------------------------------------------
  // The answer inputs of the question panel.

  /** `handleAnswerSelect` of a single-choice question: the answer becomes
      the one-element list holding the chosen value. */
  function SelectSingle(st: Store, id: string, value: string): (r: Store)
    ensures GetUserAnswer(r, id) == Some(Chosen([value]))
    ensures forall other :: other != id ==> GetUserAnswer(r, other) == GetUserAnswer(st, other)
  {
    var r := SetUserAnswer(st, Entry(id, Chosen([value])));
    GetAfterSet(st, Entry(id, Chosen([value])));
    forall other | other != id ensures GetUserAnswer(r, other) == GetUserAnswer(st, other) {
      OtherAnswersUnchanged(st, Entry(id, Chosen([value])), other);
    }
    r
  }

  /** The radio group's value after loading a stored answer: the first
      element of a stored list (undefined for an empty one), the first
      character of a non-empty string, or the previous value when nothing
      truthy is stored. */
  function LoadSingle(prev: Option<string>, stored: Option<Answer>): (r: Option<string>)
    ensures stored.None? ==> r == prev
    ensures stored == Some(Written("")) ==> r == prev
    ensures stored == Some(Chosen([])) ==> r.None?
    ensures stored.Some? && stored.value.Chosen? && stored.value.values != [] ==> r == Some(stored.value.values[0])
    ensures stored.Some? && stored.value.Written? && stored.value.text != "" ==> r == Some([stored.value.text[0]])
  {
    match stored
    case None => prev
    case Some(Chosen(vs)) => if |vs| > 0 then Some(vs[0]) else None
    case Some(Written(t)) => if t != "" then Some([t[0]]) else prev
  }

  /** Leaving a single-choice question and coming back shows the value chosen. */
  lemma SingleSelectionReloads(st: Store, id: string, value: string, prev: Option<string>)
    ensures LoadSingle(prev, GetUserAnswer(SelectSingle(st, id, value), id)) == Some(value)
  {
  }

  /** `handleAnswerToggle` on the selected values: a selected value is
      removed (every copy of it), any other is appended. */
  function ToggleAnswer(selected: seq<string>, value: string): (r: seq<string>)
    ensures value in r <==> value !in selected
    ensures forall x :: x != value ==> (x in r <==> x in selected)
    ensures value !in selected ==> |r| == |selected| + 1 && r[..|selected|] == selected
  {
    if value in selected then Without(selected, value) else selected + [value]
  }

  /** Toggling a value twice restores an unselected value's list exactly and
      leaves a selected value's list without it. */
  lemma ToggleTwice(selected: seq<string>, value: string)
    ensures value !in selected ==> ToggleAnswer(ToggleAnswer(selected, value), value) == selected
    ensures value in selected ==> ToggleAnswer(ToggleAnswer(selected, value), value) == Without(selected, value) + [value]
  {
    if value !in selected {
      WithoutAppend(selected, value);
      WithoutAbsent(selected, value);
    }
  }

  /** The toggle stores the new list as the question's answer. */
  function ToggleMultiple(st: Store, id: string, selected: seq<string>, value: string): (r: (seq<string>, Store))
    ensures r.0 == ToggleAnswer(selected, value)
    ensures GetUserAnswer(r.1, id) == Some(Chosen(r.0))
  {
    var next := ToggleAnswer(selected, value);
    GetAfterSet(st, Entry(id, Chosen(next)));
    (next, SetUserAnswer(st, Entry(id, Chosen(next))))
  }

  /** `handleAnswerChange` of a text question: the raw string is stored. */
  function ChangeText(st: Store, id: string, value: string): (r: Store)
    ensures GetUserAnswer(r, id) == Some(Written(value))
  {
    GetAfterSet(st, Entry(id, Written(value)));
    SetUserAnswer(st, Entry(id, Written(value)))
  }

  /** The previous button: disabled while loading and on the first question. */
  function PreviousQuestion(index: int, loading: bool): (r: int)
    ensures loading || index == 0 ==> r == index
    ensures !loading && index != 0 ==> r == index - 1
  {
    if loading || index == 0 then index else index - 1
  }

  /** The next button: disabled while loading and on the last question. */
  function NextQuestion(index: int, count: nat, loading: bool): (r: int)
    ensures loading || index == count - 1 ==> r == index
    ensures !loading && index != count - 1 ==> r == index + 1
  {
    if loading || index == count - 1 then index else index + 1
  }

  /** Starting from a question of the list, either button keeps the index on a
      question of the list. */
  lemma NavigationInBounds(index: int, count: nat, loading: bool)
    requires 0 <= index < count
    ensures 0 <= PreviousQuestion(index, loading) < count
    ensures 0 <= NextQuestion(index, count, loading) < count
  {
  }

  /** With no questions loaded the next button is not disabled, and it moves
      the index past the (empty) list. */
  lemma NextEnabledOnEmptyList()
    ensures NextQuestion(0, 0, false) == 1
  {
  }

  // ---------------------------------------------------------------------------
  // The feedback panel.

  const NotAnswered: string := "\U{672A}\U{4F5C}\U{7B54}"

  /** `formatAnswer`: a missing answer or empty string reads "未作答", a list
      is joined with ", " (so an empty list reads ""), a string is shown as is. */
  function FormatAnswer(a: Option<Answer>): (r: string)
    ensures a.None? || a == Some(Written("")) ==> r == NotAnswered
    ensures a == Some(Chosen([])) ==> r == ""
    ensures a.Some? && a.value.Written? && a.value.text != "" ==> r == a.value.text
    ensures a.Some? && a.value.Chosen? && |a.value.values| == 1 ==> r == a.value.values[0]
  {
    match a
    case None => NotAnswered
    case Some(Written(t)) => if t == "" then NotAnswered else t
    case Some(Chosen(vs)) => Join(vs, ", ")
  }

  /** The answer key shown under the learner's answer. */
  function KeyAsAnswer(c: Option<Content>): (r: Option<Answer>)
    ensures c.None? ==> r.None?
    ensures c.Some? && c.value.correct.Letters? ==> r == Some(Chosen(c.value.correct.letters))
    ensures c.Some? && c.value.correct.AnswerText? ==> r == Some(Written(c.value.correct.text))
  {
    match c
    case None => None
    case Some(Content(_, Letters(ls))) => Some(Chosen(ls))
    case Some(Content(_, AnswerText(t))) => Some(Written(t))
  }

  /** Single letters come out as "A, B, …": letter i sits at position 3·i,
      followed by ", " unless it is the last. */
  lemma {:induction false} FormatLetters(vs: seq<string>, i: nat)
    requires forall j :: 0 <= j < |vs| ==> |vs[j]| == 1
    requires i < |vs|
    ensures var r := FormatAnswer(Some(Chosen(vs)));
            |r| == 3 * |vs| - 2 && r[3 * i] == vs[i][0]
            && (i + 1 < |vs| ==> r[3 * i + 1] == ',' && r[3 * i + 2] == ' ')
  {
    if |vs| > 1 {
      var rest := Join(vs[1..], ", ");
      assert Join(vs, ", ") == vs[0] + ", " + rest;
      if i > 0 {
        FormatLetters(vs[1..], i - 1);
        assert FormatAnswer(Some(Chosen(vs[1..]))) == rest;
      } else {
        FormatLetters(vs[1..], 0);
      }
    }
  }

  /** The feedback panel's own state: the mastery chosen so far and whether
      the picker is still offered. */
  datatype Feedback = Feedback(mastery: Option<MasteryLevel>, showPicker: bool)

  /** The panel as opened for a question: the mastery starts at the
      question's stored level, the picker is offered unless the question is
      completed. */
  function OpenFeedback(q: Question, isCompleted: bool): (r: Feedback)
    ensures r.mastery == Some(q.masteryLevel)
    ensures r.showPicker <==> !isCompleted
  {
    Feedback(Some(q.masteryLevel), !isCompleted)
  }

  /** `handleMasteryChange`: the choice is recorded at once; the picker hides
      only when the update reports success. */
  function ChangeMastery(fb: Feedback, value: MasteryLevel, succeeded: bool): (r: Feedback)
    ensures r.mastery == Some(value)
    ensures succeeded ==> !r.showPicker
    ensures !succeeded ==> r.showPicker == fb.showPicker
  {
    Feedback(Some(value), if succeeded then false else fb.showPicker)
  }

  /** The picker is drawn while the question is not completed and it is
      still offered. */
  predicate PickerVisible(fb: Feedback, isCompleted: bool) {
    !isCompleted && fb.showPicker
  }

  /** The next button is disabled iff the question is not completed and no
      mastery is chosen. */
  predicate NextDisabled(fb: Feedback, isCompleted: bool) {
    !isCompleted && fb.mastery.None?
  }

  /** A failed update leaves the picker on screen; a successful one removes it. */
  lemma PickerHidesOnlyOnSuccess(fb: Feedback, value: MasteryLevel, succeeded: bool, isCompleted: bool)
    requires PickerVisible(fb, isCompleted)
    ensures PickerVisible(ChangeMastery(fb, value, succeeded), isCompleted) <==> !succeeded
  {
  }

  /** Because a stored question always has a mastery level, the next button is
      enabled as soon as the panel opens, before any rating is chosen. */
  lemma NextEnabledAtOpen(q: Question, isCompleted: bool)
    ensures !NextDisabled(OpenFeedback(q, isCompleted), isCompleted)
  {
  }
}
