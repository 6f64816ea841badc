/** The client-side question store: the questions of the group being studied
    and the learner's answers, one entry per question id. */
module QuestionStore {
  import opened Wrappers
  import opened Domain

  /** One stored answer: `{ id, answer }`. */
  datatype Entry = Entry(id: string, answer: Answer)

  datatype Store = Store(questions: seq<Question>, userAnswer: seq<Entry>)

  /** `findIndex` over the answers by id, with `|entries|` standing for -1. */
  function FindEntry(entries: seq<Entry>, id: string): (k: nat)
    ensures k <= |entries|
    ensures forall j :: 0 <= j < k ==> entries[j].id != id
    ensures k < |entries| ==> entries[k].id == id
  {
    if |entries| == 0 then 0
    else if entries[0].id == id then 0
    else 1 + FindEntry(entries[1..], id)
  }

  /** `find` over the questions by id, with `|questions|` standing for not found. */
  function FindQuestion(questions: seq<Question>, id: string): (k: nat)
    ensures k <= |questions|
    ensures forall j :: 0 <= j < k ==> questions[j].id != id
    ensures k < |questions| ==> questions[k].id == id
  {
    if |questions| == 0 then 0
    else if questions[0].id == id then 0
    else 1 + FindQuestion(questions[1..], id)
  }

  /** The store as created: no questions, no answers. */
  function Init(): (st: Store)
    ensures |st.questions| == 0 && |st.userAnswer| == 0
  {
    Store([], [])
  }

  /** `setQuestions`: replaces the question list and keeps the answers. */
  function SetQuestions(st: Store, questions: seq<Question>): (r: Store)
    ensures r.questions == questions
    ensures r.userAnswer == st.userAnswer
  {
    st.(questions := questions)
  }

  /** `getQuestions`: the first question with that id. */
  function GetQuestion(st: Store, id: string): (r: Option<Question>)
    ensures r.None? <==> forall j :: 0 <= j < |st.questions| ==> st.questions[j].id != id
    ensures r.Some? ==> r.value in st.questions && r.value.id == id
  {
    var k := FindQuestion(st.questions, id);
    if k < |st.questions| then Some(st.questions[k]) else None
  }

  /** `setUserAnswer`: overwrites the first entry with the same id in place,
      or appends the entry when there is none. */
  function SetUserAnswer(st: Store, e: Entry): (r: Store)
    ensures r.questions == st.questions
    ensures (exists j :: 0 <= j < |st.userAnswer| && st.userAnswer[j].id == e.id) ==>
              |r.userAnswer| == |st.userAnswer| && e in r.userAnswer
    ensures (forall j :: 0 <= j < |st.userAnswer| ==> st.userAnswer[j].id != e.id) ==>
              r.userAnswer == st.userAnswer + [e]
    ensures forall j :: 0 <= j < |st.userAnswer| && st.userAnswer[j].id != e.id ==>
              r.userAnswer[j] == st.userAnswer[j]
  {
    var k := FindEntry(st.userAnswer, e.id);
    if k < |st.userAnswer| then
      var u := st.userAnswer[k := e];
      assert u[k] == e;
      st.(userAnswer := u)
    else st.(userAnswer := st.userAnswer + [e])
  }

  /** `getUserAnswer`: the answer of the first entry with that id. */
  function GetUserAnswer(st: Store, id: string): (r: Option<Answer>)
    ensures r.None? <==> forall j :: 0 <= j < |st.userAnswer| ==> st.userAnswer[j].id != id
    ensures r.Some? ==> Entry(id, r.value) in st.userAnswer
  {
    var k := FindEntry(st.userAnswer, id);
    if k < |st.userAnswer| then Some(st.userAnswer[k].answer) else None
  }

  /** No two entries share an id. */
  predicate UniqueIds(entries: seq<Entry>) {
    forall i, j :: 0 <= i < j < |entries| ==> entries[i].id != entries[j].id
  }

  /** Reading an answer back after storing it gives that answer. */
  lemma GetAfterSet(st: Store, e: Entry)
    ensures GetUserAnswer(SetUserAnswer(st, e), e.id) == Some(e.answer)
  {
    var k := FindEntry(st.userAnswer, e.id);
    var r := SetUserAnswer(st, e).userAnswer;
    assert forall j :: 0 <= j < k ==> r[j] == st.userAnswer[j];
    assert r[k] == e;
  }

  /** Storing an answer for one question leaves every other question's answer as it was. */
  lemma OtherAnswersUnchanged(st: Store, e: Entry, id: string)
    requires id != e.id
    ensures GetUserAnswer(SetUserAnswer(st, e), id) == GetUserAnswer(st, id)
  {
    var k := FindEntry(st.userAnswer, id);
    var r := SetUserAnswer(st, e).userAnswer;
    assert forall j :: 0 <= j < k ==> r[j].id != id;
    if k < |st.userAnswer| {
      assert r[k] == st.userAnswer[k];
    } else {
      assert forall j :: 0 <= j < |r| ==> r[j].id != id;
    }
  }

  /** Storing an answer keeps the ids distinct. */
  lemma SetKeepsIdsUnique(st: Store, e: Entry)
    requires UniqueIds(st.userAnswer)
    ensures UniqueIds(SetUserAnswer(st, e).userAnswer)
  {
    var r := SetUserAnswer(st, e).userAnswer;
    var k := FindEntry(st.userAnswer, e.id);
    forall i, j | 0 <= i < j < |r| ensures r[i].id != r[j].id {
      if k < |st.userAnswer| {
        if i == k {
          assert r[j] == st.userAnswer[j];
        } else if j == k {
          assert r[i] == st.userAnswer[i];
        } else {
          assert r[i] == st.userAnswer[i] && r[j] == st.userAnswer[j];
        }
      } else if j == |st.userAnswer| {
        assert r[i] == st.userAnswer[i];
      } else {
        assert r[i] == st.userAnswer[i] && r[j] == st.userAnswer[j];
      }
    }
  }

  /** Storing the same entry twice is the same as storing it once. */
  lemma SetIdempotent(st: Store, e: Entry)
    ensures SetUserAnswer(SetUserAnswer(st, e), e) == SetUserAnswer(st, e)
  {
    var k := FindEntry(st.userAnswer, e.id);
    var r := SetUserAnswer(st, e).userAnswer;
    assert forall j :: 0 <= j < k ==> r[j] == st.userAnswer[j];
    assert r[k] == e;
    assert FindEntry(r, e.id) == k;
  }
}
