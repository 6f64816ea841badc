/** The enumerations and the question-content shapes shared by the whole
    application: mastery levels, question types, answer options and answers. */
module Domain {
  import opened Wrappers

  /** A learner's self-rated mastery of a question, weakest first. */
  datatype MasteryLevel = Beginner | Intermediate | Proficiency | Expertise

  /** Position of a level in the order Beginner < Intermediate < Proficiency < Expertise. */
  function Rank(m: MasteryLevel): (k: nat)
    ensures k < 4
    ensures k == 0 <==> m == Beginner
    ensures k == 3 <==> m == Expertise
  {
    match m
    case Beginner => 0
    case Intermediate => 1
    case Proficiency => 2
    case Expertise => 3
  }

  lemma RankInjective(a: MasteryLevel, b: MasteryLevel)
    ensures Rank(a) == Rank(b) <==> a == b
  {
  }

  /** `QuestionMasteryLevelEnum`: the string stored in the database for each level. */
  function MasteryCode(m: MasteryLevel): string {
    match m
    case Beginner => "beginner"
    case Intermediate => "intermediate"
    case Proficiency => "proficiency"
    case Expertise => "expertise"
  }

  function ParseMastery(s: string): (r: Option<MasteryLevel>)
    ensures r.Some? ==> MasteryCode(r.value) == s
  {
    if s == "beginner" then Some(Beginner)
    else if s == "intermediate" then Some(Intermediate)
    else if s == "proficiency" then Some(Proficiency)
    else if s == "expertise" then Some(Expertise)
    else None
  }

  /** Every level's code parses back to that level, so the codes are distinct. */
  lemma MasteryCodeRoundTrip(m: MasteryLevel)
    ensures ParseMastery(MasteryCode(m)) == Some(m)
  {
  }

  /** Kinds of question: pick one option, pick several options, or free text. */
  datatype QuestionType = Multiple | Single | Text

  function TypeCode(t: QuestionType): string {
    match t
    case Multiple => "multiple"
    case Single => "single"
    case Text => "text"
  }

  function ParseType(s: string): (r: Option<QuestionType>)
    ensures r.Some? ==> TypeCode(r.value) == s
  {
    if s == "multiple" then Some(Multiple)
    else if s == "single" then Some(Single)
    else if s == "text" then Some(Text)
    else None
  }

  lemma TypeCodeRoundTrip(t: QuestionType)
    ensures ParseType(TypeCode(t)) == Some(t)
  {
  }

  /** One answer option: its letter (`value`, "A" to "H") and its text (the
      source's `label`; that word is reserved in Dafny). */
  datatype Choice = Choice(value: string, caption: string)

  /** The correct answer: option letters for choice questions, text otherwise. */
  datatype Correct = Letters(letters: seq<string>) | AnswerText(text: string)

  /** Number of letters or characters; JavaScript's `correct.length`. */
  function CorrectLength(c: Correct): nat {
    match c
    case Letters(ls) => |ls|
    case AnswerText(t) => |t|
  }

  /** The `content` column of a question. */
  datatype Content = Content(options: seq<Choice>, correct: Correct)

  /** What a learner has entered: the chosen letters, or free text. */
  datatype Answer = Chosen(values: seq<string>) | Written(text: string)

  /** A row of the `question` table together with the ids of the groups it
      is linked to (the `questionToGroups` relation loaded with it). Times are
      milliseconds since the epoch. */
  datatype Question = Question(
    id: string,
    title: string,
    content: Option<Content>,
    description: Option<string>,
    qtype: QuestionType,
    masteryLevel: MasteryLevel,
    reviewCount: nat,
    nextReviewAt: int,
    userId: string,
    folderId: string,
    groupIds: seq<string>)
}
