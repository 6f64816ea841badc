/** The server actions on questions, over an abstract store: question rows by
    id, folders by id, the known group ids, and the question-to-group links.
    A failed statement aborts the whole transaction, so every action either
    returns the new store or an error and no store. */
module QuestionActions {
  import opened Wrappers
  import opened Domain

  /** The name of the folder created for questions filed nowhere. */
  const Unclassified: string := "\U{672A}\U{5206}\U{7C7B}"

  datatype Folder = Folder(name: string, isCanDelete: bool, userId: string)

  /** A stored question; `updatedAt` is milliseconds since the epoch. */
  datatype Row = Row(
    title: string,
    content: Option<Content>,
    description: Option<string>,
    qtype: QuestionType,
    masteryLevel: MasteryLevel,
    reviewCount: nat,
    nextReviewAt: int,
    updatedAt: int,
    userId: string,
    folderId: string)

  datatype Db = Db(
    questions: map<string, Row>,
    folders: map<string, Folder>,
    groups: set<string>,
    links: set<(string, string)>)

  /** Constraint violations that abort a transaction. */
  datatype DbError = DuplicateKey | MissingReference

  /** The body of `createNewQuestionAction`. */
  datatype CreateRequest = CreateRequest(
    title: string,
    content: Content,
    qtype: QuestionType,
    description: Option<string>,
    masteryLevel: MasteryLevel,
    reviewCount: nat,
    nextReviewAt: int,
    folderId: Option<string>)

  /** The body of `updateQuestionAction`: every field but `id` may be absent. */
  datatype UpdateRequest = UpdateRequest(
    id: string,
    title: Option<string>,
    content: Option<Content>,
    qtype: Option<QuestionType>,
    targetFolderId: Option<string>,
    sourceGroup: Option<seq<string>>,
    targetGroups: Option<seq<string>>,
    description: Option<string>,
    masteryLevel: Option<MasteryLevel>,
    reviewCount: Option<nat>,
    nextReviewAt: Option<int>)

  /** Some folder, of any user, already has this name (the name column is unique). */
  predicate NameTaken(db: Db, name: string) {
    exists f :: f in db.folders && db.folders[f].name == name
  }

  /** The folder a new question goes to: the given one, or a new "未分类"
      folder when the id is missing or empty. */
  function TargetFolder(db: Db, user: string, folderId: Option<string>, newFolderId: string): (r: Result<(Db, string), DbError>)
    ensures folderId.Some? && folderId.value != "" ==> r == Ok((db, folderId.value))
    ensures (folderId.None? || folderId.value == "") && r.Ok? ==>
              r.value.1 == newFolderId && r.value.0.folders == db.folders[newFolderId := Folder(Unclassified, false, user)]
    ensures (folderId.None? || folderId.value == "") ==>
              (r.Err? <==> NameTaken(db, Unclassified) || newFolderId in db.folders)
  {
    if folderId.Some? && folderId.value != "" then Ok((db, folderId.value))
    else if NameTaken(db, Unclassified) || newFolderId in db.folders then Err(DuplicateKey)
    else
      var folders := db.folders[newFolderId := Folder(Unclassified, false, user)];
      Ok((db.(folders := folders), newFolderId))
  }

  /** `createNewQuestionAction`: files the question in the target folder and
      stores the request's review state as given. `newFolderId` and `newId`
      stand for the ids the database generates. */
  function CreateQuestion(db: Db, user: string, req: CreateRequest, newFolderId: string, newId: string, now: int): (r: Result<Db, DbError>)
    ensures r.Ok? ==> newId in r.value.questions && newId !in db.questions
    ensures r.Ok? ==> var row := r.value.questions[newId];
              && row.title == req.title && row.content == Some(req.content) && row.qtype == req.qtype
              && row.description == req.description && row.userId == user
              && row.masteryLevel == req.masteryLevel && row.reviewCount == req.reviewCount
              && row.nextReviewAt == req.nextReviewAt && row.updatedAt == now
              && row.folderId in r.value.folders
    ensures r.Ok? ==> r.value.questions == db.questions[newId := r.value.questions[newId]]
    ensures r.Ok? ==> r.value.links == db.links && r.value.groups == db.groups
    ensures req.folderId.Some? && req.folderId.value != "" ==>
              (r.Ok? <==> req.folderId.value in db.folders && newId !in db.questions)
    ensures req.folderId.Some? && req.folderId.value != "" && r.Ok? ==>
              r.value.questions[newId].folderId == req.folderId.value && r.value.folders == db.folders
    ensures (req.folderId.None? || req.folderId.value == "") ==>
              (r.Ok? <==> !NameTaken(db, Unclassified) && newFolderId !in db.folders && newId !in db.questions)
    ensures (req.folderId.None? || req.folderId.value == "") && r.Ok? ==>
              r.value.questions[newId].folderId == newFolderId
              && r.value.folders == db.folders[newFolderId := Folder(Unclassified, false, user)]
  {
    match TargetFolder(db, user, req.folderId, newFolderId)
    case Err(e) => Err(e)
    case Ok((db', folderId)) =>
      if folderId !in db'.folders then Err(MissingReference)
      else if newId in db'.questions then Err(DuplicateKey)
      else
        var row := Row(req.title, Some(req.content), req.description, req.qtype, req.masteryLevel,
                       req.reviewCount, req.nextReviewAt, now, user, folderId);
        Ok(db'.(questions := db'.questions[newId := row]))
  }

  /** The columns of `row` the request sets; `updatedAt` is always set. */
  function ApplyFields(row: Row, req: UpdateRequest, now: int): (r: Row)
    ensures r.updatedAt == now && r.userId == row.userId
    ensures r.title == (if req.title.Some? then req.title.value else row.title)
    ensures r.content == (if req.content.Some? then req.content else row.content)
    ensures r.qtype == (if req.qtype.Some? then req.qtype.value else row.qtype)
    ensures r.description == (if req.description.Some? then req.description else row.description)
    ensures r.folderId == (if req.targetFolderId.Some? then req.targetFolderId.value else row.folderId)
    ensures r.masteryLevel == (if req.masteryLevel.Some? then req.masteryLevel.value else row.masteryLevel)
    ensures r.reviewCount == (if req.reviewCount.Some? then req.reviewCount.value else row.reviewCount)
    ensures r.nextReviewAt == (if req.nextReviewAt.Some? then req.nextReviewAt.value else row.nextReviewAt)
  {
    Row(
      req.title.GetOr(row.title),
      if req.content.Some? then req.content else row.content,
      if req.description.Some? then req.description else row.description,
      req.qtype.GetOr(row.qtype),
      req.masteryLevel.GetOr(row.masteryLevel),
      req.reviewCount.GetOr(row.reviewCount),
      req.nextReviewAt.GetOr(row.nextReviewAt),
      now,
      row.userId,
      req.targetFolderId.GetOr(row.folderId))
  }

  /** The row the update statement matches: the id and the calling user. */
  predicate Owns(db: Db, user: string, id: string) {
    id in db.questions && db.questions[id].userId == user
  }

  function Links(id: string, groups: seq<string>): (r: set<(string, string)>)
    ensures forall l :: l in r <==> l.0 == id && l.1 in groups
  {
    set g | g in groups :: (id, g)
  }

  predicate Distinct(xs: seq<string>) {
    forall i, j :: 0 <= i < j < |xs| ==> xs[i] != xs[j]
  }

  /** Deletes every link of the question and inserts one per listed group;
      a repeated group breaks the primary key and an unknown group or question
      the foreign keys. */
  function ReplaceLinks(db: Db, id: string, groups: seq<string>): (r: Result<Db, DbError>)
    ensures r.Ok? <==> Distinct(groups) && (forall g :: g in groups ==> g in db.groups) && (|groups| == 0 || id in db.questions)
    ensures r.Ok? ==> r.value.questions == db.questions && r.value.folders == db.folders && r.value.groups == db.groups
    ensures r.Ok? ==> forall l :: l in r.value.links <==> (l in db.links && l.0 != id) || (l.0 == id && l.1 in groups)
  {
    if !Distinct(groups) then Err(DuplicateKey)
    else if exists g :: g in groups && g !in db.groups then Err(MissingReference)
    else if |groups| > 0 && id !in db.questions then Err(MissingReference)
    else
      var kept := set l | l in db.links && l.0 != id;
      Ok(db.(links := kept + Links(id, groups)))
  }

  /** `updateQuestionAction`: writes the given fields to the caller's own row
      (a row of another user, or no row, is left alone), then replaces the
      question's links when `targetGroups` is a non-empty list. */
  function UpdateQuestion(db: Db, user: string, req: UpdateRequest, now: int): (r: Result<Db, DbError>)
    ensures r.Ok? <==>
              (!Owns(db, user, req.id) || req.targetFolderId.None? || req.targetFolderId.value in db.folders)
              && (req.targetGroups.None? || |req.targetGroups.value| == 0
                  || (Distinct(req.targetGroups.value) && (forall g :: g in req.targetGroups.value ==> g in db.groups)
                      && req.id in db.questions))
    ensures r.Ok? ==> r.value.folders == db.folders && r.value.groups == db.groups
    ensures r.Ok? ==> forall l: (string, string) :: l.0 != req.id ==> (l in r.value.links <==> l in db.links)
    ensures r.Ok? && Owns(db, user, req.id) ==>
              r.value.questions == db.questions[req.id := ApplyFields(db.questions[req.id], req, now)]
    ensures r.Ok? && !Owns(db, user, req.id) ==> r.value.questions == db.questions
    ensures r.Ok? && (req.targetGroups.None? || |req.targetGroups.value| == 0) ==> r.value.links == db.links
    ensures r.Ok? && req.targetGroups.Some? && |req.targetGroups.value| > 0 ==>
              forall g :: (req.id, g) in r.value.links <==> g in req.targetGroups.value
  {
    var fieldsOk := !Owns(db, user, req.id) || req.targetFolderId.None? || req.targetFolderId.value in db.folders;
    if !fieldsOk then Err(MissingReference)
    else
      var db' := if Owns(db, user, req.id)
                 then db.(questions := db.questions[req.id := ApplyFields(db.questions[req.id], req, now)])
                 else db;
      if req.targetGroups.Some? && |req.targetGroups.value| > 0 then ReplaceLinks(db', req.id, req.targetGroups.value)
      else Ok(db')
  }

  /** `deleteQuestionsAction`: removes every listed question whoever owns it;
      their links go with them (cascade). */
  function DeleteQuestions(db: Db, ids: seq<string>): (r: Db)
    ensures forall id :: id in r.questions <==> id in db.questions && id !in ids
    ensures forall id :: id in r.questions ==> r.questions[id] == db.questions[id]
    ensures forall l :: l in r.links <==> l in db.links && l.0 !in ids
    ensures r.folders == db.folders && r.groups == db.groups
  {
    var questions := map id | id in db.questions && id !in ids :: db.questions[id];
    var links := set l | l in db.links && l.0 !in ids;
    Db(questions, db.folders, db.groups, links)
  }

  /** The store's integrity: every question sits in an existing folder, and
      every link joins an existing question to an existing group. */
  predicate Consistent(db: Db) {
    && (forall id :: id in db.questions ==> db.questions[id].folderId in db.folders)
    && (forall l :: l in db.links ==> l.0 in db.questions && l.1 in db.groups)
  }

  /** Creating, updating and deleting keep the store consistent. */
  lemma ActionsKeepConsistent(db: Db, user: string, creq: CreateRequest, ureq: UpdateRequest,
                              ids: seq<string>, newFolderId: string, newId: string, now: int)
    requires Consistent(db)
    ensures CreateQuestion(db, user, creq, newFolderId, newId, now).Ok? ==>
              Consistent(CreateQuestion(db, user, creq, newFolderId, newId, now).value)
    ensures UpdateQuestion(db, user, ureq, now).Ok? ==> Consistent(UpdateQuestion(db, user, ureq, now).value)
    ensures Consistent(DeleteQuestions(db, ids))
  {
    var r := UpdateQuestion(db, user, ureq, now);
    if r.Ok? {
      var db2 := r.value;
      forall id | id in db2.questions ensures db2.questions[id].folderId in db2.folders {
        if id == ureq.id && Owns(db, user, ureq.id) {
        } else {
          assert db2.questions[id] == db.questions[id];
        }
      }
      forall l | l in db2.links ensures l.0 in db2.questions && l.1 in db2.groups {
        if ureq.targetGroups.Some? && |ureq.targetGroups.value| > 0 && l.0 == ureq.id {
          assert l.1 in ureq.targetGroups.value;
        }
      }
    }
  }

  /** The calling user's update leaves other users' rows alone. */
  lemma UpdateLeavesOthersRows(db: Db, user: string, req: UpdateRequest, now: int, id: string)
    requires UpdateQuestion(db, user, req, now).Ok?
    requires id in db.questions && db.questions[id].userId != user
    ensures id in UpdateQuestion(db, user, req, now).value.questions
    ensures UpdateQuestion(db, user, req, now).value.questions[id] == db.questions[id]
  {
  }

  /** Updating with only an id still stamps `updatedAt` and changes nothing else. */
  lemma EmptyUpdateOnlyStamps(db: Db, user: string, id: string, now: int)
    requires Owns(db, user, id)
    ensures var req := UpdateRequest(id, None, None, None, None, None, None, None, None, None, None);
            var r := UpdateQuestion(db, user, req, now);
            r.Ok? && r.value.links == db.links
            && r.value.questions == db.questions[id := db.questions[id].(updatedAt := now)]
  {
  }

  // ---------------------------------------------------------------------------
  // An empty `targetGroups` list is ignored, so a question cannot be taken out
  // of its last group.

  /** As written: asking for no groups leaves an existing link in place. */
  lemma EmptyTargetKeepsLinks(db: Db, user: string, req: UpdateRequest, now: int, g: string)
    requires req.targetGroups == Some([])
    requires (req.id, g) in db.links
    requires UpdateQuestion(db, user, req, now).Ok?
    ensures (req.id, g) in UpdateQuestion(db, user, req, now).value.links
  {
  }

  /** The update with any given `targetGroups` list, empty included, taken as
      the question's new set of groups. */
  function UpdateQuestionFixed(db: Db, user: string, req: UpdateRequest, now: int): (r: Result<Db, DbError>)
    ensures r.Ok? <==>
              (!Owns(db, user, req.id) || req.targetFolderId.None? || req.targetFolderId.value in db.folders)
              && (req.targetGroups.None? || |req.targetGroups.value| == 0
                  || (Distinct(req.targetGroups.value) && (forall g :: g in req.targetGroups.value ==> g in db.groups)
                      && req.id in db.questions))
    ensures r.Ok? ==> r.value.folders == db.folders && r.value.groups == db.groups
    ensures r.Ok? && Owns(db, user, req.id) ==>
              r.value.questions == db.questions[req.id := ApplyFields(db.questions[req.id], req, now)]
    ensures r.Ok? && !Owns(db, user, req.id) ==> r.value.questions == db.questions
    ensures r.Ok? && req.targetGroups.None? ==> r.value.links == db.links
    ensures r.Ok? && req.targetGroups.Some? ==>
              forall g :: (req.id, g) in r.value.links <==> g in req.targetGroups.value
    ensures r.Ok? ==> forall l: (string, string) :: l.0 != req.id ==> (l in r.value.links <==> l in db.links)
  {
    var fieldsOk := !Owns(db, user, req.id) || req.targetFolderId.None? || req.targetFolderId.value in db.folders;
    if !fieldsOk then Err(MissingReference)
    else
      var db' := if Owns(db, user, req.id)
                 then db.(questions := db.questions[req.id := ApplyFields(db.questions[req.id], req, now)])
                 else db;
      if req.targetGroups.Some? then ReplaceLinks(db', req.id, req.targetGroups.value)
      else Ok(db')
  }

  /** Corrected: an empty list removes the question from every group, and the
      two versions agree whenever the list is absent or non-empty. */
  lemma FixedEmptyTargetClearsLinks(db: Db, user: string, req: UpdateRequest, now: int)
    ensures req.targetGroups == Some([]) && UpdateQuestionFixed(db, user, req, now).Ok? ==>
              forall g :: (req.id, g) !in UpdateQuestionFixed(db, user, req, now).value.links
    ensures req.targetGroups != Some([]) ==> UpdateQuestionFixed(db, user, req, now) == UpdateQuestion(db, user, req, now)
  {
  }
}
