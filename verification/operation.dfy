/** The question table's batch operations: which rows are selected, the
    group-id lists sent for remove-from-group, add-to-group and
    move-to-folder, and the choice between removing and deleting. Each
    operation builds `updateQuestionAction` requests. */
module Operation {
  import opened Wrappers
  import opened Domain
  import opened Text
  import opened QuestionActions

  /** The sidebar tab in use. */
  datatype Mode = FolderMode | GroupMode

  /** The folder a question created from this page goes to: the selected
      folder in folder mode, the user's unclassified folder otherwise. */
  function TargetFolderId(mode: Mode, selectedFolderId: string, unclassifiedId: string): (r: string)
    ensures mode.FolderMode? ==> r == selectedFolderId
    ensures mode.GroupMode? ==> r == unclassifiedId
  {
    if mode.FolderMode? then selectedFolderId else unclassifiedId
  }

  /** The selected row indices below n, ascending (the order `Object.keys`
      gives integer keys). */
  function SelectedIndices(selection: set<nat>, n: nat): (r: seq<nat>)
    ensures forall i :: i in r <==> i in selection && i < n
    ensures forall j :: 0 <= j < |r| ==> r[j] < n
    ensures forall a, b :: 0 <= a < b < |r| ==> r[a] < r[b]
  {
    if n == 0 then []
    else
      var before := SelectedIndices(selection, n - 1);
      if n - 1 in selection then before + [n - 1] else before
  }

  /** `selectedQuestions`: the rows at the selected indices, in index order. */
  function SelectedQuestions(rows: seq<Question>, selection: set<nat>): (r: seq<Question>)
    requires forall i :: i in selection ==> i < |rows|
    ensures |r| == |SelectedIndices(selection, |rows|)|
    ensures forall j :: 0 <= j < |r| ==> r[j] == rows[SelectedIndices(selection, |rows|)[j]]
  {
    var idx := SelectedIndices(selection, |rows|);
    seq(|idx|, j requires 0 <= j < |idx| => rows[idx[j]])
  }

  /** Position j is the only one of idx holding i. */
  predicate OnlyAt(idx: seq<nat>, i: nat, j: int) {
    0 <= j < |idx| && idx[j] == i && forall k :: 0 <= k < |idx| && k != j ==> idx[k] != i
  }

  /** Each selected row is sent exactly once. */
  lemma EachSelectedRowOnce(rows: seq<Question>, selection: set<nat>, i: nat)
    requires forall k :: k in selection ==> k < |rows|
    requires i in selection
    ensures exists j :: OnlyAt(SelectedIndices(selection, |rows|), i, j)
  {
    var idx := SelectedIndices(selection, |rows|);
    assert i in idx;
    var j :| 0 <= j < |idx| && idx[j] == i;
    forall k | 0 <= k < |idx| && k != j ensures idx[k] != i {
      if k < j { assert idx[k] < idx[j]; } else { assert idx[j] < idx[k]; }
    }
    assert OnlyAt(idx, i, j);
  }

  /** The group ids kept when a question leaves the selected group, in order. */
  function RemoveGroupIds(groupIds: seq<string>, group: string): (r: seq<string>)
    ensures group !in r
    ensures forall g :: g != group ==> (g in r <==> g in groupIds)
  {
    Without(groupIds, group)
  }

  /** The group ids sent when a question joins `group`: the others first, the
      target once, last. */
  function AddGroupIds(groupIds: seq<string>, group: string): (r: seq<string>)
    ensures |r| > 0 && r[|r| - 1] == group && group !in r[..|r| - 1]
    ensures forall g :: g != group ==> (g in r <==> g in groupIds)
  {
    var rest := Without(groupIds, group);
    assert (rest + [group])[..|rest|] == rest;
    rest + [group]
  }

  /** Re-adding a question to a group it is already in sends as many ids as
      it has groups. */
  lemma AddToPresentGroupKeepsCount(groupIds: seq<string>, group: string)
    requires group in groupIds && Distinct(groupIds)
    ensures |AddGroupIds(groupIds, group)| == |groupIds|
  {
    WithoutDistinctCount(groupIds, group);
  }

  /** Removing a value held once from a list without repeats shortens it by one. */
  lemma {:induction false} WithoutDistinctCount(xs: seq<string>, v: string)
    requires Distinct(xs) && v in xs
    ensures |Without(xs, v)| == |xs| - 1
  {
    assert Distinct(xs[1..]) by {
      forall i, j | 0 <= i < j < |xs[1..]| ensures xs[1..][i] != xs[1..][j] {
        assert xs[1..][i] == xs[i + 1] && xs[1..][j] == xs[j + 1];
      }
    }
    if xs[0] == v {
      assert v !in xs[1..] by {
        forall k | 0 <= k < |xs[1..]| ensures xs[1..][k] != v {
          assert xs[1..][k] == xs[k + 1];
        }
      }
      WithoutAbsent(xs[1..], v);
    } else {
      WithoutDistinctCount(xs[1..], v);
    }
  }

  /** `question.content || { options: [], correct: [] }`. */
  function ContentOrEmpty(c: Option<Content>): (r: Content)
    ensures c.Some? ==> r == c.value
    ensures c.None? ==> r.options == [] && r.correct == Letters([])
  {
    if c.Some? then c.value else Content([], Letters([]))
  }

  /** The request every batch operation sends for a question: its title,
      content, type and description (an empty description is dropped), the
      given folder and group list, and no review state. */
  function BatchRequest(q: Question, folder: Option<string>, groups: seq<string>): (r: UpdateRequest)
    ensures r.id == q.id && r.title == Some(q.title) && r.qtype == Some(q.qtype)
    ensures r.content == Some(ContentOrEmpty(q.content))
    ensures r.description.Some? <==> q.description.Some? && q.description.value != ""
    ensures r.targetGroups == Some(groups) && r.targetFolderId == folder
    ensures r.masteryLevel.None? && r.reviewCount.None? && r.nextReviewAt.None? && r.sourceGroup.None?
  {
    var description := if q.description.Some? && q.description.value != "" then q.description else None;
    UpdateRequest(q.id, Some(q.title), Some(ContentOrEmpty(q.content)), Some(q.qtype), folder, None,
                  Some(groups), description, None, None, None)
  }

  /** What the remove/delete button does. */
  datatype BatchOutcome = NothingSelected | UpdatesSent(requests: seq<UpdateRequest>) | DeleteSent(ids: seq<string>)

  /** `handleBatchDelete`: with nothing selected it only warns; in group mode
      with a group chosen each selected question leaves that group; otherwise
      the selected questions are deleted. */
  function BatchDelete(mode: Mode, selectedGroupId: string, selected: seq<Question>): (r: BatchOutcome)
    ensures selected == [] ==> r == NothingSelected
    ensures selected != [] && mode.GroupMode? && selectedGroupId != "" ==>
              r.UpdatesSent? && |r.requests| == |selected|
              && forall i :: 0 <= i < |selected| ==>
                   r.requests[i] == BatchRequest(selected[i], None, RemoveGroupIds(selected[i].groupIds, selectedGroupId))
    ensures r.DeleteSent? <==> selected != [] && (mode.FolderMode? || selectedGroupId == "")
    ensures r.DeleteSent? ==> |r.ids| == |selected| && forall i :: 0 <= i < |selected| ==> r.ids[i] == selected[i].id
  {
    if selected == [] then NothingSelected
    else if mode.GroupMode? && selectedGroupId != "" then
      UpdatesSent(seq(|selected|, i requires 0 <= i < |selected| =>
        BatchRequest(selected[i], None, RemoveGroupIds(selected[i].groupIds, selectedGroupId))))
    else DeleteSent(seq(|selected|, i requires 0 <= i < |selected| => selected[i].id))
  }

  /** The add-to-group menu: every selected question joins `group`. */
  function AddToGroup(selected: seq<Question>, group: string): (r: seq<UpdateRequest>)
    ensures |r| == |selected|
    ensures forall i :: 0 <= i < |r| ==> r[i] == BatchRequest(selected[i], None, AddGroupIds(selected[i].groupIds, group))
  {
    seq(|selected|, i requires 0 <= i < |selected| => BatchRequest(selected[i], None, AddGroupIds(selected[i].groupIds, group)))
  }

  /** The move-to-folder menu: every selected question goes to `folder` with
      its group ids as they are. */
  function MoveToFolder(selected: seq<Question>, folder: string): (r: seq<UpdateRequest>)
    ensures |r| == |selected|
    ensures forall i :: 0 <= i < |r| ==> r[i] == BatchRequest(selected[i], Some(folder), selected[i].groupIds)
  {
    seq(|selected|, i requires 0 <= i < |selected| => BatchRequest(selected[i], Some(folder), selected[i].groupIds))
  }

  /** Group mode never deletes a question. */
  lemma GroupModeNeverDeletes(selectedGroupId: string, selected: seq<Question>)
    requires selectedGroupId != ""
    ensures !BatchDelete(GroupMode, selectedGroupId, selected).DeleteSent?
  {
  }

  /** No batch request touches the review state of a question. */
  lemma BatchKeepsReviewState(db: Db, user: string, q: Question, folder: Option<string>, groups: seq<string>, now: int)
    requires Owns(db, user, q.id)
    requires UpdateQuestion(db, user, BatchRequest(q, folder, groups), now).Ok?
    ensures var row := UpdateQuestion(db, user, BatchRequest(q, folder, groups), now).value.questions[q.id];
            row.masteryLevel == db.questions[q.id].masteryLevel
            && row.reviewCount == db.questions[q.id].reviewCount
            && row.nextReviewAt == db.questions[q.id].nextReviewAt
  {
  }

  /** Joining a group, once the server accepts it, links the question to
      exactly its shown groups and the new one. */
  lemma AddToGroupLinks(db: Db, user: string, q: Question, group: string, now: int)
    requires UpdateQuestion(db, user, BatchRequest(q, None, AddGroupIds(q.groupIds, group)), now).Ok?
    ensures var links := UpdateQuestion(db, user, BatchRequest(q, None, AddGroupIds(q.groupIds, group)), now).value.links;
            forall g :: (q.id, g) in links <==> g in q.groupIds || g == group
  {
  }

  /** Leaving a group that is not the question's last, once accepted, unlinks
      it from that group and keeps its other shown groups. */
  lemma RemoveFromGroupLinks(db: Db, user: string, q: Question, group: string, now: int)
    requires RemoveGroupIds(q.groupIds, group) != []
    requires UpdateQuestion(db, user, BatchRequest(q, None, RemoveGroupIds(q.groupIds, group)), now).Ok?
    ensures var links := UpdateQuestion(db, user, BatchRequest(q, None, RemoveGroupIds(q.groupIds, group)), now).value.links;
            (q.id, group) !in links && forall g :: g != group ==> ((q.id, g) in links <==> g in q.groupIds)
  {
  }

  /** As written: taking a question out of its only group sends an empty
      list, which the server ignores, so the question stays in the group. */
  lemma RemoveLastGroupKeepsLink(db: Db, user: string, q: Question, group: string, now: int)
    requires q.groupIds == [group] && (q.id, group) in db.links
    requires UpdateQuestion(db, user, BatchRequest(q, None, RemoveGroupIds(q.groupIds, group)), now).Ok?
    ensures (q.id, group) in UpdateQuestion(db, user, BatchRequest(q, None, RemoveGroupIds(q.groupIds, group)), now).value.links
  {
    assert Without([group], group) == [];
    EmptyTargetKeepsLinks(db, user, BatchRequest(q, None, []), now, group);
  }

  /** Corrected: with the empty list taken as "no groups", the question
      leaves its only group. */
  lemma RemoveLastGroupFixed(db: Db, user: string, q: Question, group: string, now: int)
    requires q.groupIds == [group]
    requires UpdateQuestionFixed(db, user, BatchRequest(q, None, RemoveGroupIds(q.groupIds, group)), now).Ok?
    ensures (q.id, group) !in UpdateQuestionFixed(db, user, BatchRequest(q, None, RemoveGroupIds(q.groupIds, group)), now).value.links
  {
    assert Without([group], group) == [];
  }
}
