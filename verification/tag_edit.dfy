/** Tag editing in the two group dialogs (the group form and the new-group
    dialog, which share one behaviour) and in the sidebar's folder/group
    dialog, plus what each dialog submits. */
module TagEdit {
  import opened Wrappers
  import opened Text

  const MaxTags: nat := 5

  /** The tag list and the text typed in the tag input. */
  datatype TagState = TagState(tags: seq<string>, input: string)

  /** The warnings an addition can raise. */
  datatype Notice = TooManyTags | DuplicateTag

  /** `handleAddTag` of the group dialogs: the input is trimmed; a blank input
      is ignored; five tags or an existing tag raise a warning and keep the
      input; otherwise the tag is appended and the input cleared. */
  function GroupAddTag(st: TagState): (r: (TagState, Option<Notice>))
    ensures Trim(st.input) == "" ==> r == (st, None)
    ensures Trim(st.input) != "" && |st.tags| >= MaxTags ==> r == (st, Some(TooManyTags))
    ensures Trim(st.input) != "" && |st.tags| < MaxTags && Trim(st.input) in st.tags ==> r == (st, Some(DuplicateTag))
    ensures r.1.None? && r.0 != st ==> r.0 == TagState(st.tags + [Trim(st.input)], "")
    ensures r.0 != st <==> Trim(st.input) != "" && |st.tags| < MaxTags && Trim(st.input) !in st.tags
  {
    var t := Trim(st.input);
    if t == "" then (st, None)
    else if |st.tags| >= MaxTags then (st, Some(TooManyTags))
    else if t in st.tags then (st, Some(DuplicateTag))
    else
      assert t !in st.tags && st.tags + [t] != st.tags by {
        assert (st.tags + [t])[|st.tags|] == t;
      }
      (TagState(st.tags + [t], ""), None)
  }

  /** `handleRemoveTag`: every equal tag goes; the input is untouched. */
  function RemoveTag(st: TagState, tag: string): (r: TagState)
    ensures r.input == st.input
    ensures tag !in r.tags
    ensures forall x :: x != tag ==> (x in r.tags <==> x in st.tags)
  {
    st.(tags := Without(st.tags, tag))
  }

  /** The group dialogs' tag list: at most five tags, each trimmed and
      non-empty, no two equal. */
  predicate ValidTags(tags: seq<string>) {
    && |tags| <= MaxTags
    && (forall i :: 0 <= i < |tags| ==> tags[i] != "" && IsTrimmed(tags[i]))
    && (forall i, j :: 0 <= i < j < |tags| ==> tags[i] != tags[j])
  }

  /** Adding and removing keep a valid tag list valid. */
  lemma GroupEditsKeepValid(st: TagState, tag: string)
    requires ValidTags(st.tags)
    ensures ValidTags(GroupAddTag(st).0.tags)
    ensures ValidTags(RemoveTag(st, tag).tags)
  {
    var t := Trim(st.input);
    if t != "" && |st.tags| < MaxTags && t !in st.tags {
      var ts := st.tags + [t];
      forall i, j | 0 <= i < j < |ts| ensures ts[i] != ts[j] {
        if j == |st.tags| {
          assert ts[i] == st.tags[i];
        }
      }
    }
    WithoutKeepsValid(st.tags, tag);
  }

  lemma {:induction false} WithoutKeepsValid(tags: seq<string>, tag: string)
    requires ValidTags(tags)
    ensures ValidTags(Without(tags, tag))
  {
    if |tags| > 0 {
      assert ValidTags(tags[1..]);
      WithoutKeepsValid(tags[1..], tag);
      if tags[0] != tag {
        var r := [tags[0]] + Without(tags[1..], tag);
        assert tags[0] !in tags[1..];
        forall i, j | 0 <= i < j < |r| ensures r[i] != r[j] {
          if i == 0 {
            assert r[j] in Without(tags[1..], tag);
          }
        }
      }
    }
  }

  /** Adding a tag and then removing it gives back the list before. */
  lemma AddThenRemove(st: TagState)
    requires GroupAddTag(st).0 != st
    ensures RemoveTag(GroupAddTag(st).0, Trim(st.input)).tags == st.tags
  {
    var t := Trim(st.input);
    WithoutConcat(st.tags, [t], t);
    WithoutAbsent(st.tags, t);
    assert Without([t], t) == [];
  }

  /** Typing the same tag again is refused as a duplicate. */
  lemma AddTwiceRefused(st: TagState)
    requires GroupAddTag(st).0 != st
    requires |st.tags| + 1 < MaxTags
    ensures GroupAddTag(GroupAddTag(st).0.(input := st.input)).1 == Some(DuplicateTag)
  {
    var t := Trim(st.input);
    assert (st.tags + [t])[|st.tags|] == t;
  }

  /** The form fields validated on submit. */
  datatype GroupValues = GroupValues(name: string, description: string, tag: seq<string>)

  /** The fields the schema can reject. */
  datatype GroupField = NameField | DescriptionField | TagField

  /** The schema: name and description at least one character long, at most
      five tags. */
  function SchemaErrors(v: GroupValues): (r: set<GroupField>)
    ensures NameField in r <==> |v.name| < 1
    ensures DescriptionField in r <==> |v.description| < 1
    ensures TagField in r <==> |v.tag| > MaxTags
  {
    (if |v.name| < 1 then {NameField} else {})
    + (if |v.description| < 1 then {DescriptionField} else {})
    + (if |v.tag| > MaxTags then {TagField} else {})
  }

  /** Every tag trimmed. */
  function TrimAll(tags: seq<string>): (r: seq<string>)
    ensures |r| == |tags|
    ensures forall i :: 0 <= i < |tags| ==> r[i] == Trim(tags[i])
  {
    seq(|tags|, i requires 0 <= i < |tags| => Trim(tags[i]))
  }

  /** `handleSubmit` / `onSubmit` behind the schema: the values with every tag
      trimmed, or the fields the schema rejects. */
  function SubmitGroup(v: GroupValues): (r: Result<GroupValues, set<GroupField>>)
    ensures r.Err? <==> |v.name| < 1 || |v.description| < 1 || |v.tag| > MaxTags
    ensures r.Err? ==> r.error == SchemaErrors(v) && r.error != {}
    ensures r.Ok? ==> r.value.name == v.name && r.value.description == v.description
    ensures r.Ok? ==> |r.value.tag| == |v.tag| && forall i :: 0 <= i < |v.tag| ==> r.value.tag[i] == Trim(v.tag[i])
  {
    var errors := SchemaErrors(v);
    if errors != {} then Err(errors)
    else Ok(GroupValues(v.name, v.description, TrimAll(v.tag)))
  }

  /** A tag list built by the dialog is sent exactly as shown. */
  lemma SubmitValidTagsUnchanged(v: GroupValues)
    requires ValidTags(v.tag) && |v.name| >= 1 && |v.description| >= 1
    ensures SubmitGroup(v) == Ok(v)
  {
    forall i | 0 <= i < |v.tag| ensures Trim(v.tag[i]) == v.tag[i] {
      TrimOfTrimmed(v.tag[i]);
    }
    assert TrimAll(v.tag) == v.tag;
  }

  // ---------------------------------------------------------------------------
  // The sidebar dialog.

  /** `handleKeyDown`: Enter with a non-blank input appends the trimmed tag
      when absent and clears the input even when it was present; there is no
      limit on the number of tags. Any other key changes nothing. */
  function SidebarKeyDown(st: TagState, key: string): (r: TagState)
    ensures key != "Enter" || Trim(st.input) == "" ==> r == st
    ensures key == "Enter" && Trim(st.input) != "" ==> r.input == ""
    ensures key == "Enter" && Trim(st.input) != "" && Trim(st.input) !in st.tags ==> r.tags == st.tags + [Trim(st.input)]
    ensures Trim(st.input) in st.tags ==> r.tags == st.tags
  {
    var t := Trim(st.input);
    if key == "Enter" && t != "" then
      TagState(if t !in st.tags then st.tags + [t] else st.tags, "")
    else st
  }

  /** Unlike the group dialogs, the sidebar accepts a sixth tag. */
  lemma SidebarHasNoCap()
    ensures var st := TagState(["a", "b", "c", "d", "e"], "f");
            |SidebarKeyDown(st, "Enter").tags| == 6 && GroupAddTag(st).1 == Some(TooManyTags)
  {
    var tags: seq<string> := ["a", "b", "c", "d", "e"];
    var st := TagState(tags, "f");
    assert Trim("f") == "f" by {
      TrimOfTrimmed("f");
    }
    assert |tags| == 5;
    assert "f" !in tags;
    assert SidebarKeyDown(st, "Enter").tags == tags + ["f"];
  }

  /** Keys in the sidebar keep the tags distinct, trimmed and non-empty. */
  lemma SidebarKeepsTagsClean(st: TagState, key: string, tag: string)
    requires forall i :: 0 <= i < |st.tags| ==> st.tags[i] != "" && IsTrimmed(st.tags[i])
    requires forall i, j :: 0 <= i < j < |st.tags| ==> st.tags[i] != st.tags[j]
    ensures var ts := SidebarKeyDown(st, key).tags;
            (forall i :: 0 <= i < |ts| ==> ts[i] != "" && IsTrimmed(ts[i]))
            && (forall i, j :: 0 <= i < j < |ts| ==> ts[i] != ts[j])
  {
    var ts := SidebarKeyDown(st, key).tags;
    var t := Trim(st.input);
    if ts != st.tags {
      forall i, j | 0 <= i < j < |ts| ensures ts[i] != ts[j] {
        if j == |st.tags| {
          assert ts[i] == st.tags[i];
        }
      }
    }
  }

  /** What the sidebar item being edited carries: a folder has neither a
      description nor tags. */
  datatype ItemData = FolderData | GroupData(description: Option<string>, tag: seq<string>)

  datatype SidebarItem = SidebarItem(name: string, data: ItemData)

  datatype DialogState = DialogState(name: string, description: string, tags: TagState)

  /** The effect that loads the dialog from its item: with no item every
      field is emptied; a folder item sets only the name. */
  function SyncItem(st: DialogState, item: Option<SidebarItem>): (r: DialogState)
    ensures item.None? ==> r.name == "" && r.description == "" && r.tags.tags == []
    ensures item.Some? ==> r.name == item.value.name
    ensures item.Some? && item.value.data.FolderData? ==> r.description == st.description && r.tags == st.tags
    ensures item.Some? && item.value.data.GroupData? ==>
              r.description == item.value.data.description.GetOr("") && r.tags.tags == item.value.data.tag
    ensures r.tags.input == st.tags.input
  {
    match item
    case None => DialogState("", "", st.tags.(tags := []))
    case Some(it) =>
      match it.data
      case FolderData => st.(name := it.name)
      case GroupData(d, ts) => DialogState(it.name, d.GetOr(""), st.tags.(tags := ts))
  }

  /** What the sidebar dialog submits. */
  datatype SidebarPayload = FolderPayload(name: string) | GroupPayload(name: string, description: string, tag: seq<string>)

  datatype ItemType = FolderItem | GroupItem

  function SidebarSubmit(kind: ItemType, st: DialogState): (r: SidebarPayload)
    ensures kind == FolderItem <==> r.FolderPayload?
    ensures r.name == st.name
    ensures r.GroupPayload? ==> r.description == st.description && r.tag == st.tags.tags
  {
    if kind == FolderItem then FolderPayload(st.name) else GroupPayload(st.name, st.description, st.tags.tags)
  }

  /** Opening the dialog on a group and submitting it sends the group back unchanged. */
  lemma EditGroupRoundTrip(st: DialogState, name: string, description: string, tag: seq<string>)
    ensures SidebarSubmit(GroupItem, SyncItem(st, Some(SidebarItem(name, GroupData(Some(description), tag)))))
            == GroupPayload(name, description, tag)
  {
  }
}
