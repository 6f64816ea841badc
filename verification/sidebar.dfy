/** The management sidebar: the folder/group search, the empty state, and
    the create/edit/delete dialog's submit handler with its effect on the
    selection. */
module Sidebar {
  import opened Wrappers
  import opened Text
  import opened TagEdit

  /** A folder or group as listed: its id and its name. */
  datatype Item = Item(id: string, name: string)

  /** An item matches when its lower-cased name contains the lower-cased search. */
  predicate Matches(item: Item, search: string) {
    Contains(ToLower(item.name), ToLower(search))
  }

  /** `filteredItems`: the matching items, in list order. */
  function FilterItems(items: seq<Item>, search: string): (r: seq<Item>)
    ensures |r| <= |items|
    ensures forall x :: x in r <==> x in items && Matches(x, search)
  {
    if items == [] then []
    else
      var rest := FilterItems(items[1..], search);
      if Matches(items[0], search) then [items[0]] + rest else rest
  }

  /** Filtering keeps the matching items in their order: filtering a
      concatenation filters each part. */
  lemma {:induction false} FilterConcat(a: seq<Item>, b: seq<Item>, search: string)
    ensures FilterItems(a + b, search) == FilterItems(a, search) + FilterItems(b, search)
  {
    if a != [] {
      assert (a + b)[1..] == a[1..] + b;
      FilterConcat(a[1..], b, search);
    } else {
      assert a + b == b;
    }
  }

  /** An empty search keeps every item. */
  lemma {:induction false} EmptySearchKeepsAll(items: seq<Item>)
    ensures FilterItems(items, "") == items
  {
    if items != [] {
      assert ToLower("") == "";
      ContainsEmpty(ToLower(items[0].name));
      EmptySearchKeepsAll(items[1..]);
    }
  }

  /** What the list area shows. */
  datatype ListView = Skeleton | EmptyState | Listed(items: seq<Item>)

  /** While loading, placeholders; when no item matches, the empty-state
      message; otherwise the whole unfiltered list. */
  function ListArea(items: seq<Item>, search: string, loading: bool): (r: ListView)
    ensures loading ==> r == Skeleton
    ensures !loading ==> (r == EmptyState <==> FilterItems(items, search) == [])
    ensures r.Listed? ==> r.items == items
  {
    if loading then Skeleton
    else if FilterItems(items, search) == [] then EmptyState
    else Listed(items)
  }

  /** The search never hides an item: whenever the list is drawn it is the
      full list, and it is drawn iff some item matches. */
  lemma SearchOnlyTogglesEmptyState(items: seq<Item>, search: string, x: Item)
    requires x in items && Matches(x, search)
    ensures ListArea(items, search, false) == Listed(items)
  {
    assert x in FilterItems(items, search);
  }

  /** The dialog's kind. */
  datatype DialogKind = Create | Edit | Delete

  datatype DialogConfig = DialogConfig(open: bool, kind: DialogKind, item: Option<Item>)

  /** The sidebar tab in use. */
  datatype Tab = FolderTab | GroupTab

  /** The server action the submit calls. */
  datatype Call =
    | NoCall
    | CreateFolder(name: string)
    | CreateGroup(name: string, description: string, tag: seq<string>)
    | UpdateFolder(id: string, name: string)
    | UpdateGroup(id: string, name: string, description: string, tag: seq<string>)
    | DeleteFolder(id: string)
    | DeleteGroup(id: string)

  /** How the awaited action ended: a response with `success`, one without,
      or an exception. */
  datatype ActionEnd = Succeeded | Unsuccessful | Threw

  /** The sidebar state the submit can change. */
  datatype SidebarState = SidebarState(dialog: DialogConfig, selectedFolderId: string, selectedGroupId: string)

  /** The call `handleSubmit` makes for the dialog's kind and the tab. */
  function SubmitCall(cfg: DialogConfig, tab: Tab, form: GroupValues): (r: Call)
    ensures (cfg.kind.Edit? || cfg.kind.Delete?) && cfg.item.None? ==> r == NoCall
    ensures cfg.kind.Create? ==> r == (if tab.FolderTab? then CreateFolder(form.name) else CreateGroup(form.name, form.description, form.tag))
    ensures cfg.kind.Delete? && cfg.item.Some? ==> r == (if tab.FolderTab? then DeleteFolder(cfg.item.value.id) else DeleteGroup(cfg.item.value.id))
    ensures cfg.kind.Edit? && cfg.item.Some? && tab.FolderTab? ==> r == UpdateFolder(cfg.item.value.id, form.name)
    ensures cfg.kind.Edit? && cfg.item.Some? && tab.GroupTab? ==> r == UpdateGroup(cfg.item.value.id, form.name, form.description, form.tag)
  {
    match cfg.kind
    case Create => if tab.FolderTab? then CreateFolder(form.name) else CreateGroup(form.name, form.description, form.tag)
    case Edit =>
      if cfg.item.None? then NoCall
      else if tab.FolderTab? then UpdateFolder(cfg.item.value.id, form.name)
      else UpdateGroup(cfg.item.value.id, form.name, form.description, form.tag)
    case Delete =>
      if cfg.item.None? then NoCall
      else if tab.FolderTab? then DeleteFolder(cfg.item.value.id)
      else DeleteGroup(cfg.item.value.id)
  }

  /** Creation needs no item; editing and deleting act on the dialog's item. */
  predicate HasTarget(cfg: DialogConfig) {
    cfg.kind.Create? || cfg.item.Some?
  }

  /** `handleSubmit` once the call has ended: an edit or delete without an
      item returns early with the dialog open; an exception leaves it open;
      otherwise it closes, and a successful delete of the selected item
      clears that selection. */
  function SubmitEffect(st: SidebarState, tab: Tab, end: ActionEnd): (r: SidebarState)
    ensures r.dialog.kind == st.dialog.kind && r.dialog.item == st.dialog.item
    ensures !HasTarget(st.dialog) || end.Threw? ==> r == st
    ensures HasTarget(st.dialog) && !end.Threw? ==> !r.dialog.open
    ensures r.selectedFolderId != st.selectedFolderId ==>
              st.dialog.kind.Delete? && tab.FolderTab? && end.Succeeded? && r.selectedFolderId == ""
    ensures r.selectedGroupId != st.selectedGroupId ==>
              st.dialog.kind.Delete? && tab.GroupTab? && end.Succeeded? && r.selectedGroupId == ""
  {
    var cfg := st.dialog;
    if (cfg.kind.Edit? || cfg.kind.Delete?) && cfg.item.None? then st
    else if end.Threw? then st
    else
      var closed := st.(dialog := cfg.(open := false));
      if cfg.kind.Delete? && end.Succeeded? then
        var id := cfg.item.value.id;
        if tab.FolderTab? then
          closed.(selectedFolderId := if st.selectedFolderId == id then "" else st.selectedFolderId)
        else
          closed.(selectedGroupId := if st.selectedGroupId == id then "" else st.selectedGroupId)
      else closed
  }

  /** Deleting the selected folder or group clears the selection; deleting
      another item keeps it. */
  lemma DeleteClearsSelection(st: SidebarState, tab: Tab, item: Item)
    requires st.dialog.kind.Delete? && st.dialog.item == Some(item)
    ensures var r := SubmitEffect(st, tab, Succeeded);
            (tab.FolderTab? ==> (r.selectedFolderId == "" <==> st.selectedFolderId == item.id || st.selectedFolderId == ""))
            && (tab.GroupTab? ==> (r.selectedGroupId == "" <==> st.selectedGroupId == item.id || st.selectedGroupId == ""))
            && !r.dialog.open
  {
  }

  /** A handled submit closes the dialog; a thrown error keeps it open. */
  lemma CloseIffHandled(st: SidebarState, tab: Tab, end: ActionEnd)
    requires st.dialog.open && st.dialog.item.Some?
    ensures !SubmitEffect(st, tab, end).dialog.open <==> !end.Threw?
  {
  }

  /** `handleCloseDialog`: a request to close closes; a request to open is ignored. */
  function CloseDialog(cfg: DialogConfig, open: bool): (r: DialogConfig)
    ensures r.kind == cfg.kind && r.item == cfg.item
    ensures !open ==> !r.open
    ensures open ==> r == cfg
  {
    if !open then cfg.(open := false) else cfg
  }
}
