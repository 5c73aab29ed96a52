/**
 * The reducers of src/store/slices/uiSlice.ts. The state is a class whose
 * fields the reducers assign; each reducer is specified by a function on a
 * snapshot of those fields.
 */
module UiSlice {
  import opened Wrappers

  datatype Ui = Ui(
    sidebarCollapsed: bool,
    showNoteDetail: bool,
    isEditingNote: bool,
    isEditingDirectory: bool,
    editingItemId: Option<string>)

  /** `initialState`: sidebar open, no detail panel, nothing being edited. */
  const InitialUi := Ui(false, false, false, false, None)

  /** `toggleSidebar`: only `sidebarCollapsed` changes, to its negation. */
  function SidebarToggled(u: Ui): (r: Ui)
    ensures r.sidebarCollapsed == !u.sidebarCollapsed
    ensures r.(sidebarCollapsed := u.sidebarCollapsed) == u
  {
    u.(sidebarCollapsed := !u.sidebarCollapsed)
  }

  /** `setShowNoteDetail`: only `showNoteDetail` changes. */
  function WithNoteDetail(u: Ui, show: bool): (r: Ui)
    ensures r.showNoteDetail == show
    ensures r.(showNoteDetail := u.showNoteDetail) == u
  {
    u.(showNoteDetail := show)
  }

  /** `startEditingNote`: the note flag and the item id; the directory flag is left as it was. */
  function EditingNote(u: Ui, id: string): (r: Ui)
    ensures r.isEditingNote && r.editingItemId == Some(id)
    ensures r.(isEditingNote := u.isEditingNote, editingItemId := u.editingItemId) == u
  {
    u.(isEditingNote := true, editingItemId := Some(id))
  }

  /** `startEditingDirectory`: the directory flag and the item id; the note flag is left as it was. */
  function EditingDirectory(u: Ui, id: string): (r: Ui)
    ensures r.isEditingDirectory && r.editingItemId == Some(id)
    ensures r.(isEditingDirectory := u.isEditingDirectory, editingItemId := u.editingItemId) == u
  {
    u.(isEditingDirectory := true, editingItemId := Some(id))
  }

  /** `stopEditing`: both editing flags off and no item; the sidebar and the panel are left as they were. */
  function Stopped(u: Ui): (r: Ui)
    ensures !r.isEditingNote && !r.isEditingDirectory && r.editingItemId == None
    ensures r.sidebarCollapsed == u.sidebarCollapsed && r.showNoteDetail == u.showNoteDetail
  {
    u.(isEditingNote := false, isEditingDirectory := false, editingItemId := None)
  }

  /** Toggling the sidebar twice changes nothing. */
  lemma ToggleSidebarTwice(u: Ui)
    ensures SidebarToggled(SidebarToggled(u)) == u
  {
  }

  /** Stopping twice is stopping once, and it undoes either start. */
  lemma StopEditingIdempotent(u: Ui, id: string)
    ensures Stopped(Stopped(u)) == Stopped(u)
    ensures Stopped(EditingNote(u, id)) == Stopped(u) && Stopped(EditingDirectory(u, id)) == Stopped(u)
  {
  }

  class UiState {
    var sidebarCollapsed: bool
    var showNoteDetail: bool
    var isEditingNote: bool
    var isEditingDirectory: bool
    var editingItemId: Option<string>

    function Fields(): Ui
      reads this
    {
      Ui(sidebarCollapsed, showNoteDetail, isEditingNote, isEditingDirectory, editingItemId)
    }

    constructor ()
      ensures Fields() == InitialUi
    {
      sidebarCollapsed := false;
      showNoteDetail := false;
      isEditingNote := false;
      isEditingDirectory := false;
      editingItemId := None;
    }

    method ToggleSidebar()
      modifies this
      ensures Fields() == SidebarToggled(old(Fields()))
    {
      sidebarCollapsed := !sidebarCollapsed;
    }

    method SetShowNoteDetail(show: bool)
      modifies this
      ensures Fields() == WithNoteDetail(old(Fields()), show)
    {
      showNoteDetail := show;
    }

    method StartEditingNote(id: string)
      modifies this
      ensures Fields() == EditingNote(old(Fields()), id)
    {
      isEditingNote := true;
      editingItemId := Some(id);
    }

    method StartEditingDirectory(id: string)
      modifies this
      ensures Fields() == EditingDirectory(old(Fields()), id)
    {
      isEditingDirectory := true;
      editingItemId := Some(id);
    }

    method StopEditing()
      modifies this
      ensures Fields() == Stopped(old(Fields()))
    {
      isEditingNote := false;
      isEditingDirectory := false;
      editingItemId := None;
    }
  }
}
