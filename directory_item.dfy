/**
 * One row of the directory tree, src/components/Directory/DirectoryItem.tsx:
 * the derived flags it renders from and the rename and create-child
 * handlers. The row's `directory` prop is fixed while a handler runs; its
 * local state is the draft name. Sync actions are dispatched to the states
 * passed in; `createDirectory` and `updateDirectory` are returned as
 * requests. The name the prompt returns is a parameter (None when dismissed).
 */
module DirectoryItem {
  import opened Wrappers
  import opened Types
  import opened Text
  import opened DirectoryForest
  import opened DirectoriesSlice
  import opened UiSlice

  /** `directory.children && directory.children.length > 0`. */
  predicate HasChildren(d: Directory)
  {
    d.children.Present? && |d.children.nodes| > 0
  }

  /** The children are rendered when the row is expanded and has children. */
  predicate ShowsChildren(d: Directory)
  {
    IsExpanded(d) && HasChildren(d)
  }

  /** `isEditingDirectory && editingItemId === directory.id`. */
  predicate IsEditing(isEditingDirectory: bool, editingItemId: Option<string>, d: Directory)
  {
    isEditingDirectory && editingItemId == Some(d.id)
  }

  /**
   * The rename `handleSaveEdit` sends: when the trimmed draft is non-empty
   * and the untrimmed draft differs from the current name, the trimmed draft.
   */
  function SaveEditRequests(editingName: string, d: Directory): (r: seq<Request>)
    ensures |r| <= 1
    ensures r != [] <==> Trim(editingName) != "" && editingName != d.name
    ensures r != [] ==> r[0] == UpdateDirectoryRequest(DirectoryRename(d.id, Trim(editingName)))
  {
    if Trim(editingName) != "" && editingName != d.name then
      [UpdateDirectoryRequest(DirectoryRename(d.id, Trim(editingName)))]
    else []
  }

  /**
   * The guard compares the untrimmed draft: a draft that differs from the
   * name only by surrounding spaces still sends a rename, to the same name.
   */
  lemma RenameGuardIsUntrimmed()
    ensures var d := Directory("1", "Work", None, Present([]), Some(false));
      SaveEditRequests(" Work ", d) == [UpdateDirectoryRequest(DirectoryRename("1", "Work"))]
  {
    assert LeadingSpaces(" Work ") == 1;
    assert LeadingSpaces("Work ") == 0;
    assert TrailingStart(" Work ") == 5;
    assert TrailingStart(" Work") == 5;
    assert Trim(" Work ") == "Work";
  }

  /** A blank draft never sends a rename. */
  lemma BlankDraftSendsNothing(editingName: string, d: Directory)
    requires forall k :: 0 <= k < |editingName| ==> IsJsSpace(editingName[k])
    ensures SaveEditRequests(editingName, d) == []
  {
  }

  /**
   * `handleCreateChild` expands a collapsed row and leaves an expanded one
   * alone, so the row the store holds is expanded afterwards either way.
   */
  lemma CreateChildLeavesExpanded(f: seq<Directory>, d: Directory)
    requires FindDirectoryById(f, d.id) == Some(d)
    ensures var g := if IsExpanded(d) then f else EditFirst(f, d.id, Toggle);
      FindDirectoryById(g, d.id).Some? && IsExpanded(FindDirectoryById(g, d.id).value)
  {
    FindAfterEdit(f, d.id, Toggle);
  }

  /** Toggling a row that has children flips whether they are shown. */
  lemma ToggleFlipsShownChildren(f: seq<Directory>, d: Directory)
    requires FindDirectoryById(f, d.id) == Some(d) && HasChildren(d)
    ensures FindDirectoryById(EditFirst(f, d.id, Toggle), d.id).Some?
    ensures ShowsChildren(FindDirectoryById(EditFirst(f, d.id, Toggle), d.id).value) <==> !ShowsChildren(d)
  {
    FindAfterEdit(f, d.id, Toggle);
  }

  class DirectoryItemView {
    const directory: Directory
    var editingName: string

    /** `useState(directory.name)`. */
    constructor (directory: Directory)
      ensures this.directory == directory && editingName == directory.name
    {
      this.directory := directory;
      editingName := directory.name;
    }

    /** `handleStartEdit`: marks this row as the one being edited and resets the draft. */
    method HandleStartEdit(ui: UiState)
      modifies this, ui
      ensures IsEditing(ui.isEditingDirectory, ui.editingItemId, directory)
      ensures editingName == directory.name
      ensures ui.sidebarCollapsed == old(ui.sidebarCollapsed) && ui.showNoteDetail == old(ui.showNoteDetail)
      ensures ui.isEditingNote == old(ui.isEditingNote)
    {
      ui.StartEditingDirectory(directory.id);
      editingName := directory.name;
    }

    /** `handleSaveEdit`: maybe a rename (SaveEditRequests), then editing stops whatever the draft. */
    method HandleSaveEdit(ui: UiState) returns (requests: seq<Request>)
      modifies ui
      ensures requests == SaveEditRequests(editingName, directory)
      ensures !IsEditing(ui.isEditingDirectory, ui.editingItemId, directory)
      ensures !ui.isEditingNote && !ui.isEditingDirectory && ui.editingItemId == None
      ensures ui.sidebarCollapsed == old(ui.sidebarCollapsed) && ui.showNoteDetail == old(ui.showNoteDetail)
    {
      requests := [];
      if Trim(editingName) != "" && editingName != directory.name {
        requests := [UpdateDirectoryRequest(DirectoryRename(directory.id, Trim(editingName)))];
      }
      ui.StopEditing();
    }

    /** `handleCancelEdit`: the draft goes back to the name and editing stops. */
    method HandleCancelEdit(ui: UiState)
      modifies this, ui
      ensures editingName == directory.name
      ensures !ui.isEditingNote && !ui.isEditingDirectory && ui.editingItemId == None
      ensures ui.sidebarCollapsed == old(ui.sidebarCollapsed) && ui.showNoteDetail == old(ui.showNoteDetail)
    {
      editingName := directory.name;
      ui.StopEditing();
    }

    /** `handleKeyDown` in the name box: Enter saves, Escape cancels, other keys do nothing. */
    method HandleKeyDown(key: string, ui: UiState) returns (requests: seq<Request>)
      modifies this, ui
      ensures key == "Enter" ==> requests == SaveEditRequests(old(editingName), directory) && editingName == old(editingName)
      ensures key == "Escape" ==> requests == [] && editingName == directory.name
      ensures key == "Enter" || key == "Escape" ==> !ui.isEditingNote && !ui.isEditingDirectory && ui.editingItemId == None
      ensures key != "Enter" && key != "Escape" ==>
        requests == [] && editingName == old(editingName) && ui.isEditingNote == old(ui.isEditingNote) &&
        ui.isEditingDirectory == old(ui.isEditingDirectory) && ui.editingItemId == old(ui.editingItemId)
      ensures ui.sidebarCollapsed == old(ui.sidebarCollapsed) && ui.showNoteDetail == old(ui.showNoteDetail)
    {
      requests := [];
      if key == "Enter" {
        requests := HandleSaveEdit(ui);
      } else if key == "Escape" {
        HandleCancelEdit(ui);
      }
    }

    /**
     * `handleCreateChild`: a non-empty name creates a directory under this
     * one and expands this row when it was collapsed (CreateChildLeavesExpanded);
     * a dismissed or empty prompt does nothing.
     */
    method HandleCreateChild(dirs: DirectoriesState, name: Option<string>) returns (requests: seq<Request>)
      modifies dirs
      ensures Truthy(name) ==> requests == [CreateDirectoryRequest(NewDirectory(name.value, Some(directory.id)))]
      ensures !Truthy(name) ==> requests == []
      ensures dirs.items == if Truthy(name) && !IsExpanded(directory) then EditFirst(old(dirs.items), directory.id, Toggle) else old(dirs.items)
      ensures dirs.selectedId == old(dirs.selectedId) && dirs.isLoading == old(dirs.isLoading) && dirs.error == old(dirs.error)
    {
      requests := [];
      if Truthy(name) {
        requests := [CreateDirectoryRequest(NewDirectory(name.value, Some(directory.id)))];
        if !IsExpanded(directory) {
          dirs.ToggleDirectoryExpanded(directory.id);
        }
      }
    }
  }
}
