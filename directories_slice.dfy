/**
 * The reducers of src/store/slices/directoriesSlice.ts over the directories
 * state: the forest `items`, the selected id, the loading flag and the error.
 * Each reducer is a method that changes the state in place; the payload of an
 * async thunk is its parameter.
 */
module DirectoriesSlice {
  import opened Wrappers
  import opened Types
  import opened DirectoryForest
  import opened DirectoryBuild

  /** The name the fetch reducer selects when nothing is selected. */
  const FamilyName := "Family"

  /** The error stored when a failed fetch carries no message. */
  const FetchFailed := "Failed to fetch directories"

  /** `payload.find(dir => dir.name === name)`: the first record with the name. */
  function FindByName(ds: seq<Directory>, name: string): (r: Option<Directory>)
    ensures r.None? <==> forall j :: 0 <= j < |ds| ==> ds[j].name != name
    ensures r.Some? ==>
      exists j :: 0 <= j < |ds| && ds[j] == r.value && r.value.name == name && forall k :: 0 <= k < j ==> ds[k].name != name
  {
    if ds == [] then None
    else if ds[0].name == name then Some(ds[0])
    else
      var r := FindByName(ds[1..], name);
      assert forall j :: 1 <= j < |ds| ==> ds[j] == ds[1..][j - 1];
      r
  }

  class DirectoriesState {
    var items: seq<Directory>
    var selectedId: Option<string>
    var isLoading: bool
    var error: Option<string>

    /** `initialState`. */
    constructor ()
      ensures items == [] && selectedId == None && !isLoading && error == None
    {
      items := [];
      selectedId := None;
      isLoading := false;
      error := None;
    }

    /** `selectDirectory`. */
    method SelectDirectory(id: Option<string>)
      modifies this
      ensures selectedId == id
      ensures items == old(items) && isLoading == old(isLoading) && error == old(error)
    {
      selectedId := id;
    }

    /**
     * `toggleDirectoryExpanded`: flips `expanded` of the node the lookup finds;
     * what else stays is FieldEditTouchesFirst's statement, the unknown id case
     * EditMissingIsNoOp's and toggling twice ToggleTwiceRestores'.
     */
    method ToggleDirectoryExpanded(id: string)
      modifies this
      ensures items == EditFirst(old(items), id, Toggle)
      ensures FindDirectoryById(old(items), id).Some? ==>
        FindDirectoryById(items, id) == Some(FindDirectoryById(old(items), id).value.(expanded := Some(!IsExpanded(FindDirectoryById(old(items), id).value))))
      ensures selectedId == old(selectedId) && isLoading == old(isLoading) && error == old(error)
    {
      if FindDirectoryById(items, id).Some? {
        FindAfterEdit(items, id, Toggle);
      }
      items := EditFirst(items, id, Toggle);
    }

    /** `updateDirectoryName`: renames the node the lookup finds; there is no guard on the name. */
    method UpdateDirectoryName(id: string, name: string)
      modifies this
      ensures items == EditFirst(old(items), id, Rename(name))
      ensures FindDirectoryById(old(items), id).Some? ==>
        FindDirectoryById(items, id) == Some(FindDirectoryById(old(items), id).value.(name := name))
      ensures selectedId == old(selectedId) && isLoading == old(isLoading) && error == old(error)
    {
      if FindDirectoryById(items, id).Some? {
        FindAfterEdit(items, id, Rename(name));
      }
      items := EditFirst(items, id, Rename(name));
    }

    /** `fetchDirectories.pending`. */
    method FetchPending()
      modifies this
      ensures isLoading && error == None
      ensures items == old(items) && selectedId == old(selectedId)
    {
      isLoading := true;
      error := None;
    }

    /**
     * `fetchDirectories.fulfilled`: the flat payload becomes the forest, and
     * when nothing is selected the first fetched directory named 'Family' is.
     */
    method FetchFulfilled(payload: seq<Directory>)
      modifies this
      ensures !isLoading && items == Build(payload) && error == old(error)
      ensures Truthy(old(selectedId)) ==> selectedId == old(selectedId)
      ensures !Truthy(old(selectedId)) ==>
        selectedId == match FindByName(payload, FamilyName) case Some(d) => Some(d.id) case None => old(selectedId)
    {
      isLoading := false;
      items := BuildDirectoryTree(payload);
      if !Truthy(selectedId) {
        var family := FindByName(payload, FamilyName);
        if family.Some? {
          selectedId := Some(family.value.id);
        }
      }
    }

    /** `fetchDirectories.rejected`: the error's message, or the default one when it has none. */
    method FetchRejected(message: Option<string>)
      modifies this
      ensures !isLoading && error == Some(MessageOr(message, FetchFailed))
      ensures items == old(items) && selectedId == old(selectedId)
    {
      isLoading := false;
      error := Some(MessageOr(message, FetchFailed));
    }

    /**
     * `createDirectory.fulfilled`: a directory with a parent id goes under the
     * node the lookup finds, and nowhere when there is none; one without goes
     * at the end of the roots.
     */
    method CreateFulfilled(created: Directory)
      modifies this
      ensures Truthy(created.parentId) ==> items == EditFirst(old(items), created.parentId.value, AppendChild(created))
      ensures Truthy(created.parentId) && FindDirectoryById(old(items), created.parentId.value).None? ==> items == old(items)
      ensures !Truthy(created.parentId) ==> items == old(items) + [created]
      ensures selectedId == old(selectedId) && isLoading == old(isLoading) && error == old(error)
    {
      if Truthy(created.parentId) {
        var pid := created.parentId.value;
        if FindDirectoryById(items, pid).None? {
          EditMissingIsNoOp(items, pid, AppendChild(created));
        }
        items := EditFirst(items, pid, AppendChild(created));
      } else {
        items := items + [created];
      }
    }

    /** `updateDirectory.fulfilled`: renames the node the lookup finds to the name the server answered with. */
    method UpdateFulfilled(updated: DirectoryRename)
      modifies this
      ensures items == EditFirst(old(items), updated.id, Rename(updated.name))
      ensures selectedId == old(selectedId) && isLoading == old(isLoading) && error == old(error)
    {
      items := EditFirst(items, updated.id, Rename(updated.name));
    }

    /** `deleteDirectory.fulfilled`: drops the subtrees and clears the selection exactly when it was the deleted id. */
    method DeleteFulfilled(id: string)
      modifies this
      ensures items == RemoveDirectoryById(old(items), id)
      ensures FindDirectoryById(items, id).None?
      ensures selectedId == if old(selectedId) == Some(id) then None else old(selectedId)
      ensures isLoading == old(isLoading) && error == old(error)
    {
      RemoveLeavesNoTrace(items, id);
      items := RemoveDirectoryById(items, id);
      if selectedId == Some(id) {
        selectedId := None;
      }
    }
  }
}
