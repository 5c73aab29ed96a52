/**
 * The note detail panel of src/components/Notes/NoteDetail.tsx: its local
 * state (the edit flag and the draft title, description, tags and new-tag
 * text), the lookup of the selected notice, the effect that loads a notice
 * into the draft, and the handlers. `updateNotice` is returned as a request;
 * `setShowNoteDetail` is dispatched to the UI state passed in.
 */
module NoteDetail {
  import opened Wrappers
  import opened Types
  import opened Text
  import opened UiSlice

  /** `notices.find(n => n.id === selectedId)`: the first notice with the selected id; none when nothing is selected. */
  function SelectedNotice(items: seq<Notice>, selectedId: Option<string>): (r: Option<Notice>)
    ensures r.None? <==> selectedId.None? || forall i :: 0 <= i < |items| ==> items[i].id != selectedId.value
    ensures r.Some? ==> selectedId.Some? && (exists i :: 0 <= i < |items| && items[i] == r.value && r.value.id == selectedId.value && forall k :: 0 <= k < i ==> items[k].id != selectedId.value)
  {
    if selectedId.None? || items == [] then None
    else if items[0].id == selectedId.value then Some(items[0])
    else
      var r := SelectedNotice(items[1..], selectedId);
      assert forall i :: 1 <= i < |items| ==> items[i] == items[1..][i - 1];
      r
  }

  /** No tag occurs twice. */
  predicate DistinctTags(tags: seq<string>)
  {
    forall i, j :: 0 <= i < j < |tags| ==> tags[i] != tags[j]
  }

  /** `handleAddTag` takes the draft: its trimmed text is non-empty and not a tag yet. */
  predicate AcceptsTag(tags: seq<string>, newTag: string)
  {
    Trim(newTag) != "" && Trim(newTag) !in tags
  }

  /** The tags after `handleAddTag`: the trimmed text appended when it is accepted. */
  function TagsAfterAdd(tags: seq<string>, newTag: string): (r: seq<string>)
    ensures AcceptsTag(tags, newTag) ==> r == tags + [Trim(newTag)]
    ensures !AcceptsTag(tags, newTag) ==> r == tags
  {
    if AcceptsTag(tags, newTag) then tags + [Trim(newTag)] else tags
  }

  /** `tags.filter(t => t !== tag)`: every copy of `tag` goes, the rest keep their order. */
  function WithoutTag(tags: seq<string>, tag: string): (r: seq<string>)
    ensures forall t :: t in r <==> t in tags && t != tag
    ensures |r| <= |tags|
  {
    if tags == [] then []
    else
      var k := |tags| - 1;
      assert forall t :: t in tags <==> t in tags[..k] || t == tags[k];
      WithoutTag(tags[..k], tag) + if tags[k] == tag then [] else [tags[k]]
  }

  /** Adding keeps the tags distinct, and never adds a blank or untrimmed tag. */
  lemma AddKeepsDistinct(tags: seq<string>, newTag: string)
    requires DistinctTags(tags)
    ensures DistinctTags(TagsAfterAdd(tags, newTag))
    ensures forall t :: t in TagsAfterAdd(tags, newTag) && t !in tags ==> t == Trim(newTag) && t != "" && Trim(t) == t
  {
    TrimIdempotent(newTag);
  }

  /** Removing keeps the tags distinct. */
  lemma {:induction false} RemoveKeepsDistinct(tags: seq<string>, tag: string)
    requires DistinctTags(tags)
    ensures DistinctTags(WithoutTag(tags, tag))
  {
    if tags != [] {
      var k := |tags| - 1;
      assert DistinctTags(tags[..k]);
      RemoveKeepsDistinct(tags[..k], tag);
      assert tags[k] !in tags[..k];
    }
  }

  /** Filtering out a tag that is not there changes nothing. */
  lemma {:induction false} WithoutAbsentTag(tags: seq<string>, tag: string)
    requires tag !in tags
    ensures WithoutTag(tags, tag) == tags
  {
    if tags != [] {
      var k := |tags| - 1;
      WithoutAbsentTag(tags[..k], tag);
      assert tags == tags[..k] + [tags[k]];
    }
  }

  /** Removing the tag just added gives the tags back. */
  lemma RemoveUndoesAdd(tags: seq<string>, newTag: string)
    requires AcceptsTag(tags, newTag)
    ensures WithoutTag(TagsAfterAdd(tags, newTag), Trim(newTag)) == tags
  {
    var s := tags + [Trim(newTag)];
    assert s[..|s| - 1] == tags;
    WithoutAbsentTag(tags, Trim(newTag));
  }

  class NoteDetailView {
    var isEditing: bool
    var title: string
    var description: string
    var tags: seq<string>
    var newTag: string

    /** The initial local state: not editing, everything blank. */
    constructor ()
      ensures !isEditing && title == "" && description == "" && tags == [] && newTag == ""
    {
      isEditing := false;
      title := "";
      description := "";
      tags := [];
      newTag := "";
    }

    /** The effect run when the selected notice changes: a found notice is loaded into the draft. */
    method LoadSelected(selected: Option<Notice>)
      modifies this
      ensures selected.Some? ==> title == selected.value.title && description == selected.value.description && tags == selected.value.tags
      ensures selected.None? ==> title == old(title) && description == old(description) && tags == old(tags)
      ensures isEditing == old(isEditing) && newTag == old(newTag)
    {
      if selected.Some? {
        title := selected.value.title;
        description := selected.value.description;
        tags := selected.value.tags;
      }
    }

    /** `handleClose`: hides the panel and leaves edit mode. */
    method HandleClose(ui: UiState)
      modifies this, ui
      ensures !ui.showNoteDetail && !isEditing
      ensures ui.sidebarCollapsed == old(ui.sidebarCollapsed) && ui.isEditingNote == old(ui.isEditingNote)
      ensures ui.isEditingDirectory == old(ui.isEditingDirectory) && ui.editingItemId == old(ui.editingItemId)
      ensures title == old(title) && description == old(description) && tags == old(tags) && newTag == old(newTag)
    {
      ui.SetShowNoteDetail(false);
      isEditing := false;
    }

    /**
     * `handleSave`: with a notice selected, sends its id with the trimmed
     * draft title and description and the draft tags, and leaves edit mode;
     * without one it does nothing.
     */
    method HandleSave(selected: Option<Notice>) returns (requests: seq<Request>)
      modifies this
      ensures selected.Some? ==>
        requests == [UpdateNoticeRequest(NoticeUpdate(selected.value.id, Some(Trim(old(title))), Some(Trim(old(description))), Some(old(tags)), None))] &&
        !isEditing
      ensures selected.None? ==> requests == [] && isEditing == old(isEditing)
      ensures title == old(title) && description == old(description) && tags == old(tags) && newTag == old(newTag)
    {
      requests := [];
      if selected.Some? {
        requests := [UpdateNoticeRequest(NoticeUpdate(selected.value.id, Some(Trim(title)), Some(Trim(description)), Some(tags), None))];
        isEditing := false;
      }
    }

    /** `handleAddTag`: an accepted tag is appended and the draft text cleared; otherwise nothing changes. */
    method HandleAddTag()
      modifies this
      ensures tags == TagsAfterAdd(old(tags), old(newTag))
      ensures newTag == if AcceptsTag(old(tags), old(newTag)) then "" else old(newTag)
      ensures isEditing == old(isEditing) && title == old(title) && description == old(description)
    {
      var tag := Trim(newTag);
      if tag != "" && tag !in tags {
        tags := tags + [tag];
        newTag := "";
      }
    }

    /** `handleRemoveTag`. */
    method HandleRemoveTag(tag: string)
      modifies this
      ensures tags == WithoutTag(old(tags), tag)
      ensures isEditing == old(isEditing) && title == old(title) && description == old(description) && newTag == old(newTag)
    {
      tags := WithoutTag(tags, tag);
    }

    /** `handleKeyDown` in the new-tag box: Enter adds the tag, any other key does nothing. */
    method HandleKeyDown(key: string)
      modifies this
      ensures key == "Enter" ==> tags == TagsAfterAdd(old(tags), old(newTag))
      ensures key == "Enter" ==> newTag == if AcceptsTag(old(tags), old(newTag)) then "" else old(newTag)
      ensures key != "Enter" ==> tags == old(tags) && newTag == old(newTag)
      ensures isEditing == old(isEditing) && title == old(title) && description == old(description)
    {
      if key == "Enter" {
        HandleAddTag();
      }
    }
  }
}
